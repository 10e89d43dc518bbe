module Cose {
  // Reading a P-256 public key out of its COSE map (pkg/webauthn/verify.go). The
  // encodings are those of RFC 8949, section 3.1, for a key of RFC 9053, section
  // 7.1.1.

  import opened Wire
  import opened Dom

  const KEY_X := -2
  const KEY_Y := -3
  const COORDINATE := 32

  datatype Key = Key(x: nat, y: nat) | Invalid

  function Major(b: byte): nat { b / 32 }

  function Additional(b: byte): nat { b % 32 }

  /** decodeCBORInt: the value and the number of bytes consumed, 0 for failure. */
  function DecodeInt(data: Str): (r: (int, nat))
    ensures r.1 <= |data|
  {
    if data == [] then (0, 0)
    else
      var a := Additional(data[0]);
      if a > 24 || (a == 24 && |data| < 2) then (0, 0)
      else
        var val: int := if a < 24 then a else data[1];
        var consumed := if a < 24 then 1 else 2;
        if Major(data[0]) == 0 then (val, consumed)
        else if Major(data[0]) == 1 then (-1 - val, consumed)
        else (0, 0)
  }

  /** decodeCBORBytes. */
  function DecodeBytes(data: Str): (r: (Str, nat))
    ensures r.1 <= |data|
  {
    if data == [] || Major(data[0]) != 2 then ([], 0)
    else
      var a := Additional(data[0]);
      if a > 25 || (a == 24 && |data| < 2) || (a == 25 && |data| < 3) then ([], 0)
      else
        var pos := if a < 24 then 1 else if a == 24 then 2 else 3;
        var length: int :=
          if a < 24 then a else if a == 24 then data[1] as int else 0x100 * (data[1] as int) + data[2] as int;
        if pos + length > |data| then ([], 0) else (data[pos..pos + length], pos + length)
  }

  /** skipCBORValue: may point behind the end of a truncated integer. */
  function SkipValue(data: Str): nat {
    if data == [] then 0
    else
      var major, a := Major(data[0]), Additional(data[0]);
      if major <= 1 then
        if a < 24 then 1 else if a == 24 then 2 else if a == 25 then 3 else if a == 26 then 5 else 0
      else if major <= 3 then DecodeBytes(data).1
      else 1
  }

  function From(data: Str, pos: nat): Str {
    if pos <= |data| then data[pos..] else []
  }

  /** The entries from here on, `n` of them at most. */
  function Scan(data: Str, n: nat, x: Str, y: Str): Option<(Str, Str)>
    decreases n
  {
    if n == 0 || data == [] then Some((x, y))
    else
      var (key, k) := DecodeInt(data);
      if k == 0 then None
      else
        var rest := data[k..];
        if key == KEY_X || key == KEY_Y then
          var (b, m) := DecodeBytes(rest);
          if m == 0 then None
          else Scan(rest[m..], n - 1, if key == KEY_X then b else x, if key == KEY_Y then b else y)
        else
          var m := SkipValue(rest);
          if m == 0 then None else Scan(From(rest, m), n - 1, x, y)
  }

  /** The map header: how many entries, and where they start. */
  function Header(data: Str): Option<(nat, nat)>
    requires |data| >= 2
  {
    if Major(data[0]) != 5 then None
    else if Additional(data[0]) == 24 then Some((data[1], 2))
    else Some((Additional(data[0]), 1))
  }

  function Parse(data: Str): Key {
    if |data| < 10 || Header(data).None? then Invalid
    else
      var (n, start) := Header(data).value;
      var found := Scan(data[start..], n, [], []);
      if found.None? || |found.value.0| != COORDINATE || |found.value.1| != COORDINATE then Invalid
      else Key(Number(found.value.0), Number(found.value.1))
  }

  /** One entry, read at a position of the whole. */
  lemma {:induction false} ScanFrom(data: Str, pos: nat, n: nat, x: Str, y: Str)
    requires pos < |data| && n > 0
    ensures Scan(From(data, pos), n, x, y) ==
              var (key, k) := DecodeInt(data[pos..]);
              if k == 0 then None
              else
                var value := data[pos + k..];
                if key == KEY_X || key == KEY_Y then
                  var (b, m) := DecodeBytes(value);
                  if m == 0 then None
                  else
                    Scan(From(data, pos + k + m), n - 1, if key == KEY_X then b else x, if key == KEY_Y then b else y)
                else
                  var m := SkipValue(value);
                  if m == 0 then None else Scan(From(data, pos + k + m), n - 1, x, y)
  {
    hide DecodeInt, DecodeBytes, SkipValue;
    var (key, k) := DecodeInt(data[pos..]);
    assert data[pos..][k..] == data[pos + k..];
    var value := data[pos + k..];
    assert forall m: nat | m <= |value| :: value[m..] == data[pos + k + m..];
  }

  lemma ScanDone(data: Str, pos: nat, n: nat, x: Str, y: Str)
    requires n == 0 || pos >= |data|
    ensures Scan(From(data, pos), n, x, y) == Some((x, y))
  {
  }

  /** parseCOSEP256 with its cursor: defined and in bounds for every byte string. */
  method ParseP256(data: Str) returns (r: Key)
    ensures r == Parse(data)
  {
    hide Scan, DecodeInt, DecodeBytes, SkipValue, Major, Additional, Number;
    if |data| < 10 {
      return Invalid;
    }
    var x: Str, y: Str := [], [];
    var pos := 0;
    var major, additional := Major(data[pos]), Additional(data[pos]);
    pos := pos + 1;
    if major != 5 {
      return Invalid;
    }
    var mapLen: int := additional;
    if additional == 24 {
      mapLen := data[pos];
      pos := pos + 1;
    }
    ghost var start := pos;
    var i := 0;
    while i < mapLen && pos < |data|
      invariant 0 <= i <= mapLen && 0 <= pos
      invariant Scan(data[start..], mapLen, [], []) == Scan(From(data, pos), mapLen - i, x, y)
      decreases mapLen - i
    {
      ScanFrom(data, pos, mapLen - i, x, y);
      var (key, n) := DecodeInt(data[pos..]);
      if n == 0 {
        return Invalid;
      }
      pos := pos + n;
      if key == KEY_X {
        var (b, m) := DecodeBytes(data[pos..]);
        if m == 0 {
          return Invalid;
        }
        x := b;
        pos := pos + m;
      } else if key == KEY_Y {
        var (b, m) := DecodeBytes(data[pos..]);
        if m == 0 {
          return Invalid;
        }
        y := b;
        pos := pos + m;
      } else {
        var m := SkipValue(data[pos..]);
        if m == 0 {
          return Invalid;
        }
        pos := pos + m;
      }
      i := i + 1;
    }
    ScanDone(data, pos, mapLen - i, x, y);
    if |x| != COORDINATE || |y| != COORDINATE {
      return Invalid;
    }
    return Key(Number(x), Number(y));
  }

  // ------------------------------------------------------------- key maps

  datatype Value = Int(v: int) | Bytes(b: Str) | Text(t: Str)

  datatype Entry = Entry(key: int, value: Value)

  /** A CBOR head: a major type and an argument. */
  function Head(major: nat, n: nat): Str
    requires major < 8 && n < 0x1_0000_0000
  {
    if n < 24 then [32 * major + n]
    else if n < 0x100 then [32 * major + 24, n]
    else if n < 0x1_0000 then [32 * major + 25, n / 0x100, n % 0x100]
    else [32 * major + 26, n / 0x100_0000, n / 0x1_0000 % 0x100, n / 0x100 % 0x100, n % 0x100]
  }

  predicate KeyFits(k: int) {
    -0x100 <= k < 0x100
  }

  predicate ValueFits(v: Value) {
    match v
    case Int(n) => -0x1_0000_0000 <= n < 0x1_0000_0000
    case Bytes(b) => |b| < 0x1_0000
    case Text(t) => |t| < 0x1_0000
  }

  predicate EntryFits(e: Entry) {
    KeyFits(e.key) && ValueFits(e.value)
  }

  predicate AllFit(es: seq<Entry>) {
    forall i | 0 <= i < |es| :: EntryFits(es[i])
  }

  function EncodeInt(n: int): Str
    requires -0x1_0000_0000 <= n < 0x1_0000_0000
  {
    if n >= 0 then Head(0, n) else Head(1, -1 - n)
  }

  function EncodeValue(v: Value): Str
    requires ValueFits(v)
  {
    match v
    case Int(n) => EncodeInt(n)
    case Bytes(b) => Head(2, |b|) + b
    case Text(t) => Head(3, |t|) + t
  }

  function EncodeEntries(es: seq<Entry>): Str
    requires AllFit(es)
  {
    if es == [] then []
    else EncodeInt(es[0].key) + EncodeValue(es[0].value) + EncodeEntries(es[1..])
  }

  function EncodeMap(es: seq<Entry>): Str
    requires |es| < 0x100 && AllFit(es)
  {
    Head(5, |es|) + EncodeEntries(es)
  }

  lemma HeadParts(major: nat, a: nat)
    requires major < 8 && a < 32
    ensures Major(32 * major + a) == major && Additional(32 * major + a) == a
  {
  }

  /** What the first byte of a head says. */
  lemma {:induction false} HeadFirst(major: nat, n: nat)
    requires major < 8 && n < 0x1_0000_0000
    ensures var h := Head(major, n);
            && |h| == (if n < 24 then 1 else if n < 0x100 then 2 else if n < 0x1_0000 then 3 else 5)
            && Major(h[0]) == major
            && Additional(h[0]) == if n < 24 then n else if n < 0x100 then 24 else if n < 0x1_0000 then 25 else 26
  {
    HeadParts(major, if n < 24 then n else if n < 0x100 then 24 else if n < 0x1_0000 then 25 else 26);
    hide Major, Additional;
  }

  lemma {:induction false} IntBack(k: int, rest: Str)
    requires KeyFits(k)
    ensures DecodeInt(EncodeInt(k) + rest) == (k, |EncodeInt(k)|) && |EncodeInt(k)| > 0
  {
    var n := if k >= 0 then k else -1 - k;
    var data := EncodeInt(k) + rest;
    HeadFirst(if k >= 0 then 0 else 1, n);
    hide Major, Additional;
    assert data[0] == EncodeInt(k)[0];
    assert n >= 24 ==> data[1] == EncodeInt(k)[1];
  }

  lemma {:induction false} BytesBack(b: Str, rest: Str)
    requires |b| < 0x1_0000
    ensures DecodeBytes(Head(2, |b|) + b + rest) == (b, |Head(2, |b|)| + |b|)
    ensures SkipValue(Head(2, |b|) + b + rest) == |Head(2, |b|)| + |b| > 0
  {
    var h := Head(2, |b|);
    var data := h + b + rest;
    HeadFirst(2, |b|);
    hide Major, Additional;
    assert data[0] == h[0];
    assert |h| > 1 ==> data[1] == h[1];
    assert |h| > 2 ==> data[2] == h[2];
    assert data[|h|..|h| + |b|] == b;
  }

  lemma {:induction false} IntSkipped(n: int, rest: Str)
    requires -0x1_0000_0000 <= n < 0x1_0000_0000
    ensures SkipValue(EncodeInt(n) + rest) == |EncodeInt(n)| > 0
    ensures DecodeBytes(EncodeInt(n) + rest).1 == 0
  {
    HeadFirst(if n >= 0 then 0 else 1, if n >= 0 then n else -1 - n);
    hide Major, Additional;
    assert (EncodeInt(n) + rest)[0] == EncodeInt(n)[0];
  }

  /** Text strings are taken for malformed byte strings. */
  lemma {:induction false} TextRefused(t: Str, rest: Str)
    requires |t| < 0x1_0000
    ensures SkipValue(Head(3, |t|) + t + rest) == 0 && DecodeBytes(Head(3, |t|) + t + rest).1 == 0
  {
    HeadFirst(3, |t|);
    hide Major, Additional;
    assert (Head(3, |t|) + t + rest)[0] == Head(3, |t|)[0];
  }

  /** Labels of more than one byte, and strings of 65536 bytes and more, are not read. */
  lemma {:induction false} WideRefused(k: int, b: Str, rest: Str)
    requires -0x1_0000_0000 <= k < 0x1_0000_0000 && |b| < 0x1_0000_0000
    ensures k < -256 || k >= 256 ==> DecodeInt(EncodeInt(k) + rest).1 == 0
    ensures |b| >= 65536 ==> DecodeBytes(Head(2, |b|) + b + rest).1 == 0
  {
    HeadFirst(if k >= 0 then 0 else 1, if k >= 0 then k else -1 - k);
    HeadFirst(2, |b|);
    hide Major, Additional;
    assert (EncodeInt(k) + rest)[0] == EncodeInt(k)[0];
    assert (Head(2, |b|) + b + rest)[0] == Head(2, |b|)[0];
  }

  /** A byte string or label that is cut short is not read. */
  lemma {:induction false} CutRefused(k: int, b: Str, size: nat)
    requires KeyFits(k) && |b| < 0x1_0000
    ensures size < |EncodeInt(k)| ==> DecodeInt(EncodeInt(k)[..size]).1 == 0
    ensures size < |Head(2, |b|) + b| ==> DecodeBytes((Head(2, |b|) + b)[..size]).1 == 0
  {
    HeadFirst(if k >= 0 then 0 else 1, if k >= 0 then k else -1 - k);
    HeadFirst(2, |b|);
    hide Major, Additional;
    var h := Head(2, |b|);
    if 0 < size < |h + b| {
      var data := (h + b)[..size];
      assert data[0] == h[0];
      assert size > 1 && |h| > 1 ==> data[1] == h[1];
      assert size > 2 && |h| > 2 ==> data[2] == h[2];
    }
  }

  /** Entries that can be read: byte strings as coordinates, anything but text elsewhere. */
  predicate Readable(e: Entry) {
    if e.key == KEY_X || e.key == KEY_Y then e.value.Bytes? else !e.value.Text?
  }

  predicate AllReadable(es: seq<Entry>) {
    forall i | 0 <= i < |es| :: Readable(es[i])
  }

  /** The last byte string under `key`, or what was there before. */
  function Under(es: seq<Entry>, key: int, before: Str): Str {
    if es == [] then before
    else Under(es[1..], key, if es[0].key == key && es[0].value.Bytes? then es[0].value.b else before)
  }

  lemma {:induction false} ValueBack(e: Entry, rest: Str)
    requires EntryFits(e)
    ensures var data := EncodeValue(e.value) + rest;
            && (e.value.Bytes? ==> DecodeBytes(data) == (e.value.b, |EncodeValue(e.value)|))
            && (!e.value.Bytes? ==> DecodeBytes(data).1 == 0)
            && SkipValue(data) == (if e.value.Text? then 0 else |EncodeValue(e.value)|)
            && |EncodeValue(e.value)| > 0
            && data[|EncodeValue(e.value)|..] == rest
  {
    hide DecodeBytes, SkipValue;
    match e.value
    case Int(n) => IntSkipped(n, rest);
    case Bytes(b) => BytesBack(b, rest);
    case Text(t) => TextRefused(t, rest);
  }

  /** One entry is read back. */
  lemma {:induction false} EntryBack(e: Entry, rest: Str, n: nat, x: Str, y: Str)
    requires EntryFits(e) && n > 0
    ensures Scan(EncodeInt(e.key) + EncodeValue(e.value) + rest, n, x, y) ==
              if Readable(e) then Scan(rest, n - 1, Under([e], KEY_X, x), Under([e], KEY_Y, y)) else None
  {
    hide DecodeBytes, SkipValue, DecodeInt, EncodeInt, EncodeValue;
    var k, v := EncodeInt(e.key), EncodeValue(e.value);
    var data := k + v + rest;
    assert data == k + (v + rest);
    IntBack(e.key, v + rest);
    ValueBack(e, rest);
    assert data[|k|..] == v + rest;
    assert [e][1..] == [];
  }

  lemma {:induction false} EntriesBack(es: seq<Entry>, rest: Str, x: Str, y: Str)
    requires AllFit(es)
    ensures Scan(EncodeEntries(es) + rest, |es|, x, y) ==
              if AllReadable(es) then Some((Under(es, KEY_X, x), Under(es, KEY_Y, y))) else None
    decreases es
  {
    hide Scan, EncodeInt, EncodeValue, Readable;
    if es == [] {
      ScanDone(rest, 0, 0, x, y);
      assert EncodeEntries(es) + rest == From(rest, 0);
    } else {
      var e, more := es[0], EncodeEntries(es[1..]) + rest;
      EntriesCons(es, rest);
      EntryBack(e, more, |es|, x, y);
      UnderCons(es, KEY_X, x);
      UnderCons(es, KEY_Y, y);
      assert AllReadable(es) <==> Readable(e) && AllReadable(es[1..]);
      hide EncodeEntries, AllReadable, Under;
      EntriesBack(es[1..], rest, Under([e], KEY_X, x), Under([e], KEY_Y, y));
    }
  }

  lemma EntriesCons(es: seq<Entry>, rest: Str)
    requires AllFit(es) && es != []
    ensures EntryFits(es[0]) && AllFit(es[1..])
    ensures EncodeEntries(es) + rest
            == EncodeInt(es[0].key) + EncodeValue(es[0].value) + (EncodeEntries(es[1..]) + rest)
  {
    hide EncodeInt, EncodeValue;
  }

  lemma UnderCons(es: seq<Entry>, key: int, before: Str)
    requires es != []
    ensures Under(es, key, before) == Under(es[1..], key, Under([es[0]], key, before))
  {
    assert [es[0]][1..] == [];
  }

  /**
   What is read from the encoding of any entries, followed by anything: a key
   exactly when every entry is readable and both coordinates have 32 bytes.
   */
  lemma {:induction false} MapBack(es: seq<Entry>, rest: Str)
    requires |es| < 0x100 && AllFit(es)
    ensures var x, y := Under(es, -2, []), Under(es, -3, []);
            Parse(EncodeMap(es) + rest) ==
              if AllReadable(es) && |x| == 32 && |y| == 32
              then Key(Number(x), Number(y)) else Invalid
  {
    hide Scan, EncodeEntries, Under, Readable, Number, Head, Major, Additional, AllReadable, AllFit;
    var h, entries := Head(5, |es|), EncodeEntries(es) + rest;
    var data := EncodeMap(es) + rest;
    assert data == h + entries;
    HeaderBack(|es|, entries);
    EntriesBack(es, rest, [], []);
    UnderLength(es, KEY_X);
    assert data[|h|..] == entries;
  }

  lemma {:induction false} HeaderBack(n: nat, rest: Str)
    requires n < 0x100
    ensures |Head(5, n)| > 0
    ensures |Head(5, n) + rest| >= 2 ==> Header(Head(5, n) + rest) == Some((n, |Head(5, n)|))
  {
    HeadFirst(5, n);
    hide Major, Additional;
  }

  /** A byte string found takes its room. */
  lemma {:induction false} UnderLength(es: seq<Entry>, key: int)
    requires AllFit(es)
    ensures |Under(es, key, [])| <= |EncodeEntries(es)|
  {
    UnderRoom(es, key, []);
  }

  lemma {:induction false} UnderRoom(es: seq<Entry>, key: int, before: Str)
    requires AllFit(es)
    ensures |Under(es, key, before)| <= |before| + |EncodeEntries(es)|
    decreases es
  {
    if es != [] {
      var next := if es[0].key == key && es[0].value.Bytes? then es[0].value.b else before;
      UnderRoom(es[1..], key, next);
      assert |next| <= |before| + |EncodeValue(es[0].value)|;
    }
  }

  lemma {:induction false} UnderOne(es: seq<Entry>, i: nat, before: Str)
    requires i < |es| && es[i].value.Bytes? && forall j | i < j < |es| :: es[j].key != es[i].key
    ensures Under(es, es[i].key, before) == es[i].value.b
    decreases es
  {
    if i > 0 {
      UnderOne(es[1..], i - 1, if es[0].key == es[i].key && es[0].value.Bytes? then es[0].value.b else before);
    } else {
      UnderNone(es[1..], es[0].key, es[0].value.b);
    }
  }

  lemma {:induction false} UnderNone(es: seq<Entry>, key: int, before: Str)
    requires forall j | 0 <= j < |es| :: es[j].key != key
    ensures Under(es, key, before) == before
    decreases es
  {
    if es != [] {
      UnderNone(es[1..], key, before);
    }
  }

  /** An EC2 key with distinct labels, its entries in any order, gives exactly its coordinates. */
  lemma {:induction false} AnyOrder(es: seq<Entry>, rest: Str, i: nat, j: nat)
    requires |es| < 0x100 && AllFit(es) && forall i | 0 <= i < |es| :: !es[i].value.Text?
    requires forall a, b | 0 <= a < b < |es| :: es[a].key != es[b].key
    requires i < |es| && es[i].key == -2 && es[i].value.Bytes? && |es[i].value.b| == 32
    requires j < |es| && es[j].key == -3 && es[j].value.Bytes? && |es[j].value.b| == 32
    ensures Parse(EncodeMap(es) + rest) == Key(Number(es[i].value.b), Number(es[j].value.b))
  {
    MapBack(es, rest);
    UnderOne(es, i, []);
    UnderOne(es, j, []);
    hide EncodeMap, Parse, Under;
    forall k | 0 <= k < |es| ensures Readable(es[k]) {
      assert es[k].key == KEY_X ==> k == i;
      assert es[k].key == KEY_Y ==> k == j;
    }
  }

  /** Coordinates of the same length are told apart by their numbers. */
  lemma {:induction false} NumberTells(a: Str, b: Str)
    requires |a| == |b| && Number(a) == Number(b)
    ensures a == b
    decreases a
  {
    if a != [] {
      var n := |a| - 1;
      NumberTells(a[..n], b[..n]);
      assert a == a[..n] + [a[n]] && b == b[..n] + [b[n]];
    }
  }
}
