module Codec {
  // What the decoder of pkg/protocol/decoder.go returns, and the round trip with
  // the encoders.

  import opened Wire

  datatype DecodeError = ShortRead | InvalidFrame | UnknownOp

  datatype Result<+T> = Ok(value: T) | Err(error: DecodeError)

  /** Everything `DecodeAll` hands back: what was decoded, and the error that stopped it. */
  datatype Outcome = Outcome(msgs: seq<Msg>, error: Result<()>)

  const DONE: Result<()> := Ok(())

  /** Offset of the first NUL. */
  function FindNull(data: seq<byte>): (r: int)
    ensures -1 <= r < |data|
    ensures if r < 0 then 0 !in data else data[r] == 0 && 0 !in data[..r]
  {
    if data == [] then -1
    else if data[0] == 0 then 0
    else
      var r := FindNull(data[1..]);
      if r < 0 then -1
      else assert data[..r + 1] == [data[0]] + data[1..][..r]; r + 1
  }

  /** A string with a 2-byte length, and what follows it. */
  function TakeField(data: seq<byte>): (r: Result<(Str, seq<byte>)>)
    ensures r.Ok? ==> |r.value.1| + 2 <= |data|
  {
    if |data| < 2 then Err(ShortRead)
    else
      var n := Be16(data[..2]);
      if 2 + n > |data| then Err(ShortRead) else Ok((data[2..2 + n], data[2 + n..]))
  }

  /** `n` key-value pairs, and what follows them. */
  function TakeAttrs(data: seq<byte>, n: nat): (r: Result<(seq<(Str, Str)>, seq<byte>)>)
    ensures r.Ok? ==> |r.value.0| == n
  {
    if n == 0 then Ok(([], data))
    else
      var k := TakeField(data);
      if k.Err? then Err(k.error) else
      var v := TakeField(k.value.1);
      if v.Err? then Err(v.error) else
      var rest := TakeAttrs(v.value.1, n - 1);
      if rest.Err? then rest else Ok(([(k.value.0, v.value.0)] + rest.value.0, rest.value.1))
  }

  /** The shared tail of SetAttr and SetStyle: key, NUL, value. */
  function TakePair(data: seq<byte>): Result<(Str, Str)> {
    var sep := FindNull(data);
    if sep < 0 then Err(InvalidFrame) else Ok((data[..sep], data[sep + 1..]))
  }

  /** A string with a 1-byte length, and what follows it. */
  function TakeTag(data: seq<byte>): (r: Result<(Str, seq<byte>)>) {
    if |data| < 1 then Err(ShortRead)
    else
      var n: int := data[0];
      if 1 + n > |data| then Err(ShortRead) else Ok((data[1..1 + n], data[1 + n..]))
  }

  /** A 2-byte count and that many pairs. */
  function TakeCounted(data: seq<byte>): Result<seq<(Str, Str)>> {
    if |data| < 2 then Err(ShortRead)
    else
      var attrs := TakeAttrs(data[2..], Be16(data[..2]));
      if attrs.Err? then Err(attrs.error) else Ok(attrs.value.0)
  }

  function DecodeInsertNode(data: seq<byte>): (r: Result<Msg>)
    ensures r.Ok? ==> r.value.InsertNode?
  {
    if |data| < 14 then Err(ShortRead)
    else
      var tag := TakeTag(data[13..]);
      if tag.Err? then Err(tag.error) else
      var attrs := TakeCounted(tag.value.1);
      if attrs.Err? then Err(attrs.error)
      else Ok(InsertNode(Be32(data[1..5]), Be32(data[5..9]), Be32(data[9..13]), tag.value.0, attrs.value))
  }

  function DecodeChallenge(data: seq<byte>): (r: Result<Msg>)
    requires |data| >= 1
    ensures r.Ok? ==> r.value.AuthChallenge?
  {
    if |data| < 2 then Err(ShortRead)
    else
      var n: int := data[1];
      if |data| < 2 + n + 32 then Err(ShortRead)
      else Ok(AuthChallenge(data[2..2 + n], data[2 + n..2 + n + 32]))
  }

  function DecodeClientAuth(data: seq<byte>): (r: Result<Msg>)
    requires |data| >= 1
    ensures r.Ok? ==> r.value.ClientAuth?
  {
    var a := TakeField(data[1..]);
    if a.Err? then Err(a.error) else
    var b := TakeField(a.value.1);
    if b.Err? then Err(b.error) else
    var c := TakeField(b.value.1);
    if c.Err? then Err(c.error) else
    var d := TakeField(c.value.1);
    if d.Err? then Err(d.error) else
    Ok(ClientAuth(a.value.0, b.value.0, c.value.0, d.value.0))
  }

  /** The message in one frame body (Decode). */
  function Decode(data: seq<byte>): Result<Msg>
    decreases |data|, 0
  {
    if |data| < 1 then Err(ShortRead)
    else
      var op := data[0];
      if op == OP_UPDATE_TEXT then
        if |data| < 5 then Err(ShortRead) else Ok(UpdateText(Be32(data[1..5]), data[5..]))
      else if op == OP_SET_ATTR then
        if |data| < 5 then Err(ShortRead) else
        var kv := TakePair(data[5..]);
        if kv.Err? then Err(kv.error) else Ok(SetAttr(Be32(data[1..5]), kv.value.0, kv.value.1))
      else if op == OP_REMOVE_ATTR then
        if |data| < 5 then Err(ShortRead) else Ok(RemoveAttr(Be32(data[1..5]), data[5..]))
      else if op == OP_INSERT_NODE then DecodeInsertNode(data)
      else if op == OP_REMOVE_NODE then
        if |data| < 5 then Err(ShortRead) else Ok(RemoveNode(Be32(data[1..5])))
      else if op == OP_REPLACE_TEXT then
        if |data| < 13 then Err(ShortRead)
        else Ok(ReplaceText(Be32(data[1..5]), Be32(data[5..9]), Be32(data[9..13]), data[13..]))
      else if op == OP_SET_STYLE then
        if |data| < 5 then Err(ShortRead) else
        var kv := TakePair(data[5..]);
        if kv.Err? then Err(kv.error) else Ok(SetStyle(Be32(data[1..5]), kv.value.0, kv.value.1))
      else if op == OP_PUSH_HISTORY then Ok(PushHistory(data[1..]))
      else if op == OP_BATCH then
        if |data| < 5 then Err(ShortRead) else
        var children := DecodeN(data[5..], Be32(data[1..5]));
        if children.Err? then Err(children.error) else Ok(Batch(children.value))
      else if op == OP_ERROR then
        var text := TakeField(data[1..]);
        if text.Err? then Err(text.error) else Ok(Error(text.value.0))
      else if op == OP_DEVTOOLS_STATE then
        if |data| < 5 then Err(ShortRead) else
        var n := Be32(data[1..5]);
        if |data| < 5 + n then Err(ShortRead) else Ok(DevToolsState(data[5..5 + n]))
      else if op == OP_CLIENT_INTENT then
        if |data| < 6 then Err(ShortRead) else Ok(ClientIntent(Be32(data[1..5]), data[5], data[6..]))
      else if op == OP_CLIENT_NAV then Ok(ClientNav(data[1..]))
      else if op == OP_HELLO then
        if |data| < 3 then Err(ShortRead) else Ok(Hello(data[1], data[2]))
      else if op == OP_CLIENT_HELLO then
        if |data| < 3 then Err(ShortRead) else Ok(ClientHello(data[1], data[2]))
      else if op == OP_AUTH_CHALLENGE then
        DecodeChallenge(data)
      else if op == OP_AUTH_RESULT then
        if |data| < 2 then Err(ShortRead) else Ok(AuthResult(data[1] == 1, data[2..]))
      else if op == OP_CLIENT_AUTH then DecodeClientAuth(data)
      else Err(UnknownOp)
  }

  /** The message of the first frame, and the bytes consumed (DecodeFrame). */
  function DecodeFrame(data: seq<byte>): (r: Result<(Msg, nat)>)
    ensures r.Ok? ==> 4 <= r.value.1 <= |data|
    decreases |data|, 1
  {
    if |data| < 4 then Err(ShortRead)
    else
      var n := Be32(data[..4]);
      if |data| < 4 + n then Err(ShortRead) else
      var m := Decode(data[4..4 + n]);
      if m.Err? then Err(m.error) else Ok((m.value, 4 + n))
  }

  /** The first `n` frames (decodeN). */
  function DecodeN(data: seq<byte>, n: nat): (r: Result<seq<Msg>>)
    ensures r.Ok? ==> |r.value| == n
    decreases |data|, 2, n
  {
    if n == 0 then Ok([])
    else
      var first := DecodeFrame(data);
      if first.Err? then Err(first.error) else
      var rest := DecodeN(data[first.value.1..], n - 1);
      if rest.Err? then rest else Ok([first.value.0] + rest.value)
  }

  /** Frames until the data ends or one fails to decode (DecodeAll). */
  function DecodeAll(data: seq<byte>): Outcome
    decreases |data|
  {
    if data == [] then Outcome([], DONE)
    else
      var first := DecodeFrame(data);
      if first.Err? then Outcome([], Err(first.error)) else
      var rest := DecodeAll(data[first.value.1..]);
      Outcome([first.value.0] + rest.msgs, rest.error)
  }

  /** The opcodes `Decode` has a case for; a batch needs it of all its parts. */
  predicate Decodable(m: Msg)
    decreases m
  {
    match m
    case InsertText(_, _, _) => false
    case InsertHTML(_, _) => false
    case ClearChildren(_) => false
    case SwapNodes(_, _) => false
    case BatchText(_) => false
    case Batch(children) => forall c | c in children :: Decodable(c)
    case _ => true
  }

  // ---------------------------------------------------------------- pieces

  lemma {:induction false} FindNullAfter(key: Str, value: Str)
    requires 0 !in key
    ensures TakePair(key + [0] + value) == Ok((key, value))
  {
    var data := key + [0] + value;
    var r := FindNull(data);
    assert data[|key|] == 0;
    assert data[..|key|] == key && data[|key| + 1..] == value;
  }

  lemma {:induction false} TakeFieldBack(s: Str, rest: seq<byte>)
    requires FitsField(s)
    ensures TakeField(Field(s) + rest) == Ok((s, rest))
  {
    var data := Field(s) + rest;
    Be16U16(|s|);
    assert data[..2] == U16(|s|);
    assert data[2..2 + |s|] == s && data[2 + |s|..] == rest;
  }

  lemma {:induction false} TakeAttrsBack(attrs: seq<(Str, Str)>)
    requires forall a | a in attrs :: FitsField(a.0) && FitsField(a.1)
    ensures TakeAttrs(EncodeAttrs(attrs), |attrs|) == Ok((attrs, []))
  {
    if attrs != [] {
      var (k, v) := attrs[0];
      assert attrs[0] in attrs;
      var tail := EncodeAttrs(attrs[1..]);
      TakeFieldBack(k, Field(v) + tail);
      TakeFieldBack(v, tail);
      assert forall a | a in attrs[1..] :: a in attrs;
      TakeAttrsBack(attrs[1..]);
      assert [(k, v)] + attrs[1..] == attrs;
    }
  }

  /** Opcode, node id and payload are found where the decoder looks for them. */
  lemma {:induction false} Header(op: byte, node: uint32, rest: seq<byte>)
    ensures var d := [op] + U32(node) + rest;
            |d| == 5 + |rest| && d[0] == op && Be32(d[1..5]) == node && d[5..] == rest
  {
    var d := [op] + U32(node) + rest;
    Be32U32(node);
    assert d[1..5] == U32(node);
  }

  lemma {:induction false} TakeTagBack(tag: Str, rest: seq<byte>)
    requires |tag| < 0x100
    ensures TakeTag([|tag|] + tag + rest) == Ok((tag, rest))
  {
    var data := [|tag|] + tag + rest;
    assert data[1..1 + |tag|] == tag && data[1 + |tag|..] == rest;
  }

  lemma {:induction false} TakeCountedBack(attrs: seq<(Str, Str)>)
    requires |attrs| < 0x1_0000
    requires forall a | a in attrs :: FitsField(a.0) && FitsField(a.1)
    ensures TakeCounted(U16(|attrs|) + EncodeAttrs(attrs)) == Ok(attrs)
  {
    hide U16, Be16, TakeAttrs, EncodeAttrs;
    var data := U16(|attrs|) + EncodeAttrs(attrs);
    Be16U16(|attrs|);
    TakeAttrsBack(attrs);
    assert data[..2] == U16(|attrs|) && data[2..] == EncodeAttrs(attrs);
  }

  /** Three 4-byte fields behind the opcode. */
  lemma {:induction false} Header3(op: byte, a: uint32, b: uint32, c: uint32, rest: seq<byte>)
    ensures var d := [op] + U32(a) + (U32(b) + (U32(c) + rest));
            && |d| == 13 + |rest| && d[0] == op
            && Be32(d[1..5]) == a && Be32(d[5..9]) == b && Be32(d[9..13]) == c && d[13..] == rest
  {
    hide U32, Be32;
    var d := [op] + U32(a) + (U32(b) + (U32(c) + rest));
    Be32U32(a);
    Be32U32(b);
    Be32U32(c);
    assert d[1..5] == U32(a) && d[5..9] == U32(b) && d[9..13] == U32(c);
  }

  lemma {:induction false} InsertBack(node: uint32, parent: uint32, sibling: uint32, tag: Str, attrs: seq<(Str, Str)>)
    requires |tag| < 0x100 && |attrs| < 0x1_0000
    requires forall a | a in attrs :: FitsField(a.0) && FitsField(a.1)
    ensures DecodeInsertNode([OP_INSERT_NODE] + U32(node)
              + (U32(parent) + (U32(sibling) + ([|tag|] + tag + (U16(|attrs|) + EncodeAttrs(attrs))))))
            == Ok(InsertNode(node, parent, sibling, tag, attrs))
  {
    hide TakeTag, TakeCounted, U32, Be32, U16, EncodeAttrs;
    Header3(OP_INSERT_NODE, node, parent, sibling, [|tag|] + tag + (U16(|attrs|) + EncodeAttrs(attrs)));
    TakeTagBack(tag, U16(|attrs|) + EncodeAttrs(attrs));
    TakeCountedBack(attrs);
  }

  lemma {:induction false} ClientAuthBack(a: Str, b: Str, c: Str, e: Str)
    requires FitsField(a) && FitsField(b) && FitsField(c) && FitsField(e)
    ensures DecodeClientAuth([OP_CLIENT_AUTH] + (Field(a) + (Field(b) + (Field(c) + Field(e)))))
            == Ok(ClientAuth(a, b, c, e))
  {
    hide TakeField, Field;
    var d := [OP_CLIENT_AUTH] + (Field(a) + (Field(b) + (Field(c) + Field(e))));
    assert d[1..] == Field(a) + (Field(b) + (Field(c) + Field(e)));
    TakeFieldBack(a, Field(b) + (Field(c) + Field(e)));
    TakeFieldBack(b, Field(c) + Field(e));
    TakeFieldBack(c, Field(e));
    assert Field(e) + [] == Field(e);
    TakeFieldBack(e, []);
  }

  lemma {:induction false} ChallengeBack(rpId: Str, challenge: Str)
    requires |rpId| < 0x100 && |challenge| == 32
    ensures DecodeChallenge([OP_AUTH_CHALLENGE] + ([|rpId|] + rpId + challenge)) == Ok(AuthChallenge(rpId, challenge))
  {
    var d := [OP_AUTH_CHALLENGE] + ([|rpId|] + rpId + challenge);
    assert d[2..2 + |rpId|] == rpId;
    assert d[2 + |rpId|..2 + |rpId| + 32] == challenge;
  }

  /** Opcodes whose body is the opcode, a node id and a payload. */
  predicate Addressed(m: Msg) {
    m.UpdateText? || m.SetAttr? || m.RemoveAttr? || m.RemoveNode? || m.SetStyle? || m.ReplaceText? || m.ClientIntent?
  }

  lemma {:induction false} AddressedBack(m: Msg)
    requires Addressed(m) && Fits(m)
    ensures Decode(Body(m)) == Ok(m)
  {
    hide U32, Be32, FindNull, TakePair, DecodeInsertNode, DecodeN, DecodeClientAuth, DecodeChallenge, TakeField;
    match m
    case UpdateText(node, text) => Header(OP_UPDATE_TEXT, node, text);
    case SetAttr(node, key, value) =>
      Header(OP_SET_ATTR, node, key + [0] + value);
      FindNullAfter(key, value);
    case SetStyle(node, key, value) =>
      Header(OP_SET_STYLE, node, key + [0] + value);
      FindNullAfter(key, value);
    case RemoveAttr(node, key) => Header(OP_REMOVE_ATTR, node, key);
    case RemoveNode(node) =>
      Header(OP_REMOVE_NODE, node, []);
      assert Body(m) == [OP_REMOVE_NODE] + U32(node) + [];
    case ReplaceText(node, offset, length, text) =>
      Header3(OP_REPLACE_TEXT, node, offset, length, text);
    case ClientIntent(node, event, payload) =>
      Header(OP_CLIENT_INTENT, node, [event] + payload);
      assert ([event] + payload)[1..] == payload;
      assert Body(m)[6..] == Body(m)[5..][1..];
  }

  lemma {:induction false} StructuredBack(m: Msg)
    requires (m.InsertNode? || m.ClientAuth? || m.AuthChallenge?) && Fits(m)
    ensures Decode(Body(m)) == Ok(m)
  {
    hide U32, U16, DecodeInsertNode, DecodeClientAuth, DecodeChallenge, Field, EncodeAttrs;
    match m
    case InsertNode(node, parent, sibling, tag, attrs) => InsertBack(node, parent, sibling, tag, attrs);
    case ClientAuth(a, b, c, e) => ClientAuthBack(a, b, c, e);
    case AuthChallenge(rpId, challenge) => ChallengeBack(rpId, challenge);
  }

  lemma {:induction false} UnaddressedBack(m: Msg)
    requires Decodable(m) && Fits(m) && !Addressed(m) && !m.Batch?
    requires !(m.InsertNode? || m.ClientAuth? || m.AuthChallenge?)
    ensures Decode(Body(m)) == Ok(m)
  {
    hide U32, Be32, Be16, FindNull, TakePair, TakeField, Field;
    var d := Body(m);
    match m
    case AuthResult(_, token) => assert d[2..] == token;
    case Error(text) =>
      assert d[1..] == Field(text) + [];
      TakeFieldBack(text, []);
    case DevToolsState(payload) =>
      Header(OP_DEVTOOLS_STATE, |payload|, payload);
      assert d[5..5 + |payload|] == d[5..];
    case PushHistory(text) => assert d[1..] == text;
    case ClientNav(text) => assert d[1..] == text;
    case Hello(_, _) =>
    case ClientHello(_, _) =>
  }

  // ------------------------------------------------------------ whole streams

  lemma {:induction false} FrameSplit(body: seq<byte>, rest: seq<byte>)
    requires |body| < 0x1_0000_0000
    ensures var d := Frame(body) + rest;
            |d| == 4 + |body| + |rest|
            && Be32(d[..4]) == |body| && d[4..4 + |body|] == body && d[4 + |body|..] == rest
  {
    var d := Frame(body) + rest;
    Be32U32(|body|);
    assert d[..4] == U32(|body|);
  }

  /** The first frame of a stream decodes to its message, whatever follows it. */
  lemma {:induction false} DecodeFrameBack(m: Msg, rest: seq<byte>)
    requires Decodable(m) && Fits(m)
    ensures DecodeFrame(Frame(Body(m)) + rest) == Ok((m, 4 + |Body(m)|))
    decreases m, 1
  {
    FrameSplit(Body(m), rest);
    DecodeBack(m);
  }

  lemma {:induction false} DecodeBack(m: Msg)
    requires Decodable(m) && Fits(m)
    ensures Decode(Body(m)) == Ok(m)
    decreases m, 0
  {
    if m.Batch? {
      var inner := EncodeAll(m.children);
      CountFramesOf(m.children);
      DecodeNBack(m.children);
      CountIsSmall(m.children);
      Header(OP_BATCH, |m.children|, inner);
    } else if Addressed(m) {
      AddressedBack(m);
    } else if m.InsertNode? || m.ClientAuth? || m.AuthChallenge? {
      StructuredBack(m);
    } else {
      UnaddressedBack(m);
    }
  }

  /** Decoding the first frame of a stream leaves the encoding of the rest. */
  lemma {:induction false} FirstOf(msgs: seq<Msg>)
    requires msgs != [] && Decodable(msgs[0]) && Fits(msgs[0])
    ensures DecodeFrame(EncodeAll(msgs)) == Ok((msgs[0], 4 + |Body(msgs[0])|))
    ensures |EncodeAll(msgs)| == 4 + |Body(msgs[0])| + |EncodeAll(msgs[1..])|
    ensures EncodeAll(msgs)[4 + |Body(msgs[0])|..] == EncodeAll(msgs[1..])
    decreases msgs, 0
  {
    hide Frame, DecodeFrame, Decodable, Be32;
    DecodeFrameBack(msgs[0], EncodeAll(msgs[1..]));
    FrameSplit(Body(msgs[0]), EncodeAll(msgs[1..]));
  }

  /** The count-driven decoder reads back a batch body. */
  lemma {:induction false} DecodeNBack(msgs: seq<Msg>)
    requires forall m | m in msgs :: Decodable(m) && Fits(m)
    ensures DecodeN(EncodeAll(msgs), |msgs|) == Ok(msgs)
    decreases msgs, 1
  {
    hide DecodeFrame, Decodable, Fits, EncodeAll;
    if msgs != [] {
      assert msgs[0] in msgs;
      FirstOf(msgs);
      assert forall m | m in msgs[1..] :: m in msgs;
      DecodeNBack(msgs[1..]);
      assert [msgs[0]] + msgs[1..] == msgs;
    }
  }

  /** The walk over length prefixes counts exactly the frames written. */
  lemma {:induction false} CountFramesOf(msgs: seq<Msg>)
    requires AllFit(msgs)
    ensures CountFrames(EncodeAll(msgs)) == |msgs|
    decreases msgs
  {
    if msgs != [] {
      assert msgs[0] in msgs;
      FrameSplit(Body(msgs[0]), EncodeAll(msgs[1..]));
      assert forall m | m in msgs[1..] :: m in msgs;
      CountFramesOf(msgs[1..]);
    }
  }

  lemma {:induction false} CountIsSmall(msgs: seq<Msg>)
    ensures |msgs| <= |EncodeAll(msgs)|
    decreases msgs
  {
    if msgs != [] {
      CountIsSmall(msgs[1..]);
    }
  }

  /**
   Round trip: the bytes written for a list of messages, batches nested to any
   depth, decode to that list with nothing left over and no error.
   */
  lemma {:induction false} RoundTrip(msgs: seq<Msg>)
    requires forall m | m in msgs :: Decodable(m) && Fits(m)
    ensures DecodeAll(EncodeAll(msgs)) == Outcome(msgs, DONE)
    decreases msgs
  {
    hide DecodeFrame, Decodable, Fits, Body;
    if msgs != [] {
      assert msgs[0] in msgs;
      FirstOf(msgs);
      assert forall m | m in msgs[1..] :: m in msgs;
      RoundTrip(msgs[1..]);
      assert [msgs[0]] + msgs[1..] == msgs;
    }
  }
}
