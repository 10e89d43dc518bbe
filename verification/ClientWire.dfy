/**
 How the client cuts the byte stream into frames and reads them
 (applyOpcodes and applyFrame in pkg/wasm/patch.go): by length prefixes alone,
 ignoring batch counts.
 */
module ClientWire {
  import opened Wire
  import opened Codec
  import D = Dom

  /** The bodies of the frames that lie whole within `data`. */
  function WholeFrames(data: seq<byte>): seq<seq<byte>>
    decreases |data|
  {
    if |data| < 4 then []
    else
      var n: int := Be32(data[..4]);
      if 4 + n > |data| then [] else [data[4..4 + n]] + WholeFrames(data[4 + n..])
  }

  /** The text updates that lie whole within the frame, `n` at most. */
  function TakeUpdates(data: seq<byte>, n: nat): seq<(uint32, Str)>
    decreases n
  {
    if n == 0 || |data| < 6 then []
    else
      var len := Be16(data[4..6]);
      if 6 + len > |data| then []
      else [(Be32(data[..4]), data[6..6 + len])] + TakeUpdates(data[6 + len..], n - 1)
  }

  /** The instruction in one frame body; frames that are too short or do not touch the tree give none. */
  function ParseFrame(data: seq<byte>): D.Option<Msg>
    decreases |data|, 0
  {
    if |data| < 1 then D.None
    else
      var op := data[0];
      if op in {OP_UPDATE_TEXT, OP_SET_ATTR, OP_REMOVE_ATTR, OP_INSERT_NODE, OP_REMOVE_NODE, OP_SET_STYLE} then
        var m := Decode(data);
        if m.Ok? then D.Some(m.value) else D.None
      else if op == OP_INSERT_TEXT then
        if |data| < 9 then D.None else D.Some(InsertText(Be32(data[1..5]), Be32(data[5..9]), data[9..]))
      else if op == OP_INSERT_HTML then
        if |data| < 5 then D.None else D.Some(InsertHTML(Be32(data[1..5]), data[5..]))
      else if op == OP_CLEAR_CHILDREN then
        if |data| < 5 then D.None else D.Some(ClearChildren(Be32(data[1..5])))
      else if op == OP_SWAP_NODES then
        if |data| < 9 then D.None else D.Some(SwapNodes(Be32(data[1..5]), Be32(data[5..9])))
      else if op == OP_BATCH_TEXT then
        if |data| < 3 then D.None else D.Some(BatchText(TakeUpdates(data[3..], Be16(data[1..3]))))
      else if op == OP_BATCH then
        if |data| < 5 then D.None else D.Some(Batch(ParseStream(data[5..])))
      else D.None
  }

  /** The instructions `applyOpcodes` carries out. */
  function ParseStream(data: seq<byte>): seq<Msg>
    decreases |data|, 1
  {
    if |data| < 4 then []
    else
      var n: int := Be32(data[..4]);
      if 4 + n > |data| then []
      else
        var m := ParseFrame(data[4..4 + n]);
        (if m.Some? then [m.value] else []) + ParseStream(data[4 + n..])
  }

  // ------------------------------------------------------- the frame walkers

  function Bodies(msgs: seq<Msg>): seq<seq<byte>> {
    if msgs == [] then [] else [Body(msgs[0])] + Bodies(msgs[1..])
  }

  /** On a complete stream the client sees the frames that were written. */
  lemma {:induction false} WholeStream(msgs: seq<Msg>)
    requires AllFit(msgs)
    ensures WholeFrames(EncodeAll(msgs)) == Bodies(msgs)
    decreases msgs
  {
    hide Body, Frame, Be32;
    if msgs != [] {
      assert msgs[0] in msgs;
      FrameSplit(Body(msgs[0]), EncodeAll(msgs[1..]));
      assert forall m | m in msgs[1..] :: m in msgs;
      WholeStream(msgs[1..]);
    }
  }

  /** How many whole frames fit into the first `size` bytes. */
  function Fitting(msgs: seq<Msg>, size: nat): (n: nat)
    ensures n <= |msgs|
    decreases msgs
  {
    if msgs == [] || 4 + |Body(msgs[0])| > size then 0
    else 1 + Fitting(msgs[1..], size - 4 - |Body(msgs[0])|)
  }

  /** `Fitting` is the largest number of leading frames whose bytes are all there. */
  lemma {:induction false} FittingIsLargest(msgs: seq<Msg>, size: nat, k: nat)
    requires k <= |msgs|
    ensures |EncodeAll(msgs[..k])| <= size <==> k <= Fitting(msgs, size)
    decreases msgs
  {
    hide Body, Frame;
    if k > 0 {
      assert msgs[..k][0] == msgs[0] && msgs[..k][1..] == msgs[1..][..k - 1];
      assert |EncodeAll(msgs[..k])| == 4 + |Body(msgs[0])| + |EncodeAll(msgs[1..][..k - 1])|;
      if 4 + |Body(msgs[0])| <= size {
        FittingIsLargest(msgs[1..], size - 4 - |Body(msgs[0])|, k - 1);
      }
    }
  }

  /** A stream cut off anywhere shows the client exactly the whole frames that fit. */
  lemma {:induction false} TruncatedStream(msgs: seq<Msg>, size: nat)
    requires AllFit(msgs) && size <= |EncodeAll(msgs)|
    ensures WholeFrames(EncodeAll(msgs)[..size]) == Bodies(msgs[..Fitting(msgs, size)])
    decreases msgs
  {
    hide Body, Frame, Be32;
    if msgs != [] {
      assert msgs[0] in msgs;
      var body, rest := Body(msgs[0]), EncodeAll(msgs[1..]);
      var data := EncodeAll(msgs);
      FrameSplit(body, rest);
      if 4 <= size {
        assert data[..size][..4] == data[..4];
      }
      if 4 + |body| <= size {
        var k := size - 4 - |body|;
        assert data[..size][4..4 + |body|] == data[4..4 + |body|];
        assert data[..size][4 + |body|..] == rest[..k];
        assert forall m | m in msgs[1..] :: m in msgs;
        TruncatedStream(msgs[1..], k);
        var n := Fitting(msgs[1..], k);
        assert msgs[..n + 1][0] == msgs[0] && msgs[..n + 1][1..] == msgs[1..][..n];
      }
    }
  }

  /**
   On a stream cut off anywhere the decoder gives the messages that fit whole, and an
   error unless the cut is at a frame's end.
   */
  lemma {:induction false} TruncatedDecoded(msgs: seq<Msg>, size: nat)
    requires (forall m | m in msgs :: Decodable(m) && Fits(m)) && size <= |EncodeAll(msgs)|
    ensures var n := Fitting(msgs, size);
            DecodeAll(EncodeAll(msgs)[..size])
            == Outcome(msgs[..n], if |EncodeAll(msgs[..n])| == size then DONE else Err(ShortRead))
    decreases msgs
  {
    hide *;
    if size == 0 {
      NoneFits(msgs);
    } else if msgs != [] {
      assert msgs[0] in msgs;
      if 4 + |Body(msgs[0])| <= size {
        FirstCut(msgs, size);
        assert forall m | m in msgs[1..] :: m in msgs;
        TruncatedDecoded(msgs[1..], size - 4 - |Body(msgs[0])|);
        FirstFits(msgs, size);
        DecodesOn(EncodeAll(msgs)[..size], msgs[0], 4 + |Body(msgs[0])|);
      } else {
        CutFrame(msgs, size);
        CutFits(msgs, size);
      }
    } else {
      NoneFits(msgs);
    }
  }

  lemma DecodesOn(data: seq<byte>, m: Msg, n: nat)
    requires data != [] && DecodeFrame(data) == Ok((m, n))
    ensures n <= |data|
    ensures DecodeAll(data) == Outcome([m] + DecodeAll(data[n..]).msgs, DecodeAll(data[n..]).error)
  {
    hide DecodeFrame;
  }

  lemma CutFits(msgs: seq<Msg>, size: nat)
    requires msgs != [] && 0 < size < 4 + |Body(msgs[0])| && size <= |EncodeAll(msgs)|
    requires DecodeFrame(EncodeAll(msgs)[..size]) == Err(ShortRead)
    ensures Fitting(msgs, size) == 0 && msgs[..0] == [] && EncodeAll([]) == []
    ensures DecodeAll(EncodeAll(msgs)[..size]) == Outcome([], Err(ShortRead))
  {
    hide Body, DecodeFrame;
  }

  lemma NoneFits(msgs: seq<Msg>)
    ensures Fitting(msgs, 0) == 0 && msgs[..0] == [] && EncodeAll([]) == [] && DecodeAll([]) == Outcome([], DONE)
    ensures EncodeAll(msgs)[..0] == []
  {
  }

  /** The first frame is whole: it decodes, and the rest is the rest cut off. */
  lemma {:induction false} FirstCut(msgs: seq<Msg>, size: nat)
    requires msgs != [] && Decodable(msgs[0]) && Fits(msgs[0])
    requires 4 + |Body(msgs[0])| <= size <= |EncodeAll(msgs)|
    ensures var n := 4 + |Body(msgs[0])|;
            && |EncodeAll(msgs)| == n + |EncodeAll(msgs[1..])|
            && DecodeFrame(EncodeAll(msgs)[..size]) == Ok((msgs[0], n))
            && EncodeAll(msgs)[..size][n..] == EncodeAll(msgs[1..])[..size - n]
  {
    hide DecodeFrame, Decodable, Fits;
    var k := WholeFirst(msgs, size);
    DecodeFrameBack(msgs[0], EncodeAll(msgs[1..])[..k]);
    hide Body, Frame, EncodeAll;
  }

  lemma {:induction false} FirstFits(msgs: seq<Msg>, size: nat)
    requires msgs != [] && 4 + |Body(msgs[0])| <= size
    ensures var k := size - 4 - |Body(msgs[0])|;
            var n := Fitting(msgs[1..], k);
            && Fitting(msgs, size) == n + 1 && msgs[..n + 1] == [msgs[0]] + msgs[1..][..n]
            && |EncodeAll(msgs[..n + 1])| == 4 + |Body(msgs[0])| + |EncodeAll(msgs[1..][..n])|
  {
    var n := Fitting(msgs[1..], size - 4 - |Body(msgs[0])|);
    assert msgs[..n + 1][0] == msgs[0] && msgs[..n + 1][1..] == msgs[1..][..n];
  }

  /** The first frame is cut: nothing is decoded. */
  lemma {:induction false} CutFrame(msgs: seq<Msg>, size: nat)
    requires msgs != [] && Fits(msgs[0]) && 0 < size < 4 + |Body(msgs[0])|
    ensures size <= |EncodeAll(msgs)|
    ensures DecodeFrame(EncodeAll(msgs)[..size]) == Err(ShortRead)
  {
    var body, rest := Body(msgs[0]), EncodeAll(msgs[1..]);
    FrameSplit(body, rest);
    var data := EncodeAll(msgs)[..size];
    hide Body, Frame, Be32, Decode, EncodeAll;
    if 4 <= size {
      assert data[..4] == EncodeAll(msgs)[..4];
    }
  }

  /** The encoder's count takes a frame for one as soon as its length prefix is there. */
  lemma {:induction false} TruncatedCount(msgs: seq<Msg>, size: nat)
    requires AllFit(msgs) && size <= |EncodeAll(msgs)|
    ensures var n := Fitting(msgs, size);
            CountFrames(EncodeAll(msgs)[..size]) == if size < |EncodeAll(msgs[..n])| + 4 then n else n + 1
    decreases msgs
  {
    hide Body, Frame, Be32;
    if msgs != [] {
      assert msgs[0] in msgs;
      var body, rest := Body(msgs[0]), EncodeAll(msgs[1..]);
      var data := EncodeAll(msgs);
      FrameSplit(body, rest);
      if 4 <= size {
        assert data[..size][..4] == data[..4];
      }
      if 4 + |body| <= size {
        var k := size - 4 - |body|;
        assert data[..size][4 + |body|..] == rest[..k];
        assert forall m | m in msgs[1..] :: m in msgs;
        TruncatedCount(msgs[1..], k);
        FirstFits(msgs, size);
      } else {
        assert msgs[..0] == [];
      }
    }
  }

  /**
   All walkers find the same frames in a written stream: the encoder's count,
   the count-driven and the length-driven decoder, and the client.
   */
  lemma {:induction false} WalkersAgree(msgs: seq<Msg>)
    requires AllFit(msgs)
    ensures |WholeFrames(EncodeAll(msgs))| == CountFrames(EncodeAll(msgs)) == |msgs|
    ensures (forall m | m in msgs :: Decodable(m)) ==>
              && DecodeN(EncodeAll(msgs), CountFrames(EncodeAll(msgs))) == Ok(msgs)
              && DecodeAll(EncodeAll(msgs)) == Outcome(msgs, DONE)
              && WholeFrames(EncodeAll(msgs)) == Bodies(msgs)
  {
    hide Body, Decodable, WholeFrames, DecodeN, DecodeAll, CountFrames, EncodeAll;
    WholeStream(msgs);
    CountFramesOf(msgs);
    BodiesLength(msgs);
    if forall m | m in msgs :: Decodable(m) {
      DecodeNBack(msgs);
      RoundTrip(msgs);
    }
  }

  lemma {:induction false} BodiesLength(msgs: seq<Msg>)
    ensures |Bodies(msgs)| == |msgs|
    decreases msgs
  {
    hide Body;
    if msgs != [] {
      BodiesLength(msgs[1..]);
    }
  }

  // -------------------------------------------------- reading back what was sent

  /** The instructions the client acts on. */
  predicate ForClient(m: Msg)
    decreases m
  {
    match m
    case UpdateText(_, _) => true
    case SetAttr(_, _, _) => true
    case RemoveAttr(_, _) => true
    case InsertNode(_, _, _, _, _) => true
    case RemoveNode(_) => true
    case SetStyle(_, _, _) => true
    case InsertText(_, _, _) => true
    case InsertHTML(_, _) => true
    case ClearChildren(_) => true
    case SwapNodes(_, _) => true
    case BatchText(_) => true
    case Batch(children) => forall c | c in children :: ForClient(c)
    case _ => false
  }

  lemma {:induction false} UpdateSplit(id: uint32, text: Str, rest: seq<byte>)
    requires FitsField(text)
    ensures var d := U32(id) + (Field(text) + rest);
            && |d| == 6 + |text| + |rest|
            && Be32(d[..4]) == id && Be16(d[4..6]) == |text|
            && d[6..6 + |text|] == text && d[6 + |text|..] == rest
  {
    hide U32, Be32, U16, Be16;
    Be32U32(id);
    Be16U16(|text|);
    var d := U32(id) + (Field(text) + rest);
    assert d[..4] == U32(id) && d[4..6] == U16(|text|);
  }

  lemma {:induction false} TakeUpdatesBack(updates: seq<(uint32, Str)>)
    requires forall u | u in updates :: FitsField(u.1)
    ensures TakeUpdates(EncodeUpdates(updates), |updates|) == updates
    decreases updates
  {
    hide U32, Be32, U16, Be16, Field;
    if updates != [] {
      assert updates[0] in updates;
      UpdateSplit(updates[0].0, updates[0].1, EncodeUpdates(updates[1..]));
      assert forall u | u in updates[1..] :: u in updates;
      TakeUpdatesBack(updates[1..]);
      assert [(updates[0].0, updates[0].1)] + updates[1..] == updates;
    }
  }

  /** How many whole updates fit into the first `size` bytes. */
  function FittingTexts(updates: seq<(uint32, Str)>, size: nat): (n: nat)
    ensures n <= |updates|
    decreases updates
  {
    if updates == [] || 6 + |updates[0].1| > size then 0
    else 1 + FittingTexts(updates[1..], size - 6 - |updates[0].1|)
  }

  /** Text updates cut off anywhere: the whole ones are carried out, but no more than announced. */
  lemma {:induction false} TruncatedTexts(updates: seq<(uint32, Str)>, size: nat, n: nat)
    requires (forall u | u in updates :: FitsField(u.1)) && size <= |EncodeUpdates(updates)|
    ensures var fit := FittingTexts(updates, size);
            TakeUpdates(EncodeUpdates(updates)[..size], n) == updates[..if n < fit then n else fit]
    decreases updates
  {
    hide EncodeUpdates, TakeUpdates;
    if updates == [] || n == 0 {
      NothingTaken(updates, size, n);
    } else {
      assert updates[0] in updates;
      FirstTaken(updates, size, n);
      if 6 + |updates[0].1| <= size {
        var k := size - 6 - |updates[0].1|;
        assert forall u | u in updates[1..] :: u in updates;
        TruncatedTexts(updates[1..], k, n - 1);
        var fit := FittingTexts(updates[1..], k);
        var m := if n - 1 < fit then n - 1 else fit;
        assert updates[..m + 1] == [updates[0]] + updates[1..][..m];
      }
    }
  }

  lemma NothingTaken(updates: seq<(uint32, Str)>, size: nat, n: nat)
    requires (updates == [] || n == 0) && size <= |EncodeUpdates(updates)|
    ensures TakeUpdates(EncodeUpdates(updates)[..size], n) == []
  {
  }

  lemma {:induction false} FirstTaken(updates: seq<(uint32, Str)>, size: nat, n: nat)
    requires updates != [] && FitsField(updates[0].1) && size <= |EncodeUpdates(updates)| && n > 0
    ensures var data, len := EncodeUpdates(updates)[..size], |updates[0].1|;
            if 6 + len > size then TakeUpdates(data, n) == []
            else
              && size - 6 - len <= |EncodeUpdates(updates[1..])|
              && TakeUpdates(data, n)
                 == [updates[0]] + TakeUpdates(EncodeUpdates(updates[1..])[..size - 6 - len], n - 1)
  {
    var (id, text) := updates[0];
    var rest := EncodeUpdates(updates[1..]);
    UpdateSplit(id, text, rest);
    assert EncodeUpdates(updates) == U32(id) + (Field(text) + rest);
    hide U32, Be32, U16, Be16, Field, EncodeUpdates;
    CutTaken(U32(id) + (Field(text) + rest), id, text, rest, size, n);
  }

  lemma {:induction false} CutTaken(whole: seq<byte>, id: uint32, text: Str, rest: seq<byte>, size: nat, n: nat)
    requires size <= |whole| && n > 0 && |whole| == 6 + |text| + |rest|
    requires Be32(whole[..4]) == id && Be16(whole[4..6]) == |text|
    requires whole[6..6 + |text|] == text && whole[6 + |text|..] == rest
    ensures var data, len := whole[..size], |text|;
            if 6 + len > size then TakeUpdates(data, n) == []
            else TakeUpdates(data, n) == [(id, text)] + TakeUpdates(rest[..size - 6 - len], n - 1)
  {
    hide Be32, Be16;
    var data := whole[..size];
    if 6 <= size {
      CutHead(whole, size);
      if 6 + |text| <= size {
        CutTail(whole, text, rest, size);
      }
    }
  }

  lemma CutHead(whole: seq<byte>, size: nat)
    requires 6 <= size <= |whole|
    ensures whole[..size][..4] == whole[..4] && whole[..size][4..6] == whole[4..6]
  {
  }

  lemma CutTail(whole: seq<byte>, text: Str, rest: seq<byte>, size: nat)
    requires 6 + |text| <= size <= |whole| && whole[6..6 + |text|] == text && whole[6 + |text|..] == rest
    ensures whole[..size][6..6 + |text|] == text && whole[..size][6 + |text|..] == rest[..size - 6 - |text|]
  {
    assert whole[..size][6..6 + |text|] == whole[6..6 + |text|];
  }

  lemma {:induction false} ParseTwoIds(m: Msg)
    requires m.InsertText? || m.SwapNodes? || m.ClearChildren? || m.InsertHTML?
    ensures ParseFrame(Body(m)) == D.Some(m)
  {
    hide U32, Be32;
    var d := Body(m);
    match m
    case InsertText(node, parent, text) =>
      Header(OP_INSERT_TEXT, node, U32(parent) + text);
      Be32U32(parent);
      assert d[5..9] == U32(parent) && d[9..] == text;
    case SwapNodes(a, b) =>
      Header(OP_SWAP_NODES, a, U32(b));
      Be32U32(b);
      assert d[5..9] == U32(b);
    case ClearChildren(parent) =>
      assert d == [OP_CLEAR_CHILDREN] + U32(parent) + [];
      Header(OP_CLEAR_CHILDREN, parent, []);
    case InsertHTML(parent, html) =>
      Header(OP_INSERT_HTML, parent, html);
  }

  lemma {:induction false} ParseBatchText(m: Msg)
    requires m.BatchText? && Fits(m)
    ensures ParseFrame(Body(m)) == D.Some(m)
  {
    hide U16, Be16, TakeUpdates, EncodeUpdates;
    var d := Body(m);
    Be16U16(|m.updates|);
    assert d[1..3] == U16(|m.updates|) && d[3..] == EncodeUpdates(m.updates);
    TakeUpdatesBack(m.updates);
  }

  lemma {:induction false} ParseShared(m: Msg)
    requires m.InsertNode? || (Addressed(m) && !m.ReplaceText? && !m.ClientIntent?)
    requires Fits(m)
    ensures ParseFrame(Body(m)) == D.Some(m)
  {
    hide Decode, U32, U16, EncodeAttrs;
    if m.InsertNode? {
      StructuredBack(m);
    } else {
      AddressedBack(m);
    }
  }

  lemma {:induction false} ParseBack(m: Msg)
    requires ForClient(m) && Fits(m)
    ensures ParseFrame(Body(m)) == D.Some(m)
    decreases m, 1
  {
    if m.Batch? {
      var inner := EncodeAll(m.children);
      ParseStreamBack(m.children);
      CountFramesOf(m.children);
      hide U32, Be32, EncodeAll, ParseStream;
      Header(OP_BATCH, CountFrames(inner) % 0x1_0000_0000, inner);
      assert Body(m)[5..] == inner by {
        assert |[OP_BATCH] + U32(CountFrames(inner))| == 5;
      }
    } else if m.BatchText? {
      ParseBatchText(m);
    } else if m.InsertText? || m.SwapNodes? || m.ClearChildren? || m.InsertHTML? {
      ParseTwoIds(m);
    } else {
      ParseShared(m);
    }
  }

  /** The client carries out exactly the instructions that were written, in order. */
  lemma {:induction false} ParseStreamBack(msgs: seq<Msg>)
    requires forall m | m in msgs :: ForClient(m) && Fits(m)
    ensures ParseStream(EncodeAll(msgs)) == msgs
    decreases msgs, 0
  {
    hide Body, Frame, Be32, ParseFrame, ForClient;
    if msgs != [] {
      assert msgs[0] in msgs;
      FrameSplit(Body(msgs[0]), EncodeAll(msgs[1..]));
      ParseBack(msgs[0]);
      assert forall m | m in msgs[1..] :: m in msgs;
      ParseStreamBack(msgs[1..]);
      assert [msgs[0]] + msgs[1..] == msgs;
    }
  }

  // --------------------------------------------- anything written, cut off anywhere

  /** The kinds of instruction the client has nothing to do for in the tree. */
  predicate Elsewhere(m: Msg) {
    m.Hello? || m.ReplaceText? || m.PushHistory? || m.Error? || m.DevToolsState? || m.AuthChallenge? || m.AuthResult?
    || m.ClientIntent? || m.ClientNav? || m.ClientHello? || m.ClientAuth?
  }

  /** The instructions among `msgs` that the client acts on, in order. */
  function Acted(msgs: seq<Msg>): seq<Msg> {
    if msgs == [] then [] else (if ForClient(msgs[0]) then [msgs[0]] else []) + Acted(msgs[1..])
  }

  lemma {:induction false} ParseElsewhere(m: Msg)
    requires Elsewhere(m)
    ensures ParseFrame(Body(m)) == D.None && !ForClient(m)
  {
    hide U32, U16, Be32, Be16, Decode, TakeUpdates, ParseStream, Field;
  }

  lemma {:induction false} ParseAny(m: Msg)
    requires Fits(m) && (ForClient(m) || Elsewhere(m))
    ensures ParseFrame(Body(m)) == if ForClient(m) then D.Some(m) else D.None
  {
    if Elsewhere(m) {
      ParseElsewhere(m);
    } else {
      ParseBack(m);
    }
  }

  /**
   Of any written stream, cut off anywhere, the client carries out exactly those of
   its instructions that are there whole, in order; what it does not know it skips.
   */
  lemma {:induction false} TruncatedParsed(msgs: seq<Msg>, size: nat)
    requires (forall m | m in msgs :: Fits(m) && (ForClient(m) || Elsewhere(m))) && size <= |EncodeAll(msgs)|
    ensures ParseStream(EncodeAll(msgs)[..size]) == Acted(msgs[..Fitting(msgs, size)])
    decreases msgs
  {
    if msgs == [] {
      NothingParsed();
    } else {
      assert msgs[0] in msgs;
      hide *;
      if 4 + |Body(msgs[0])| <= size {
        ParseAny(msgs[0]);
        FirstParsed(msgs, size);
        assert forall m | m in msgs[1..] :: m in msgs;
        TruncatedParsed(msgs[1..], size - 4 - |Body(msgs[0])|);
        FirstActed(msgs, size);
      } else {
        CutParsed(msgs, size);
      }
    }
  }

  lemma NothingParsed()
    ensures |EncodeAll([])| == 0 && ParseStream([]) == Acted([]) == [] && Fitting([], 0) == 0
  {
  }

  lemma FirstActed(msgs: seq<Msg>, size: nat)
    requires msgs != [] && 4 + |Body(msgs[0])| <= size
    ensures var n := Fitting(msgs[1..], size - 4 - |Body(msgs[0])|);
            && Fitting(msgs, size) == n + 1
            && Acted(msgs[..n + 1]) == (if ForClient(msgs[0]) then [msgs[0]] else []) + Acted(msgs[1..][..n])
  {
    hide Body, ForClient;
    var n := Fitting(msgs[1..], size - 4 - |Body(msgs[0])|);
    assert msgs[..n + 1][0] == msgs[0] && msgs[..n + 1][1..] == msgs[1..][..n];
  }

  lemma {:induction false} FirstParsed(msgs: seq<Msg>, size: nat)
    requires msgs != [] && Fits(msgs[0]) && 4 + |Body(msgs[0])| <= size <= |EncodeAll(msgs)|
    ensures var k, m := size - 4 - |Body(msgs[0])|, ParseFrame(Body(msgs[0]));
            && k <= |EncodeAll(msgs[1..])|
            && ParseStream(EncodeAll(msgs)[..size])
               == (if m.Some? then [m.value] else []) + ParseStream(EncodeAll(msgs[1..])[..k])
  {
    var k := WholeFirst(msgs, size);
    FrameParsed(Body(msgs[0]), EncodeAll(msgs[1..])[..k]);
    hide *;
  }

  lemma {:induction false} FrameParsed(body: seq<byte>, rest: seq<byte>)
    requires |body| < 0x1_0000_0000
    ensures var m := ParseFrame(body);
            ParseStream(Frame(body) + rest) == (if m.Some? then [m.value] else []) + ParseStream(rest)
  {
    FrameSplit(body, rest);
    hide Frame, Be32, ParseFrame;
  }

  /** A cut behind the first frame leaves that frame and the rest cut off. */
  lemma {:induction false} WholeFirst(msgs: seq<Msg>, size: nat) returns (k: nat)
    requires msgs != [] && 4 + |Body(msgs[0])| <= size <= |EncodeAll(msgs)|
    ensures k == size - 4 - |Body(msgs[0])| <= |EncodeAll(msgs[1..])|
    ensures |EncodeAll(msgs)| == 4 + |Body(msgs[0])| + |EncodeAll(msgs[1..])|
    ensures EncodeAll(msgs)[..size] == Frame(Body(msgs[0])) + EncodeAll(msgs[1..])[..k]
  {
    hide Body, Frame;
    k := size - 4 - |Body(msgs[0])|;
    assert EncodeAll(msgs) == Frame(Body(msgs[0])) + EncodeAll(msgs[1..]);
  }

  lemma {:induction false} CutParsed(msgs: seq<Msg>, size: nat)
    requires msgs != [] && Fits(msgs[0]) && size < 4 + |Body(msgs[0])| && size <= |EncodeAll(msgs)|
    ensures ParseStream(EncodeAll(msgs)[..size]) == Acted(msgs[..Fitting(msgs, size)]) == []
  {
    FrameSplit(Body(msgs[0]), EncodeAll(msgs[1..]));
    var whole := EncodeAll(msgs);
    assert size >= 4 ==> whole[..size][..4] == whole[..4];
    assert msgs[..0] == [];
    hide Body, Frame, Be32, ParseFrame, EncodeAll, Fits;
  }

  /** A batch is read by the lengths of its frames, whatever number of them it announces. */
  lemma CountIgnored(data: seq<byte>)
    requires |data| >= 5 && data[0] == 9
    ensures ParseFrame(data) == D.Some(Batch(ParseStream(data[5..])))
  {
    hide Be32, Be16, Decode, TakeUpdates, ParseStream;
  }
}
