module Layout {
  // The wire format (pkg/protocol/opcodes.go) by opcode number and offset, apart
  // from the code that writes and reads it: encoder, decoder and client agree with it.

  import opened Wire
  import opened Codec
  import opened ClientWire
  import D = Dom

  /** An opcode, and a number in the four bytes after it. */
  ghost predicate Starts(data: seq<byte>, op: int, n: nat) {
    |data| >= 5 && data[0] == op && Number(data[1..5]) == n
  }

  /** A string behind its length in two bytes. */
  ghost predicate FieldAt(data: seq<byte>, s: Str) {
    2 + |s| <= |data| && Number(data[..2]) == |s| && data[2..2 + |s|] == s
  }

  /** Keys and values, one after the other. */
  ghost predicate PairsAt(data: seq<byte>, attrs: seq<(Str, Str)>)
    decreases attrs
  {
    attrs == [] ||
    (var (k, v) := attrs[0];
     && FieldAt(data, k) && FieldAt(data[2 + |k|..], v) && PairsAt(data[2 + |k|..][2 + |v|..], attrs[1..]))
  }

  /** Node ids in four bytes, each with its text behind it. */
  ghost predicate UpdatesAt(data: seq<byte>, updates: seq<(uint32, Str)>)
    decreases updates
  {
    updates == [] ||
    (var (node, text) := updates[0];
     && |data| >= 4 && Number(data[..4]) == node && FieldAt(data[4..], text)
     && UpdatesAt(data[6 + |text|..], updates[1..]))
  }

  /** `data` holds `m`. What follows the last field of fixed length does not matter. */
  ghost predicate Holds(data: seq<byte>, m: Msg)
    decreases m, 0
  {
    match m
    case Hello(major, minor) => |data| >= 3 && data[..3] == [0, major, minor]
    case UpdateText(node, text) => Starts(data, 1, node) && data[5..] == text
    case SetAttr(node, key, value) => Starts(data, 2, node) && 0 !in key && data[5..] == key + [0] + value
    case RemoveAttr(node, key) => Starts(data, 3, node) && data[5..] == key
    case InsertNode(node, parent, sibling, tag, attrs) =>
      && Starts(data, 4, node) && |data| >= 16 + |tag|
      && Number(data[5..9]) == parent && Number(data[9..13]) == sibling
      && data[13] == |tag| && data[14..14 + |tag|] == tag
      && Number(data[14 + |tag|..16 + |tag|]) == |attrs| && PairsAt(data[16 + |tag|..], attrs)
    case RemoveNode(node) => Starts(data, 5, node)
    case ReplaceText(node, offset, length, text) =>
      && Starts(data, 6, node) && |data| >= 13
      && Number(data[5..9]) == offset && Number(data[9..13]) == length && data[13..] == text
    case SetStyle(node, key, value) => Starts(data, 7, node) && 0 !in key && data[5..] == key + [0] + value
    case PushHistory(text) => |data| >= 1 && data[0] == 8 && data[1..] == text
    case Batch(children) => Starts(data, 9, |children|) && FramesAt(data[5..], children)
    case Error(text) => |data| >= 1 && data[0] == 10 && FieldAt(data[1..], text)
    case DevToolsState(payload) =>
      Starts(data, 11, |payload|) && |data| >= 5 + |payload| && data[5..5 + |payload|] == payload
    case AuthChallenge(rpId, challenge) =>
      && |data| >= 34 + |rpId| && data[0] == 12 && data[1] == |rpId|
      && data[2..2 + |rpId|] == rpId && data[2 + |rpId|..34 + |rpId|] == challenge
    case AuthResult(success, token) => |data| >= 2 && data[0] == 13 && (data[1] == 1 <==> success) && data[2..] == token
    case InsertText(node, parent, text) =>
      Starts(data, 14, node) && |data| >= 9 && Number(data[5..9]) == parent && data[9..] == text
    case InsertHTML(parent, html) => Starts(data, 15, parent) && data[5..] == html
    case ClientIntent(node, event, payload) =>
      Starts(data, 16, node) && |data| >= 6 && data[5] == event && data[6..] == payload
    case ClientNav(text) => |data| >= 1 && data[0] == 17 && data[1..] == text
    case ClientHello(major, minor) => |data| >= 3 && data[..3] == [18, major, minor]
    case ClientAuth(a, b, c, d) =>
      && |data| >= 1 && data[0] == 19 && FieldAt(data[1..], a) && FieldAt(data[1..][2 + |a|..], b)
      && FieldAt(data[1..][2 + |a|..][2 + |b|..], c) && FieldAt(data[1..][2 + |a|..][2 + |b|..][2 + |c|..], d)
    case ClearChildren(parent) => Starts(data, 20, parent)
    case SwapNodes(nodeA, nodeB) => Starts(data, 21, nodeA) && |data| >= 9 && Number(data[5..9]) == nodeB
    case BatchText(updates) =>
      |data| >= 3 && data[0] == 22 && Number(data[1..3]) == |updates| && UpdatesAt(data[3..], updates)
  }

  /** Frames that hold `msgs`, each behind its length in four bytes. */
  ghost predicate FramesAt(data: seq<byte>, msgs: seq<Msg>)
    decreases msgs, 1
  {
    msgs == [] ||
    (|data| >= 4 && var n := Number(data[..4]);
     4 + n <= |data| && Holds(data[4..4 + n], msgs[0]) && FramesAt(data[4 + n..], msgs[1..]))
  }

  // ------------------------------------------------------------- numbers

  lemma {:induction false} Numbers()
    ensures forall b: seq<byte> | |b| == 2 :: Number(b) == Be16(b)
    ensures forall b: seq<byte> | |b| == 4 :: Number(b) == Be32(b)
  {
    forall b: seq<byte> | |b| == 2 ensures Number(b) == Be16(b) {
      NumberRead(b);
    }
    forall b: seq<byte> | |b| == 4 ensures Number(b) == Be32(b) {
      NumberRead(b);
    }
  }

  // --------------------------------------------------------- the decoder

  lemma {:induction false} FieldIff(data: seq<byte>, s: Str)
    ensures FieldAt(data, s) <==> TakeField(data).Ok? && TakeField(data).value.0 == s
    ensures FieldAt(data, s) ==> TakeField(data) == Ok((s, data[2 + |s|..]))
  {
    Numbers();
    hide Number, Be16, Be32;
  }

  lemma {:induction false} PairsIff(data: seq<byte>, attrs: seq<(Str, Str)>)
    ensures PairsAt(data, attrs) <==> TakeAttrs(data, |attrs|).Ok? && TakeAttrs(data, |attrs|).value.0 == attrs
    decreases attrs
  {
    if attrs != [] {
      var (k, v) := attrs[0];
      FieldIff(data, k);
      hide FieldAt, TakeField;
      if FieldAt(data, k) {
        FieldIff(data[2 + |k|..], v);
        if FieldAt(data[2 + |k|..], v) {
          PairsIff(data[2 + |k|..][2 + |v|..], attrs[1..]);
          assert attrs == [(k, v)] + attrs[1..];
        }
      }
    }
  }

  lemma {:induction false} PairIff(data: seq<byte>, key: Str, value: Str)
    ensures TakePair(data) == Ok((key, value)) <==> 0 !in key && data == key + [0] + value
  {
    if TakePair(data) == Ok((key, value)) {
      var sep := FindNull(data);
      assert data == data[..sep] + [0] + data[sep + 1..];
    }
    if 0 !in key && data == key + [0] + value {
      FindNullAfter(key, value);
    }
  }

  lemma {:induction false} AddressedIff(data: seq<byte>, m: Msg)
    requires Addressed(m) && !m.SetAttr? && !m.SetStyle?
    ensures Decode(data) == Ok(m) <==> Holds(data, m)
  {
    Numbers();
    hide Number, Be32, TakePair, DecodeInsertNode, DecodeChallenge, DecodeClientAuth, DecodeN, TakeField;
  }

  lemma {:induction false} PairedIff(data: seq<byte>, m: Msg)
    requires m.SetAttr? || m.SetStyle?
    ensures Decode(data) == Ok(m) <==> Holds(data, m)
  {
    Numbers();
    hide Number, Be32, TakePair, DecodeInsertNode, DecodeChallenge, DecodeClientAuth, DecodeN, TakeField;
    if |data| >= 5 {
      PairIff(data[5..], m.key, m.value);
    }
  }

  lemma {:induction false} PlainIff(data: seq<byte>, m: Msg)
    requires m.Hello? || m.ClientHello? || m.PushHistory? || m.ClientNav? || m.AuthResult? || m.DevToolsState?
    ensures Decode(data) == Ok(m) <==> Holds(data, m)
  {
    Numbers();
    hide Number, Be32, TakePair, DecodeInsertNode, DecodeChallenge, DecodeClientAuth, DecodeN, TakeField;
  }

  lemma {:induction false} ErrorIff(data: seq<byte>, m: Msg)
    requires m.Error?
    ensures Decode(data) == Ok(m) <==> Holds(data, m)
  {
    hide TakePair, DecodeInsertNode, DecodeChallenge, DecodeClientAuth, DecodeN, TakeField, FieldAt, Be32;
    if |data| > 0 {
      FieldIff(data[1..], m.text);
    }
  }

  lemma UndecodableIff(data: seq<byte>, m: Msg)
    requires m.InsertText? || m.InsertHTML? || m.ClearChildren? || m.SwapNodes? || m.BatchText?
    ensures Decode(data) != Ok(m)
  {
    hide TakePair, DecodeInsertNode, DecodeChallenge, DecodeClientAuth, DecodeN, TakeField, Be32;
  }

  /** The decoder accepts exactly what holds a message of an opcode it knows. */
  lemma {:induction false} DecodeIff(data: seq<byte>, m: Msg)
    ensures Decode(data) == Ok(m) <==> Decodable(m) && Holds(data, m)
    decreases m, 0
  {
    if m.Batch? {
      BatchIff(data, m);
    } else if m.SetAttr? || m.SetStyle? {
      PairedIff(data, m);
    } else if Addressed(m) {
      AddressedIff(data, m);
    } else if m.InsertNode? || m.ClientAuth? || m.AuthChallenge? {
      StructuredIff(data, m);
    } else if m.Error? {
      ErrorIff(data, m);
    } else if m.InsertText? || m.InsertHTML? || m.ClearChildren? || m.SwapNodes? || m.BatchText? {
      UndecodableIff(data, m);
    } else {
      PlainIff(data, m);
    }
  }

  lemma {:induction false} BatchIff(data: seq<byte>, m: Msg)
    requires m.Batch?
    ensures Decode(data) == Ok(m) <==> Decodable(m) && Holds(data, m)
    decreases m, 0, 0
  {
    Numbers();
    hide Number, Be32, TakePair, DecodeInsertNode, DecodeChallenge, DecodeClientAuth, DecodeN, TakeField;
    if |data| >= 5 {
      FramesIff(data[5..], m.children);
    }
  }

  /** As many frames as announced, and what they hold. */
  lemma {:induction false} FramesIff(data: seq<byte>, msgs: seq<Msg>)
    ensures DecodeN(data, |msgs|) == Ok(msgs) <==> (forall m | m in msgs :: Decodable(m)) && FramesAt(data, msgs)
    decreases msgs, 1
  {
    if msgs != [] {
      FrameIff(data, msgs[0]);
      assert msgs == [msgs[0]] + msgs[1..];
      hide Decodable, Decode, DecodeFrame, Holds, Number;
      if |data| >= 4 && 4 + Number(data[..4]) <= |data| {
        FramesIff(data[4 + Number(data[..4])..], msgs[1..]);
      }
    }
  }

  lemma {:induction false} FrameIff(data: seq<byte>, m: Msg)
    ensures (DecodeFrame(data).Ok? && DecodeFrame(data).value.0 == m)
            <==> (|data| >= 4 && 4 + Number(data[..4]) <= |data| && Decodable(m)
                  && Holds(data[4..4 + Number(data[..4])], m))
    ensures DecodeFrame(data).Ok? ==> |data| >= 4 && DecodeFrame(data).value.1 == 4 + Number(data[..4])
    decreases m, 1
  {
    if |data| >= 4 {
      NumberRead(data[..4]);
      if 4 + Number(data[..4]) <= |data| {
        DecodeIff(data[4..4 + Number(data[..4])], m);
      }
    }
    hide Number, Be32, Decode, Decodable, Holds;
  }

  lemma {:induction false} InsertIff(data: seq<byte>, m: Msg)
    requires m.InsertNode?
    ensures DecodeInsertNode(data) == Ok(m) && |data| > 0 && data[0] == 4 <==> Holds(data, m)
  {
    Numbers();
    hide Number, Be32, TakeAttrs, PairsAt, Be16;
    var n := |m.tag|;
    if |data| >= 14 {
      var t := TakeTag(data[13..]);
      assert data[13..][0] == data[13];
      assert t.Ok? ==> |t.value.0| == data[13] && |t.value.1| == |data| - 14 - data[13];
    }
    if |data| >= 16 + n && data[13] == n {
      PairsIff(data[16 + n..], m.attrs);
      assert data[13..][1..1 + n] == data[14..14 + n] && data[13..][0] == data[13];
      assert data[13..][1 + n..][..2] == data[14 + n..16 + n] && data[13..][1 + n..][2..] == data[16 + n..];
    }
  }

  lemma {:induction false} AuthIff(data: seq<byte>, m: Msg)
    requires m.ClientAuth? && |data| > 0
    ensures DecodeClientAuth(data) == Ok(m) && data[0] == 19 <==> Holds(data, m)
  {
    var ClientAuth(a, b, c, d) := m;
    hide FieldAt, TakeField;
    FieldIff(data[1..], a);
    if FieldAt(data[1..], a) {
      FieldIff(data[1..][2 + |a|..], b);
      if FieldAt(data[1..][2 + |a|..], b) {
        FieldIff(data[1..][2 + |a|..][2 + |b|..], c);
        if FieldAt(data[1..][2 + |a|..][2 + |b|..], c) {
          FieldIff(data[1..][2 + |a|..][2 + |b|..][2 + |c|..], d);
        }
      }
    }
  }

  lemma {:induction false} ChallengeIff(data: seq<byte>, m: Msg)
    requires m.AuthChallenge? && |data| > 0
    ensures DecodeChallenge(data) == Ok(m) && data[0] == 12 <==> Holds(data, m)
  {
  }

  lemma {:induction false} StructuredIff(data: seq<byte>, m: Msg)
    requires m.InsertNode? || m.ClientAuth? || m.AuthChallenge?
    ensures Decode(data) == Ok(m) <==> Holds(data, m)
  {
    hide DecodeInsertNode, DecodeChallenge, DecodeClientAuth, DecodeN, TakeField, TakePair, Holds, Be32;
    if |data| > 0 {
      match m
      case InsertNode(_, _, _, _, _) => InsertIff(data, m);
      case ClientAuth(_, _, _, _) => AuthIff(data, m);
      case AuthChallenge(_, _) => ChallengeIff(data, m);
    } else {
      NothingHeld(data, m);
    }
  }

  lemma NothingHeld(data: seq<byte>, m: Msg)
    requires data == []
    ensures !Holds(data, m)
  {
  }

  /** Frames that hold `msgs`, with nothing behind them. */
  ghost predicate Filled(data: seq<byte>, msgs: seq<Msg>)
    decreases msgs
  {
    if msgs == [] then data == []
    else
      |data| >= 4 && var n := Number(data[..4]);
      4 + n <= |data| && Holds(data[4..4 + n], msgs[0]) && Filled(data[4 + n..], msgs[1..])
  }

  /** What decodes without an error is exactly what frames of known opcodes fill. */
  lemma {:induction false} DecodeAllIff(data: seq<byte>, msgs: seq<Msg>)
    ensures DecodeAll(data) == Outcome(msgs, DONE) <==> (forall m | m in msgs :: Decodable(m)) && Filled(data, msgs)
    decreases msgs
  {
    hide Decodable, DecodeFrame, Holds, Number;
    if msgs != [] && data != [] {
      FrameIff(data, msgs[0]);
      var first := DecodeFrame(data);
      if first.Ok? && first.value.0 == msgs[0] {
        assert first == Ok((msgs[0], first.value.1));
        var rest := data[first.value.1..];
        DecodeAllIff(rest, msgs[1..]);
        hide Filled;
        AllFrom(data, msgs, rest);
        FilledFrom(data, msgs, rest);
      } else {
        NotFirst(data, msgs);
      }
    }
  }

  lemma NotFirst(data: seq<byte>, msgs: seq<Msg>)
    requires data != [] && msgs != [] && !(DecodeFrame(data).Ok? && DecodeFrame(data).value.0 == msgs[0])
    ensures DecodeAll(data) != Outcome(msgs, DONE)
  {
    hide DecodeFrame;
  }

  lemma AllFrom(data: seq<byte>, msgs: seq<Msg>, rest: seq<byte>)
    requires msgs != [] && DecodeFrame(data).Ok? && DecodeFrame(data).value.0 == msgs[0]
    requires rest == data[DecodeFrame(data).value.1..]
    ensures DecodeAll(data) == Outcome(msgs, DONE) <==> DecodeAll(rest) == Outcome(msgs[1..], DONE)
  {
    hide DecodeFrame;
    assert msgs == [msgs[0]] + msgs[1..];
  }

  lemma FilledFrom(data: seq<byte>, msgs: seq<Msg>, rest: seq<byte>)
    requires msgs != [] && |data| >= 4 && 4 + Number(data[..4]) <= |data| && rest == data[4 + Number(data[..4])..]
    ensures Filled(data, msgs) <==> Holds(data[4..4 + Number(data[..4])], msgs[0]) && Filled(rest, msgs[1..])
  {
    hide Number, Holds;
  }

  /** Which error a single instruction gives: an unknown opcode, a pair without its separator, or too few bytes. */
  lemma {:induction false} WhichError(data: seq<byte>)
    requires data == [] || data[0] != 9
    ensures Decode(data) == Err(UnknownOp) <==> data != [] && (data[0] in {14, 15} || data[0] > 19)
    ensures Decode(data) == Err(InvalidFrame) <==> |data| >= 5 && data[0] in {2, 7} && 0 !in data[5..]
  {
    hide Be32, Be16, DecodeN, FindNull;
    if |data| > 0 && data[0] == 4 {
      InsertShort(data);
    } else if |data| > 0 && data[0] == 19 {
      AuthShort(data);
    }
  }

  lemma InsertShort(data: seq<byte>)
    ensures DecodeInsertNode(data).Err? ==> DecodeInsertNode(data) == Err(ShortRead)
  {
    hide Be16, Be32, TakeAttrs;
    if |data| >= 14 {
      var tag := TakeTag(data[13..]);
      if tag.Ok? && |tag.value.1| >= 2 {
        AttrsShort(tag.value.1[2..], Be16(tag.value.1[..2]));
      }
    }
  }

  lemma {:induction false} AttrsShort(data: seq<byte>, n: nat)
    ensures TakeAttrs(data, n).Err? ==> TakeAttrs(data, n) == Err(ShortRead)
    decreases n
  {
    hide Be16;
    if n > 0 && TakeField(data).Ok? && TakeField(TakeField(data).value.1).Ok? {
      AttrsShort(TakeField(TakeField(data).value.1).value.1, n - 1);
    }
  }

  lemma AuthShort(data: seq<byte>)
    requires |data| >= 1
    ensures DecodeClientAuth(data).Err? ==> DecodeClientAuth(data) == Err(ShortRead)
  {
    hide Be16;
  }

  // ---------------------------------------------------------- the client

  /** Of the opcodes it acts on, the client takes a single instruction exactly where the bytes hold it. */
  lemma {:induction false} ClientIff(data: seq<byte>, m: Msg)
    requires ForClient(m) && !m.Batch? && !m.BatchText?
    ensures ParseFrame(data) == D.Some(m) <==> Holds(data, m)
  {
    if m.InsertText? || m.InsertHTML? || m.ClearChildren? || m.SwapNodes? {
      ClientOnly(data, m);
    } else {
      DecodeIff(data, m);
      ClientShared(data, m);
    }
  }

  lemma {:induction false} ClientOnly(data: seq<byte>, m: Msg)
    requires m.InsertText? || m.InsertHTML? || m.ClearChildren? || m.SwapNodes?
    ensures ParseFrame(data) == D.Some(m) <==> Holds(data, m)
  {
    if |data| >= 5 {
      NumberRead(data[1..5]);
    }
    if |data| >= 9 {
      NumberRead(data[5..9]);
    }
    hide Number, Be32, Be16, Decode, TakeUpdates, ParseStream;
    if |data| > 0 && Decode(data).Ok? {
      DecodedOp(data);
    }
  }

  lemma {:induction false} ClientShared(data: seq<byte>, m: Msg)
    requires m.UpdateText? || m.SetAttr? || m.RemoveAttr? || m.InsertNode? || m.RemoveNode? || m.SetStyle?
    ensures ParseFrame(data) == D.Some(m) <==> Decode(data) == Ok(m)
  {
    if |data| > 0 && Decode(data).Ok? {
      DecodedOp(data);
    }
    hide Be32, Be16, Decode, TakeUpdates, ParseStream;
  }

  /** What is decoded has the kind its opcode says. */
  lemma DecodedOp(data: seq<byte>)
    requires |data| > 0 && Decode(data).Ok?
    ensures var m := Decode(data).value;
            && (m.UpdateText? <==> data[0] == 1) && (m.SetAttr? <==> data[0] == 2) && (m.RemoveAttr? <==> data[0] == 3)
            && (m.InsertNode? <==> data[0] == 4) && (m.RemoveNode? <==> data[0] == 5) && (m.SetStyle? <==> data[0] == 7)
            && !m.InsertText? && !m.InsertHTML? && !m.ClearChildren? && !m.SwapNodes?
  {
    hide Be32, DecodeInsertNode, DecodeChallenge, DecodeClientAuth, DecodeN, TakeField, TakePair;
  }

  lemma {:induction false} UpdatesTaken(data: seq<byte>, updates: seq<(uint32, Str)>)
    requires UpdatesAt(data, updates)
    ensures TakeUpdates(data, |updates|) == updates
    decreases updates
  {
    hide Number, Be32, Be16, FieldAt;
    if updates != [] {
      var (node, text) := updates[0];
      UpdateTaken(data, node, text);
      UpdatesTaken(data[6 + |text|..], updates[1..]);
      assert updates == [(node, text)] + updates[1..];
    }
  }

  lemma {:induction false} UpdateTaken(data: seq<byte>, node: uint32, text: Str)
    requires |data| >= 4 && Number(data[..4]) == node && FieldAt(data[4..], text)
    ensures |data| >= 6 + |text| && Be16(data[4..6]) == |text|
    ensures Be32(data[..4]) == node && data[6..6 + |text|] == text
  {
    NumberRead(data[..4]);
    NumberRead(data[4..][..2]);
    hide Number, Be32, Be16;
    assert data[4..][..2] == data[4..6] && data[4..][2..2 + |text|] == data[6..6 + |text|];
  }

  lemma {:induction false} ClientTexts(data: seq<byte>, m: Msg)
    requires m.BatchText? && Holds(data, m)
    ensures ParseFrame(data) == D.Some(m)
  {
    UpdatesTaken(data[3..], m.updates);
    Numbers();
    hide Number, Be32, Be16, Decode, TakeUpdates, UpdatesAt;
  }

  /** The instructions of frames that fill the data are carried out in order. */
  lemma {:induction false} ClientFrames(data: seq<byte>, msgs: seq<Msg>)
    requires Filled(data, msgs) && forall m | m in msgs :: ForClient(m) && !m.Batch?
    ensures ParseStream(data) == msgs
    decreases msgs
  {
    if msgs != [] {
      Numbers();
      hide Number, Be32;
      var m, body := msgs[0], data[4..4 + Number(data[..4])];
      assert m in msgs;
      if m.BatchText? {
        ClientTexts(body, m);
      } else {
        ClientIff(body, m);
      }
      hide ParseFrame, ForClient, Holds;
      ClientFrames(data[4 + |body|..], msgs[1..]);
      assert msgs == [m] + msgs[1..];
    }
  }

  // --------------------------------------------------------- the encoder

  /** Every frame starts with the length of its body, and every field with its own: the low bytes of it. */
  lemma {:induction false} LengthsWritten(s: Str)
    ensures Number(Frame(s)[..4]) == |s| % 0x1_0000_0000 && Frame(s)[4..] == s
    ensures Number(Field(s)[..2]) == |s| % 0x1_0000 && Field(s)[2..] == s
  {
    NumberWritten(|s|);
    hide Number, U32, U16;
    assert Frame(s)[..4] == U32(|s|) && Field(s)[..2] == U16(|s|);
  }

  /** A tag of 256 bytes or more is written whole, behind the low byte of its length: the decoder finds another tag. */
  lemma {:induction false} LongTag(m: Msg)
    requires m.InsertNode? && |m.tag| >= 0x100
    ensures Body(m)[13] == |m.tag| % 0x100 && Body(m)[14..14 + |m.tag|] == m.tag
    ensures Decode(Body(m)) != Ok(m)
  {
    hide U32, U16, EncodeAttrs, Holds;
    var rest := U16(|m.attrs|) + EncodeAttrs(m.attrs);
    var more := [|m.tag| % 0x100] + m.tag + rest;
    Header3(OP_INSERT_NODE, m.node, m.parent, m.sibling, more);
    var data := Body(m);
    assert data[13..] == more;
    assert data[13] == more[0] && data[14..14 + |m.tag|] == more[1..1 + |m.tag|] == m.tag;
    DecodeIff(data, m);
    if Holds(data, m) {
      TagHeld(data, m);
    }
  }

  lemma TagHeld(data: seq<byte>, m: Msg)
    requires m.InsertNode? && Holds(data, m)
    ensures |m.tag| < 0x100
  {
  }

  lemma {:induction false} UpdatesLaid(updates: seq<(uint32, Str)>)
    requires forall u | u in updates :: FitsField(u.1)
    ensures UpdatesAt(EncodeUpdates(updates), updates)
    decreases updates
  {
    hide Number, U32, Field, FieldAt;
    if updates != [] {
      assert updates[0] in updates;
      UpdateLaid(updates[0].0, updates[0].1, EncodeUpdates(updates[1..]));
      UpdatesLaid(updates[1..]);
    }
  }

  lemma {:induction false} UpdateLaid(node: uint32, text: Str, rest: seq<byte>)
    requires FitsField(text)
    ensures var data := U32(node) + (Field(text) + rest);
            && |data| >= 6 + |text| && Number(data[..4]) == node
            && FieldAt(data[4..], text) && data[6 + |text|..] == rest
  {
    NumberWritten(node);
    NumberWritten(|text|);
    hide Number, U32, U16;
    var data := U32(node) + (Field(text) + rest);
    assert data[..4] == U32(node) && data[4..] == Field(text) + rest;
    assert data[4..][..2] == U16(|text|) && data[4..][2..2 + |text|] == text;
  }

  lemma {:induction false} TextsLaid(m: Msg)
    requires m.BatchText? && Fits(m)
    ensures Holds(Body(m), m)
  {
    ShortTexts(m);
    UpdatesLaid(m.updates);
    CountedWritten(OP_BATCH_TEXT, |m.updates|, EncodeUpdates(m.updates));
    hide Number, U16, UpdatesAt, EncodeUpdates, Fits;
    assert Body(m) == [OP_BATCH_TEXT] + (U16(|m.updates|) + EncodeUpdates(m.updates));
    hide Body;
  }

  lemma ShortTexts(m: Msg)
    requires m.BatchText? && Fits(m)
    ensures |m.updates| < 0x1_0000 && forall u | u in m.updates :: FitsField(u.1)
  {
    hide Body;
  }

  lemma {:induction false} CountedWritten(op: byte, n: nat, rest: seq<byte>)
    requires n < 0x1_0000
    ensures var data := [op] + (U16(n) + rest);
            |data| >= 3 && data[0] == op && Number(data[1..3]) == n && data[3..] == rest
  {
    NumberWritten(n);
    hide Number, U16;
    var data := [op] + (U16(n) + rest);
    assert data[1..3] == U16(n);
  }

  /** What is written for a message holds it. */
  lemma {:induction false} BodyHolds(m: Msg)
    requires Fits(m)
    ensures Holds(Body(m), m)
    decreases m, 0
  {
    if m.Batch? {
      BatchLaid(m);
    } else if m.BatchText? {
      TextsLaid(m);
    } else if m.InsertText? || m.InsertHTML? || m.ClearChildren? || m.SwapNodes? {
      ClientOnly(Body(m), m);
      ParseTwoIds(m);
    } else {
      DecodeIff(Body(m), m);
      DecodeBack(m);
    }
  }

  lemma {:induction false} BatchLaid(m: Msg)
    requires m.Batch? && Fits(m)
    ensures Holds(Body(m), m)
    decreases m, 0, 0
  {
    FramesLaid(m.children);
    CountFramesOf(m.children);
    hide FramesAt, Filled, EncodeAll, CountFrames, Fits, Starts;
    var n, inner := |m.children|, EncodeAll(m.children);
    assert Body(m) == [OP_BATCH] + U32(n) + inner;
    FewerThanBytes(m);
    StartsWritten(OP_BATCH, n, inner);
    FilledFrames(inner, m.children);
  }

  lemma FewerThanBytes(m: Msg)
    requires m.Batch? && Fits(m)
    ensures |m.children| < 0x1_0000_0000
  {
    CountIsSmall(m.children);
    hide EncodeAll, CountFrames;
  }

  lemma {:induction false} StartsWritten(op: byte, n: nat, rest: seq<byte>)
    requires n < 0x1_0000_0000
    ensures var data := [op] + U32(n) + rest; Starts(data, op, n) && data[5..] == rest
  {
    NumberWritten(n);
    hide Number, U32;
    var data := [op] + U32(n) + rest;
    assert data[1..5] == U32(n);
  }

  lemma {:induction false} FilledFrames(data: seq<byte>, msgs: seq<Msg>)
    requires Filled(data, msgs)
    ensures FramesAt(data, msgs)
    decreases msgs
  {
    hide Holds;
    if msgs != [] {
      FilledFrames(data[4 + Number(data[..4])..], msgs[1..]);
    }
  }

  /** The bytes of a stream are filled with the frames of its messages. */
  lemma {:induction false} FramesLaid(msgs: seq<Msg>)
    requires AllFit(msgs)
    ensures Filled(EncodeAll(msgs), msgs)
    decreases msgs, 1
  {
    if msgs != [] {
      assert msgs[0] in msgs;
      BodyHolds(msgs[0]);
      var body, rest := Body(msgs[0]), EncodeAll(msgs[1..]);
      FrameSplit(body, rest);
      NumberRead(EncodeAll(msgs)[..4]);
      hide Holds, Body, Frame, Number, Be32;
      assert forall m | m in msgs[1..] :: m in msgs;
      FramesLaid(msgs[1..]);
    }
  }
}
