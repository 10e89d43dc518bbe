/**
 The decoding methods of pkg/protocol/decoder.go, with their cursors.
 */
module Decoder {
  import opened Wire
  import opened Codec

  method FindNullLoop(data: seq<byte>) returns (r: int)
    ensures r == FindNull(data)
  {
    for i := 0 to |data|
      invariant 0 !in data[..i]
    {
      if data[i] == 0 {
        FirstNull(data, i);
        return i;
      }
    }
    assert data[..|data|] == data;
    return -1;
  }

  lemma {:induction false} FirstNull(data: seq<byte>, i: nat)
    requires i < |data| && data[i] == 0 && 0 !in data[..i]
    ensures FindNull(data) == i
  {
    if i > 0 {
      assert data[0] in data[..i];
      assert data[1..][..i - 1] == data[..i][1..];
      FirstNull(data[1..], i - 1);
    }
  }

  /** One 2-byte length and its bytes, starting at `pos`. */
  method ReadField(data: seq<byte>, pos: nat) returns (s: Result<Str>, next: nat)
    requires pos <= |data|
    ensures var f := TakeField(data[pos..]);
            if f.Err? then s == Err(f.error)
            else s == Ok(f.value.0) && pos <= next <= |data| && data[next..] == f.value.1
  {
    next := pos;
    if pos + 2 > |data| {
      return Err(ShortRead), next;
    }
    assert data[pos..][..2] == data[pos..pos + 2];
    var len := Be16(data[pos..pos + 2]);
    next := pos + 2;
    if next + len > |data| {
      return Err(ShortRead), next;
    }
    s := Ok(data[next..next + len]);
    assert data[pos..][2..2 + len] == data[next..next + len];
    next := next + len;
    assert data[pos..][2 + len..] == data[next..];
  }

  /** The attribute loop of `Decode`, from the count at `pos` on. */
  method ReadAttrs(data: seq<byte>, start: nat) returns (r: Result<seq<(Str, Str)>>)
    requires start <= |data|
    ensures r == TakeCounted(data[start..])
  {
    hide TakeField, Be16;
    var pos := start;
    if pos + 2 > |data| {
      return Err(ShortRead);
    }
    assert data[pos..][..2] == data[pos..pos + 2];
    var attrCount := Be16(data[pos..pos + 2]);
    pos := pos + 2;
    assert data[start..][2..] == data[pos..];
    var attrs: seq<(Str, Str)> := [];
    ghost var whole := TakeAttrs(data[pos..], attrCount);
    for i := 0 to attrCount
      invariant start <= pos <= |data|
      invariant Resumes(whole, attrs, TakeAttrs(data[pos..], attrCount - i))
    {
      var k, v;
      k, pos := ReadField(data, pos);
      if k.Err? {
        return Err(k.error);
      }
      v, pos := ReadField(data, pos);
      if v.Err? {
        return Err(v.error);
      }
      attrs := attrs + [(k.value, v.value)];
    }
    assert TakeAttrs(data[pos..], 0) == Ok(([], data[pos..])) && attrs + [] == attrs;
    return Ok(attrs);
  }

  /** Reading on after `seen` gives what reading from the start gives. */
  ghost predicate Resumes(whole: Result<(seq<(Str, Str)>, seq<byte>)>, seen: seq<(Str, Str)>,
                          rest: Result<(seq<(Str, Str)>, seq<byte>)>)
  {
    if rest.Err? then whole == rest
    else whole.Ok? && whole.value.0 == seen + rest.value.0 && whole.value.1 == rest.value.1
  }

  method DecodeMsg(data: seq<byte>) returns (r: Result<Msg>)
    ensures r == Decode(data)
    decreases |data|, 0
  {
    hide FindNull, TakeAttrs, TakeField, Be16, Be32, DecodeN;
    if |data| < 1 {
      return Err(ShortRead);
    }
    var op := data[0];
    if op == OP_BATCH {
      if |data| < 5 {
        return Err(ShortRead);
      }
      var count := Be32(data[1..5]);
      var children := DecodeNLoop(data[5..], count);
      return if children.Err? then Err(children.error) else Ok(Batch(children.value));
    }
    if op == OP_INSERT_NODE {
      r := DecodeInsert(data);
      return;
    }
    if op == OP_CLIENT_AUTH {
      r := DecodeAuth(data);
      return;
    }
    r := DecodePlain(data);
  }

  method DecodeInsert(data: seq<byte>) returns (r: Result<Msg>)
    ensures r == DecodeInsertNode(data)
  {
    hide TakeCounted, Be32;
    if |data| < 14 {
      return Err(ShortRead);
    }
    var node, parent, sibling := Be32(data[1..5]), Be32(data[5..9]), Be32(data[9..13]);
    var pos := 13;
    var tagLen: int := data[pos];
    pos := pos + 1;
    if pos + tagLen > |data| {
      return Err(ShortRead);
    }
    var tag := data[pos..pos + tagLen];
    assert data[13..][1..1 + tagLen] == tag;
    pos := pos + tagLen;
    assert data[13..][1 + tagLen..] == data[pos..];
    var attrs := ReadAttrs(data, pos);
    return if attrs.Err? then Err(attrs.error) else Ok(InsertNode(node, parent, sibling, tag, attrs.value));
  }

  method DecodeAuth(data: seq<byte>) returns (r: Result<Msg>)
    requires |data| >= 1
    ensures r == DecodeClientAuth(data)
  {
    hide TakeField;
    var pos := 1;
    var a, b, c, d;
    a, pos := ReadField(data, pos);
    if a.Err? { return Err(a.error); }
    b, pos := ReadField(data, pos);
    if b.Err? { return Err(b.error); }
    c, pos := ReadField(data, pos);
    if c.Err? { return Err(c.error); }
    d, pos := ReadField(data, pos);
    if d.Err? { return Err(d.error); }
    return Ok(ClientAuth(a.value, b.value, c.value, d.value));
  }

  /** The cases without a loop. */
  method DecodePlain(data: seq<byte>) returns (r: Result<Msg>)
    requires |data| >= 1 && data[0] !in {OP_BATCH, OP_INSERT_NODE, OP_CLIENT_AUTH}
    ensures r == Decode(data)
  {
    hide FindNull, Be16, Be32;
    var op := data[0];
    if op in {OP_UPDATE_TEXT, OP_SET_ATTR, OP_REMOVE_ATTR, OP_REMOVE_NODE, OP_SET_STYLE, OP_DEVTOOLS_STATE} {
      if |data| < 5 {
        return Err(ShortRead);
      }
      var id: int := Be32(data[1..5]);
      var rest := data[5..];
      if op == OP_UPDATE_TEXT {
        return Ok(UpdateText(id, rest));
      } else if op == OP_REMOVE_ATTR {
        return Ok(RemoveAttr(id, rest));
      } else if op == OP_REMOVE_NODE {
        return Ok(RemoveNode(id));
      } else if op == OP_DEVTOOLS_STATE {
        return if |data| < 5 + id then Err(ShortRead) else Ok(DevToolsState(data[5..5 + id]));
      }
      var sep := FindNullLoop(rest);
      if sep < 0 {
        return Err(InvalidFrame);
      }
      return Ok(if op == OP_SET_ATTR then SetAttr(id, rest[..sep], rest[sep + 1..])
                else SetStyle(id, rest[..sep], rest[sep + 1..]));
    }
    r := DecodeShort(data);
  }

  method DecodeShort(data: seq<byte>) returns (r: Result<Msg>)
    requires |data| >= 1
    requires data[0] !in {OP_BATCH, OP_INSERT_NODE, OP_CLIENT_AUTH}
    requires data[0] !in {OP_UPDATE_TEXT, OP_SET_ATTR, OP_REMOVE_ATTR, OP_REMOVE_NODE, OP_SET_STYLE, OP_DEVTOOLS_STATE}
    ensures r == Decode(data)
  {
    hide FindNull, Be32;
    var op := data[0];
    if op == OP_REPLACE_TEXT {
      return if |data| < 13 then Err(ShortRead)
             else Ok(ReplaceText(Be32(data[1..5]), Be32(data[5..9]), Be32(data[9..13]), data[13..]));
    } else if op == OP_PUSH_HISTORY {
      return Ok(PushHistory(data[1..]));
    } else if op == OP_ERROR {
      if |data| < 3 {
        return Err(ShortRead);
      }
      assert data[1..][..2] == data[1..3];
      var msgLen := Be16(data[1..3]);
      if |data| < 3 + msgLen {
        return Err(ShortRead);
      }
      assert data[1..][2..2 + msgLen] == data[3..3 + msgLen];
      return Ok(Error(data[3..3 + msgLen]));
    } else if op == OP_CLIENT_INTENT {
      return if |data| < 6 then Err(ShortRead) else Ok(ClientIntent(Be32(data[1..5]), data[5], data[6..]));
    } else if op == OP_CLIENT_NAV {
      return Ok(ClientNav(data[1..]));
    } else if op == OP_HELLO || op == OP_CLIENT_HELLO {
      return if |data| < 3 then Err(ShortRead)
             else Ok(if op == OP_HELLO then Hello(data[1], data[2]) else ClientHello(data[1], data[2]));
    } else if op == OP_AUTH_CHALLENGE {
      if |data| < 2 {
        return Err(ShortRead);
      }
      var n: int := data[1];
      return if |data| < 2 + n + 32 then Err(ShortRead)
             else Ok(AuthChallenge(data[2..2 + n], data[2 + n..2 + n + 32]));
    } else if op == OP_AUTH_RESULT {
      return if |data| < 2 then Err(ShortRead) else Ok(AuthResult(data[1] == 1, data[2..]));
    }
    return Err(UnknownOp);
  }

  method DecodeFrameMsg(data: seq<byte>) returns (r: Result<(Msg, nat)>)
    ensures r == DecodeFrame(data)
    decreases |data|, 1
  {
    if |data| < 4 {
      return Err(ShortRead);
    }
    var frameLen: int := Be32(data[0..4]);
    if |data| < 4 + frameLen {
      return Err(ShortRead);
    }
    var m := DecodeMsg(data[4..4 + frameLen]);
    return if m.Err? then Err(m.error) else Ok((m.value, 4 + frameLen));
  }

  /** decodeN: exactly `n` frames. */
  method DecodeNLoop(data: seq<byte>, n: nat) returns (r: Result<seq<Msg>>)
    ensures r == DecodeN(data, n)
    decreases |data|, 2
  {
    hide DecodeFrame, DecodeN;
    var msgs: seq<Msg> := [];
    var pos := 0;
    assert data[0..] == data;
    for i := 0 to n
      invariant 0 <= pos <= |data|
      invariant var rest := DecodeN(data[pos..], n - i);
                var whole := DecodeN(data, n);
                if rest.Err? then whole == rest else whole.Ok? && whole.value == msgs + rest.value
    {
      NextFrame(data[pos..], n - i);
      var m := DecodeFrameMsg(data[pos..]);
      if m.Err? {
        return Err(m.error);
      }
      msgs := msgs + [m.value.0];
      assert data[pos..][m.value.1..] == data[pos + m.value.1..];
      pos := pos + m.value.1;
    }
    NoFrames(data[pos..]);
    assert msgs + [] == msgs;
    return Ok(msgs);
  }

  lemma NoFrames(data: seq<byte>)
    ensures DecodeN(data, 0) == Ok([])
  {
  }

  lemma NextFrame(data: seq<byte>, n: nat)
    requires n > 0
    ensures var first := DecodeFrame(data);
            DecodeN(data, n) ==
              if first.Err? then Err(first.error)
              else
                var rest := DecodeN(data[first.value.1..], n - 1);
                if rest.Err? then rest else Ok([first.value.0] + rest.value)
  {
    hide DecodeFrame;
  }

  /** DecodeAll: frames until the data ends. */
  method DecodeAllLoop(data: seq<byte>) returns (r: Outcome)
    ensures r == DecodeAll(data)
  {
    hide DecodeFrame;
    var msgs: seq<Msg> := [];
    var pos := 0;
    assert data[0..] == data;
    while pos < |data|
      invariant 0 <= pos <= |data|
      invariant var rest := DecodeAll(data[pos..]);
                DecodeAll(data) == Outcome(msgs + rest.msgs, rest.error)
    {
      var m := DecodeFrameMsg(data[pos..]);
      if m.Err? {
        return Outcome(msgs, Err(m.error));
      }
      msgs := msgs + [m.value.0];
      assert data[pos..][m.value.1..] == data[pos + m.value.1..];
      pos := pos + m.value.1;
    }
    return Outcome(msgs, DONE);
  }
}
