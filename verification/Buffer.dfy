/**
 The growing byte buffer of pkg/protocol/buffer.go.  Every encoder appends one
 frame whose length is patched in once the body is there.
 */
module Buffers {
  import opened Seqs
  import opened Wire
  import opened Ranges

  /** countFrames, as the loop the encoder runs. */
  method CountFramesLoop(data: seq<byte>) returns (n: nat)
    ensures n == CountFrames(data)
  {
    n := 0;
    var pos := 0;
    while pos < |data|
      invariant 0 <= pos
      invariant n + CountFrames(if pos <= |data| then data[pos..] else []) == CountFrames(data)
      decreases |data| - pos
    {
      if pos + 4 > |data| {
        break;
      }
      var rest := data[pos..];
      assert rest[..4] == data[pos..pos + 4];
      var frameLen := Be32(data[pos..pos + 4]);
      pos := pos + 4 + frameLen;
      n := n + 1;
      assert pos <= |data| ==> rest[4 + frameLen..] == data[pos..];
    }
  }

  function NodeHead(node: uint32, parent: uint32, sibling: uint32): seq<byte> {
    [OP_INSERT_NODE] + U32(node) + U32(parent) + U32(sibling)
  }

  lemma InsertNodeBody(node: uint32, parent: uint32, sibling: uint32, tag: Str, pairs: seq<(Str, Str)>)
    ensures Body(InsertNode(node, parent, sibling, tag, pairs))
            == NodeHead(node, parent, sibling) + ([|tag| % 0x100] + tag + (U16(|pairs|) + EncodeAttrs(pairs)))
  {
    hide U32, U16, EncodeAttrs;
    var a, p, s := [OP_INSERT_NODE] + U32(node), U32(parent), U32(sibling);
    var r := [|tag| % 0x100] + tag + (U16(|pairs|) + EncodeAttrs(pairs));
    assert Body(InsertNode(node, parent, sibling, tag, pairs)) == a + (p + (s + r));
    assert NodeHead(node, parent, sibling) == (a + p) + s;
    hide Body, NodeHead;
    Regroup(a, p, s + r);
    Regroup(a + p, s, r);
  }


  class Buffer {
    var buf: seq<byte>

    constructor ()
      ensures buf == []
    {
      buf := [];
    }

    method WriteByte(v: byte)
      modifies this
      ensures buf == old(buf) + [v]
    {
      buf := buf + [v];
    }

    method WriteUint16(v: nat)
      modifies this
      ensures buf == old(buf) + U16(v)
    {
      buf := buf + U16(v);
    }

    method WriteUint32(v: nat)
      modifies this
      ensures buf == old(buf) + U32(v)
    {
      buf := buf + U32(v);
    }

    method WriteBytes(data: seq<byte>)
      modifies this
      ensures buf == old(buf) + data
    {
      buf := buf + data;
    }

    /** Reserves the length prefix. */
    method BeginFrame() returns (off: nat)
      modifies this
      ensures off == |old(buf)| && buf == old(buf) + [0, 0, 0, 0]
    {
      off := |buf|;
      buf := buf + [0, 0, 0, 0];
    }

    /** Patches the length prefix at `off`; everything else stays. */
    method EndFrame(off: nat, ghost before: seq<byte>, ghost body: seq<byte>)
      requires buf == before + [0, 0, 0, 0] + body && off == |before|
      modifies this
      ensures buf == before + Frame(body)
      ensures |buf| == off + 4 + |body| && buf[..off] == before && buf[off + 4..] == body
      ensures Number(buf[off..off + 4]) == |body| % 0x1_0000_0000
    {
      var frameLen := |buf| - off - 4;
      buf := buf[..off] + U32(frameLen) + buf[off + 4..];
      NumberWritten(|body|);
      hide Number, U32;
      assert buf[off..off + 4] == U32(|body|);
    }

    method EncodeUpdateText(node: uint32, text: Str)
      modifies this
      ensures buf == old(buf) + Frame(Body(UpdateText(node, text)))
    {
      var off := BeginFrame();
      WriteByte(OP_UPDATE_TEXT);
      WriteUint32(node);
      WriteBytes(text);
      EndFrame(off, old(buf), Body(UpdateText(node, text)));
    }

    method EncodeSetAttr(node: uint32, key: Str, value: Str)
      modifies this
      ensures buf == old(buf) + Frame(Body(SetAttr(node, key, value)))
    {
      var off := BeginFrame();
      WriteByte(OP_SET_ATTR);
      WriteUint32(node);
      WriteBytes(key);
      WriteByte(0);
      WriteBytes(value);
      EndFrame(off, old(buf), Body(SetAttr(node, key, value)));
    }

    method EncodeRemoveAttr(node: uint32, key: Str)
      modifies this
      ensures buf == old(buf) + Frame(Body(RemoveAttr(node, key)))
    {
      var off := BeginFrame();
      WriteByte(OP_REMOVE_ATTR);
      WriteUint32(node);
      WriteBytes(key);
      EndFrame(off, old(buf), Body(RemoveAttr(node, key)));
    }

    method WritePair(k: Str, v: Str)
      modifies this
      ensures buf == old(buf) + (Field(k) + Field(v))
    {
      WriteUint16(|k|);
      WriteBytes(k);
      WriteUint16(|v|);
      WriteBytes(v);
    }

    /** Writes the attributes in the order the map iteration yields them. */
    method WriteAttrs(attrs: map<Str, Str>, order: seq<Str>)
      requires forall k | k in order :: k in attrs
      modifies this
      ensures buf == old(buf) + EncodeAttrs(Entries(order, attrs))
    {
      hide U16, Field, EncodeAttrs;
      NoPairs();
      for i := 0 to |order|
        invariant forall k | k in order[..i] :: k in attrs
        invariant buf == old(buf) + EncodeAttrs(Entries(order[..i], attrs))
      {
        var k := order[i];
        var v := attrs[k];
        WritePair(k, v);
        assert order[..i + 1][..i] == order[..i];
        AppendPair(Entries(order[..i], attrs), k, v);
      }
      assert order[..|order|] == order;
    }

    /** The fixed part of an insertion. */
    method WriteNode(node: uint32, parent: uint32, sibling: uint32)
      modifies this
      ensures buf == old(buf) + NodeHead(node, parent, sibling)
    {
      hide U32;
      WriteByte(OP_INSERT_NODE);
      WriteUint32(node);
      WriteUint32(parent);
      WriteUint32(sibling);
    }

    method EncodeInsertNode(node: uint32, parent: uint32, sibling: uint32, tag: Str, attrs: map<Str, Str>)
      returns (ghost pairs: seq<(Str, Str)>)
      modifies this
      ensures FromPairs(pairs) == attrs && |pairs| == |attrs|
      ensures buf == old(buf) + Frame(Body(InsertNode(node, parent, sibling, tag, pairs)))
    {
      hide U16, U32, EncodeAttrs, FromPairs, Entries, IsOrder, Body;
      var order := Range(attrs);
      OrderCovers(order, attrs);
      pairs := Entries(order, attrs);
      AllEntries(order, attrs);
      var off := BeginFrame();
      WriteNode(node, parent, sibling);
      ghost var before, head := old(buf) + [0, 0, 0, 0], NodeHead(node, parent, sibling);
      assert buf == before + head;
      hide NodeHead;
      WriteByte(|tag| % 0x100);
      WriteBytes(tag);
      WriteUint16(|attrs|);
      WriteAttrs(attrs, order);
      ghost var start, count, more := [|tag| % 0x100] + tag, U16(|attrs|), EncodeAttrs(pairs);
      assert buf == before + head + [|tag| % 0x100] + tag + count + more;
      Regroup(before + head, [|tag| % 0x100], tag);
      Regroup(before + head + start, count, more);
      Regroup(before + head, start, count + more);
      Regroup(before, head, start + (count + more));
      InsertNodeBody(node, parent, sibling, tag, pairs);
      EndFrame(off, old(buf), Body(InsertNode(node, parent, sibling, tag, pairs)));
    }

    method EncodeInsertText(node: uint32, parent: uint32, text: Str)
      modifies this
      ensures buf == old(buf) + Frame(Body(InsertText(node, parent, text)))
    {
      var off := BeginFrame();
      WriteByte(OP_INSERT_TEXT);
      WriteUint32(node);
      WriteUint32(parent);
      WriteBytes(text);
      EndFrame(off, old(buf), Body(InsertText(node, parent, text)));
    }

    method EncodeRemoveNode(node: uint32)
      modifies this
      ensures buf == old(buf) + Frame(Body(RemoveNode(node)))
    {
      var off := BeginFrame();
      WriteByte(OP_REMOVE_NODE);
      WriteUint32(node);
      EndFrame(off, old(buf), Body(RemoveNode(node)));
    }

    method EncodeSetStyle(node: uint32, property: Str, value: Str)
      modifies this
      ensures buf == old(buf) + Frame(Body(SetStyle(node, property, value)))
    {
      var off := BeginFrame();
      WriteByte(OP_SET_STYLE);
      WriteUint32(node);
      WriteBytes(property);
      WriteByte(0);
      WriteBytes(value);
      EndFrame(off, old(buf), Body(SetStyle(node, property, value)));
    }

    method EncodePushHistory(path: Str)
      modifies this
      ensures buf == old(buf) + Frame(Body(PushHistory(path)))
    {
      var off := BeginFrame();
      WriteByte(OP_PUSH_HISTORY);
      WriteBytes(path);
      EndFrame(off, old(buf), Body(PushHistory(path)));
    }

    method EncodeClientIntent(node: uint32, event: byte, payload: Str)
      modifies this
      ensures buf == old(buf) + Frame(Body(ClientIntent(node, event, payload)))
    {
      var off := BeginFrame();
      WriteByte(OP_CLIENT_INTENT);
      WriteUint32(node);
      WriteByte(event);
      WriteBytes(payload);
      EndFrame(off, old(buf), Body(ClientIntent(node, event, payload)));
    }

    method EncodeClientNav(path: Str)
      modifies this
      ensures buf == old(buf) + Frame(Body(ClientNav(path)))
    {
      var off := BeginFrame();
      WriteByte(OP_CLIENT_NAV);
      WriteBytes(path);
      EndFrame(off, old(buf), Body(ClientNav(path)));
    }

    method EncodeReplaceText(node: uint32, offset: uint32, length: uint32, replacement: Str)
      modifies this
      ensures buf == old(buf) + Frame(Body(ReplaceText(node, offset, length, replacement)))
    {
      hide U32;
      var off := BeginFrame();
      WriteByte(OP_REPLACE_TEXT);
      WriteUint32(node);
      WriteUint32(offset);
      WriteUint32(length);
      WriteBytes(replacement);
      EndFrame(off, old(buf), Body(ReplaceText(node, offset, length, replacement)));
    }

    /** `inner` holds what the caller's function wrote: the frames of `msgs`. */
    method EncodeBatch(inner: Buffer, ghost msgs: seq<Msg>)
      requires inner != this && inner.buf == EncodeAll(msgs)
      modifies this
      ensures buf == old(buf) + Frame(Body(Batch(msgs)))
    {
      hide U32, CountFrames, EncodeAll;
      var innerBytes := inner.buf;
      var count := CountFramesLoop(innerBytes);
      var off := BeginFrame();
      WriteByte(OP_BATCH);
      WriteUint32(count);
      WriteBytes(innerBytes);
      EndFrame(off, old(buf), Body(Batch(msgs)));
    }

    method EncodeError(message: Str)
      modifies this
      ensures buf == old(buf) + Frame(Body(Error(message)))
    {
      var off := BeginFrame();
      WriteByte(OP_ERROR);
      WriteUint16(|message|);
      WriteBytes(message);
      EndFrame(off, old(buf), Body(Error(message)));
    }

    method EncodeDevToolsState(json: Str)
      modifies this
      ensures buf == old(buf) + Frame(Body(DevToolsState(json)))
    {
      var off := BeginFrame();
      WriteByte(OP_DEVTOOLS_STATE);
      WriteUint32(|json|);
      WriteBytes(json);
      EndFrame(off, old(buf), Body(DevToolsState(json)));
    }

    method EncodeHello(major: byte, minor: byte)
      modifies this
      ensures buf == old(buf) + Frame(Body(Hello(major, minor)))
    {
      var off := BeginFrame();
      WriteByte(OP_HELLO);
      WriteByte(major);
      WriteByte(minor);
      EndFrame(off, old(buf), Body(Hello(major, minor)));
    }

    method EncodeClientHello(major: byte, minor: byte)
      modifies this
      ensures buf == old(buf) + Frame(Body(ClientHello(major, minor)))
    {
      var off := BeginFrame();
      WriteByte(OP_CLIENT_HELLO);
      WriteByte(major);
      WriteByte(minor);
      EndFrame(off, old(buf), Body(ClientHello(major, minor)));
    }

    method EncodeAuthChallenge(rpId: Str, challenge: Str)
      modifies this
      ensures buf == old(buf) + Frame(Body(AuthChallenge(rpId, challenge)))
    {
      var off := BeginFrame();
      WriteByte(OP_AUTH_CHALLENGE);
      WriteByte(|rpId| % 0x100);
      WriteBytes(rpId);
      WriteBytes(challenge);
      EndFrame(off, old(buf), Body(AuthChallenge(rpId, challenge)));
    }

    method EncodeAuthResult(success: bool, token: Str)
      modifies this
      ensures buf == old(buf) + Frame(Body(AuthResult(success, token)))
    {
      var off := BeginFrame();
      WriteByte(OP_AUTH_RESULT);
      if success {
        WriteByte(1);
      } else {
        WriteByte(0);
      }
      WriteBytes(token);
      EndFrame(off, old(buf), Body(AuthResult(success, token)));
    }

    method EncodeInsertHTML(parent: uint32, html: Str)
      modifies this
      ensures buf == old(buf) + Frame(Body(InsertHTML(parent, html)))
    {
      var off := BeginFrame();
      WriteByte(OP_INSERT_HTML);
      WriteUint32(parent);
      WriteBytes(html);
      EndFrame(off, old(buf), Body(InsertHTML(parent, html)));
    }

    method EncodeClearChildren(parent: uint32)
      modifies this
      ensures buf == old(buf) + Frame(Body(ClearChildren(parent)))
    {
      var off := BeginFrame();
      WriteByte(OP_CLEAR_CHILDREN);
      WriteUint32(parent);
      EndFrame(off, old(buf), Body(ClearChildren(parent)));
    }

    method EncodeSwapNodes(nodeA: uint32, nodeB: uint32)
      modifies this
      ensures buf == old(buf) + Frame(Body(SwapNodes(nodeA, nodeB)))
    {
      var off := BeginFrame();
      WriteByte(OP_SWAP_NODES);
      WriteUint32(nodeA);
      WriteUint32(nodeB);
      EndFrame(off, old(buf), Body(SwapNodes(nodeA, nodeB)));
    }

    method EncodeBatchText(updates: seq<(uint32, Str)>)
      modifies this
      ensures buf == old(buf) + Frame(Body(BatchText(updates)))
    {
      hide U16, U32;
      var off := BeginFrame();
      WriteByte(OP_BATCH_TEXT);
      WriteUint16(|updates|);
      for i := 0 to |updates|
        invariant buf == old(buf) + [0, 0, 0, 0] + [OP_BATCH_TEXT] + U16(|updates|) + EncodeUpdates(updates[..i])
      {
        var u := updates[i];
        WriteUint32(u.0);
        WriteUint16(|u.1|);
        WriteBytes(u.1);
        AppendUpdate(updates[..i], u);
        assert updates[..i + 1] == updates[..i] + [u];
      }
      assert updates[..|updates|] == updates;
      EndFrame(off, old(buf), Body(BatchText(updates)));
    }
  }

  /** Setting each key once rebuilds the map. */
  lemma AllEntries(order: seq<Str>, attrs: map<Str, Str>)
    requires IsOrder(order, attrs)
    requires forall k | k in order :: k in attrs
    ensures FromPairs(Entries(order, attrs)) == attrs
  {
    SomeEntries(order, attrs);
    OrderCovers(order, attrs);
  }

  lemma {:induction false} SomeEntries(order: seq<Str>, attrs: map<Str, Str>)
    requires forall k | k in order :: k in attrs
    ensures FromPairs(Entries(order, attrs)) == map k | k in order :: attrs[k]
    decreases order
  {
    if order != [] {
      var front, last := order[..|order| - 1], order[|order| - 1];
      FrontKnown(order, attrs);
      SomeEntries(front, attrs);
      LastEntry(order, attrs);
      hide *;
      OneMore(front, last, attrs);
      assert order == front + [last];
    }
  }

  lemma FrontKnown(order: seq<Str>, attrs: map<Str, Str>)
    requires order != [] && forall k | k in order :: k in attrs
    ensures order[|order| - 1] in attrs && forall k | k in order[..|order| - 1] :: k in attrs
  {
    assert forall k | k in order[..|order| - 1] :: k in order;
  }

  lemma OneMore(front: seq<Str>, last: Str, attrs: map<Str, Str>)
    requires last in attrs && forall k | k in front :: k in attrs
    ensures forall k | k in front + [last] :: k in attrs
    ensures (map k | k in front :: attrs[k])[last := attrs[last]] == map k | k in front + [last] :: attrs[k]
  {
    assert forall k :: k in front + [last] <==> k in front || k == last;
  }

  lemma LastEntry(order: seq<Str>, attrs: map<Str, Str>)
    requires order != [] && forall k | k in order :: k in attrs
    ensures forall k | k in order[..|order| - 1] :: k in attrs
    ensures var last := order[|order| - 1];
            FromPairs(Entries(order, attrs)) == FromPairs(Entries(order[..|order| - 1], attrs))[last := attrs[last]]
  {
    var pairs := Entries(order, attrs);
    assert forall k | k in order[..|order| - 1] :: k in order;
    assert pairs[..|pairs| - 1] == Entries(order[..|order| - 1], attrs);
  }

  lemma NoPairs()
    ensures EncodeAttrs([]) == [] && FromPairs([]) == map[]
  {
  }

  lemma {:induction false} AppendPair(pairs: seq<(Str, Str)>, k: Str, v: Str)
    ensures EncodeAttrs(pairs + [(k, v)]) == EncodeAttrs(pairs) + (Field(k) + Field(v))
    ensures FromPairs(pairs + [(k, v)]) == FromPairs(pairs)[k := v]
  {
    hide U16;
    var all := pairs + [(k, v)];
    assert all[..|all| - 1] == pairs;
    if pairs != [] {
      assert all[1..] == pairs[1..] + [(k, v)];
      AppendPair(pairs[1..], k, v);
    }
  }

  lemma {:induction false} AppendUpdate(updates: seq<(uint32, Str)>, u: (uint32, Str))
    ensures EncodeUpdates(updates + [u]) == EncodeUpdates(updates) + U32(u.0) + U16(|u.1|) + u.1
  {
    hide U16, U32;
    if updates != [] {
      assert (updates + [u])[1..] == updates[1..] + [u];
      AppendUpdate(updates[1..], u);
    }
  }
}
