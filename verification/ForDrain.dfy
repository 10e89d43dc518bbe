/**
 Draining a list container's queue: what the flush writes for each queued operation.
 */
module ForDrain {
  import opened Seqs
  import opened Wire
  import opened Buffers
  import opened Trees
  import opened Emission
  import opened Mount
  import Conditional
  import opened Reconcile
  import opened ForUpdate

  lemma {:induction false} WritesSnoc(msgs: seq<Msg>, ops: seq<Op>, container: uint32, more: seq<Msg>, op: Op)
    requires WritesAll(msgs, ops, container) && Writes(more, op, container)
    ensures WritesAll(msgs + more, ops + [op], container)
    decreases ops
  {
    hide Writes;
    var all := msgs + more;
    if ops == [] {
      assert [op][1..] == [] && all[..|more|] == more && all[|more|..] == [];
    } else {
      var k :| 0 <= k <= |msgs| && Writes(msgs[..k], ops[0], container) && WritesAll(msgs[k..], ops[1..], container);
      WritesSnoc(msgs[k..], ops[1..], container, more, op);
      assert all[..k] == msgs[..k] && all[k..] == msgs[k..] + more;
      assert (ops + [op])[1..] == ops[1..] + [op] && (ops + [op])[0] == ops[0];
    }
  }

  /** One queued operation; bulk inserts are left out. */
  method DrainOne(buf: Buffer, op: Op, container: uint32) returns (ghost msgs: seq<Msg>)
    requires !op.Bulk?
    modifies buf
    ensures buf.buf == old(buf.buf) + EncodeAll(msgs) && Writes(msgs, op, container)
  {
    hide Body, Frame, EncodeAll, IsInsertTree, FromPairs;
    ghost var start := buf.buf;
    match op
    case Remove(x) =>
      buf.EncodeRemoveNode(x.id);
      msgs := [RemoveNode(x.id)];
      EncodeFirst(start, msgs[0]);
    case Clear =>
      buf.EncodeClearChildren(container);
      msgs := [ClearChildren(container)];
      EncodeFirst(start, msgs[0]);
    case Swap(a, b) =>
      buf.EncodeSwapNodes(a.id, b.id);
      msgs := [SwapNodes(a.id, b.id)];
      EncodeFirst(start, msgs[0]);
    case Move(x) =>
      var tag, attrs := if x.VElem? then x.tag else [], if x.VElem? then x.attrs else map[];
      ghost var pairs := buf.EncodeInsertNode(x.id, container, 0, tag, attrs);
      msgs := [InsertNode(x.id, container, 0, tag, pairs)];
      EncodeFirst(start, msgs[0]);
    case Insert(x) =>
      msgs := Conditional.EmitInsertTree(buf, x, container);
  }

  /** The queue from front to back. */
  method Drain(buf: Buffer, ops: seq<Op>, container: uint32) returns (ghost msgs: seq<Msg>)
    requires forall op | op in ops :: !op.Bulk?
    modifies buf
    ensures buf.buf == old(buf.buf) + EncodeAll(msgs) && WritesAll(msgs, ops, container)
  {
    hide Writes, EncodeAll, WritesAll;
    msgs := [];
    NothingWritten(container);
    for i := 0 to |ops|
      invariant buf.buf == old(buf.buf) + EncodeAll(msgs) && WritesAll(msgs, ops[..i], container)
    {
      ghost var more := DrainOne(buf, ops[i], container);
      EncodeMore(old(buf.buf), msgs, more);
      WritesSnoc(msgs, ops[..i], container, more, ops[i]);
      assert ops[..i + 1] == ops[..i] + [ops[i]];
      msgs := msgs + more;
    }
    assert ops[..|ops|] == ops;
  }

  lemma NothingWritten(container: uint32)
    ensures EncodeAll([]) == [] && WritesAll([], [], container)
  {
  }
}
