/**
 The If container as an object (pkg/dom/reactive.go): its observer, its queue, and the queue's draining.
 */
module Conditional {
  import opened Seqs
  import opened Ranges
  import opened Wire
  import opened Buffers
  import opened Dom
  import opened Trees
  import opened Emission
  import opened Mount
  import opened FlipStreams

  // ----------------------------------------------------- writing one subtree

  lemma {:induction false} InsertForestGrows(a: seq<Msg>, vs: seq<VNode>, b: seq<Msg>, v: VNode, parent: uint32)
    requires IsInsertForest(a, vs, parent) && IsInsertTree(b, v, parent)
    ensures IsInsertForest(a + b, vs + [v], parent)
    decreases vs
  {
    hide IsInsertTree;
    if vs == [] {
      assert (a + b)[..|b|] == b && (a + b)[|b|..] == [] && (vs + [v])[1..] == [];
      assert IsInsertForest([], [], parent);
    } else {
      var k :| 0 <= k <= |a| && IsInsertTree(a[..k], vs[0], parent) && IsInsertForest(a[k..], vs[1..], parent);
      InsertForestGrows(a[k..], vs[1..], b, v, parent);
      assert (a + b)[..k] == a[..k] && (a + b)[k..] == a[k..] + b && (vs + [v])[1..] == vs[1..] + [v];
    }
  }

  /** emitInsertTree: the node, then its children. */
  method EmitInsertTree(buf: Buffer, v: VNode, parent: uint32) returns (ghost msgs: seq<Msg>)
    modifies buf
    ensures IsInsertTree(msgs, v, parent)
    ensures buf.buf == old(buf.buf) + EncodeAll(msgs)
    decreases v
  {
    hide Body, Frame, IsOrder, FromPairs, EncodeAll, IsInsertForest;
    InsertNone();
    ghost var start := buf.buf;
    match v
    case VText(id, text) =>
      buf.EncodeInsertText(id, parent, text);
      msgs := [InsertText(id, parent, text)];
      EncodeFirst(start, msgs[0]);
    case VElem(id, tag, attrs, _, children) =>
      ghost var pairs := buf.EncodeInsertNode(id, parent, 0, tag, attrs);
      ghost var first := InsertNode(id, parent, 0, tag, pairs);
      EncodeFirst(start, first);
      ghost var below := [];
      ghost var prefix := buf.buf;
      for i := 0 to |children|
        invariant IsInsertForest(below, children[..i], id)
        invariant buf.buf == prefix + EncodeAll(below)
      {
        ghost var child := EmitInsertTree(buf, children[i], id);
        EncodeMore(prefix, below, child);
        InsertForestGrows(below, children[..i], child, children[i], id);
        assert children[..i + 1] == children[..i] + [children[i]];
        below := below + child;
      }
      assert children[..|children|] == children;
      msgs := [first] + below;
      EncodeMore(start, [first], below);
      InsertElem(msgs, v, parent, first, below);
  }

  lemma InsertNone()
    ensures EncodeAll([]) == [] && forall vs, parent :: vs == [] ==> IsInsertForest([], vs, parent)
  {
  }

  lemma {:induction false} InsertElem(msgs: seq<Msg>, v: VNode, parent: uint32, first: Msg, below: seq<Msg>)
    requires v.VElem? && IsInsert(first, v, parent) && IsInsertForest(below, v.children, v.id)
             && msgs == [first] + below
    ensures IsInsertTree(msgs, v, parent)
  {
    assert msgs[1..] == below;
  }

  // -------------------------------------------------------------- the queue

  /** A queued closure: a removal, if there was something to remove, or an insertion. */
  datatype Queued = Gone(old_: Option<VNode>) | Come(node: VNode)

  /** What the observer queues on the way from `cur` through `bs`. */
  function Queue(cur: Option<VNode>, bs: seq<Option<VNode>>): seq<Queued>
    decreases bs
  {
    if bs == [] then []
    else [Gone(cur)] + (if bs[0].Some? then [Come(bs[0].value)] else []) + Queue(bs[0], bs[1..])
  }

  function Current(cur: Option<VNode>, bs: seq<Option<VNode>>): Option<VNode> {
    if bs == [] then cur else bs[|bs| - 1]
  }

  lemma {:induction false} QueueSnoc(cur: Option<VNode>, bs: seq<Option<VNode>>, b: Option<VNode>)
    ensures Queue(cur, bs + [b])
            == Queue(cur, bs) + [Gone(Current(cur, bs))] + (if b.Some? then [Come(b.value)] else [])
    decreases bs
  {
    if bs == [] {
      assert [b][1..] == [];
    } else {
      assert (bs + [b])[1..] == bs[1..] + [b] && (bs + [b])[0] == bs[0];
      QueueSnoc(bs[0], bs[1..], b);
    }
  }

  lemma NothingQueued(cur: Option<VNode>)
    ensures Queue(cur, []) == []
  {
  }

  /** What the queue writes when the container's child is `now`. */
  ghost predicate Drained(msgs: seq<Msg>, queue: seq<Queued>, container: uint32, now: Option<VNode>)
    decreases queue
  {
    if queue == [] then msgs == []
    else exists k :: 0 <= k <= |msgs| && DrainedOne(msgs[..k], queue[0], container, now)
                     && Drained(msgs[k..], queue[1..], container, now)
  }

  ghost predicate DrainedOne(msgs: seq<Msg>, q: Queued, container: uint32, now: Option<VNode>) {
    match q
    case Gone(old_) => msgs == Drop(old_)
    case Come(v) => IsInsertTree(msgs, v, if now == Some(v) then container else 0)
  }

  lemma {:induction false} DrainedSnoc(msgs: seq<Msg>, queue: seq<Queued>, container: uint32, now: Option<VNode>,
                                       more: seq<Msg>, q: Queued)
    requires Drained(msgs, queue, container, now) && DrainedOne(more, q, container, now)
    ensures Drained(msgs + more, queue + [q], container, now)
    decreases queue
  {
    hide DrainedOne;
    var all := msgs + more;
    if queue == [] {
      assert [q][1..] == [] && all[..|more|] == more && all[|more|..] == [];
    } else {
      var k :| 0 <= k <= |msgs| && DrainedOne(msgs[..k], queue[0], container, now)
               && Drained(msgs[k..], queue[1..], container, now);
      DrainedSnoc(msgs[k..], queue[1..], container, now, more, q);
      assert all[..k] == msgs[..k] && all[k..] == msgs[k..] + more;
      assert (queue + [q])[1..] == queue[1..] + [q] && (queue + [q])[0] == queue[0];
    }
  }

  /** A drained queue is the stream of its flips. */
  lemma {:induction false} QueueIsStream(msgs: seq<Msg>, cur: Option<VNode>, bs: seq<Option<VNode>>, container: uint32,
                                         now: Option<VNode>)
    requires Drained(msgs, Queue(cur, bs), container, now) && (bs != [] ==> now == Last(bs))
    ensures FlipStream(msgs, container, cur, bs)
    decreases bs
  {
    if bs != [] {
      var q := Queue(cur, bs);
      assert q[0] == Gone(cur);
      var k :| 0 <= k <= |msgs| && DrainedOne(msgs[..k], q[0], container, now)
        && Drained(msgs[k..], q[1..], container, now);
      assert msgs[..k] == Drop(cur) && k == |Drop(cur)|;
      hide Drained;
      QueueShown(msgs[k..], cur, bs, container, now);
    }
  }

  lemma {:induction false} QueueShown(msgs: seq<Msg>, cur: Option<VNode>, bs: seq<Option<VNode>>, container: uint32,
                                      now: Option<VNode>)
    requires bs != [] && now == Last(bs) && Drained(msgs, Queue(cur, bs)[1..], container, now)
    ensures FlipsFrom(msgs, container, bs)
    decreases bs, 0
  {
    var rest := Queue(bs[0], bs[1..]);
    hide Queue;
    if bs[0].Some? {
      var q := [Come(bs[0].value)] + rest;
      assert Queue(cur, bs)[1..] == q by { QueueTail(cur, bs); }
      assert q[1..] == rest;
      var j :| 0 <= j <= |msgs| && DrainedOne(msgs[..j], q[0], container, now)
        && Drained(msgs[j..], q[1..], container, now);
      QueueIsStream(msgs[j..], bs[0], bs[1..], container, now);
    } else {
      assert Queue(cur, bs)[1..] == rest by { QueueTail(cur, bs); }
      assert msgs[0..] == msgs && msgs[..0] == [];
      QueueIsStream(msgs[0..], bs[0], bs[1..], container, now);
    }
  }

  lemma QueueTail(cur: Option<VNode>, bs: seq<Option<VNode>>)
    requires bs != []
    ensures Queue(cur, bs)[1..] == (if bs[0].Some? then [Come(bs[0].value)] else []) + Queue(bs[0], bs[1..])
  {
  }

  // ------------------------------------------------------------ the container

  class Container {
    const id: uint32
    var active: bool
    var current: Option<VNode>
    var children: seq<VNode>
    var pending: seq<Queued>
    var dirty: bool
    ghost var flushed: Option<VNode>          // the child when the queue was last drained
    ghost var flips: seq<Option<VNode>>       // what came after it

    ghost predicate Valid()
      reads this
    {
      && children == Listed(current)
      && pending == Queue(flushed, flips) && current == Current(flushed, flips)
      && (flips != [] ==> dirty)
    }

    constructor (id: uint32, active: bool, branch: Option<VNode>)
      ensures Valid() && this.id == id && this.active == active && current == branch
      ensures flushed == branch && flips == []
    {
      this.id, this.active, current, children := id, active, branch, Listed(branch);
      pending, dirty := [], false;
      flushed, flips := branch, [];
    }

    /**
     The signal's observer; `branch` is what the branch function of the new
     condition renders, if there is one.
     */
    method Observe(newActive: bool, branch: Option<VNode>)
      requires Valid()
      modifies this
      ensures Valid() && active == newActive && flushed == old(flushed)
      ensures newActive == old(active) ==> flips == old(flips) && pending == old(pending) && children == old(children)
      ensures newActive != old(active) ==> flips == old(flips) + [branch] && children == Listed(branch) && dirty
    {
      if newActive == active {
        return;
      }
      active := newActive;
      var oldChild := current;
      current := None;
      pending := pending + [Gone(oldChild)];
      if oldChild.Some? {
        children := [];
      }
      if branch.Some? {
        children := children + [branch.value];
        current := branch;
        pending := pending + [Come(branch.value)];
      }
      dirty := true;
      QueueSnoc(flushed, flips, branch);
      flips := flips + [branch];
    }

    /** The flush runs every queued closure; an insertion asks for the node's parent now. */
    method Drain(buf: Buffer) returns (ghost msgs: seq<Msg>)
      requires Valid()
      modifies this, buf
      ensures Valid() && flips == [] && flushed == current == old(current) && children == old(children)
      ensures buf.buf == old(buf.buf) + EncodeAll(msgs)
      ensures FlipStream(msgs, id, old(flushed), old(flips))
    {
      hide Drained, FlipStream, Queue, EncodeAll;
      msgs := DrainAll(buf);
      QueueIsStream(msgs, flushed, flips, id, current);
      pending := [];
      dirty := false;
      flushed, flips := current, [];
      NothingQueued(current);
    }

    method DrainAll(buf: Buffer) returns (ghost msgs: seq<Msg>)
      requires children == Listed(current)
      modifies buf
      ensures buf.buf == old(buf.buf) + EncodeAll(msgs) && Drained(msgs, pending, id, current)
    {
      hide DrainedOne, Body, Frame;
      msgs := [];
      for i := 0 to |pending|
        invariant buf.buf == old(buf.buf) + EncodeAll(msgs)
        invariant Drained(msgs, pending[..i], id, current)
      {
        ghost var more := DrainOne(buf, pending[i]);
        EncodeAllSplit(msgs, more);
        DrainedSnoc(msgs, pending[..i], id, current, more, pending[i]);
        assert pending[..i + 1] == pending[..i] + [pending[i]];
        msgs := msgs + more;
      }
      assert pending[..|pending|] == pending;
    }

    method DrainOne(buf: Buffer, q: Queued) returns (ghost msgs: seq<Msg>)
      requires children == Listed(current)
      modifies buf
      ensures buf.buf == old(buf.buf) + EncodeAll(msgs) && DrainedOne(msgs, q, id, current)
    {
      match q
      case Gone(old_) =>
        msgs := [];
        if old_.Some? {
          buf.EncodeRemoveNode(old_.value.id);
          msgs := [RemoveNode(old_.value.id)];
          EncodeOne(msgs[0]);
        }
      case Come(v) =>
        msgs := EmitInsertTree(buf, v, if v in children then id else 0);
    }
  }
}
