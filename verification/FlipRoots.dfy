module FlipRoots {
  // Which branches a flush of a one-child container inserts below what, and which it
  // removes, in order (queueInsert and the If observer of pkg/dom/reactive.go).

  import opened Seqs
  import opened Wire
  import opened Dom
  import opened Trees
  import opened Emission
  import opened FlipStreams

  function Inserts(m: Msg, parent: uint32): seq<uint32> {
    if (m.InsertNode? || m.InsertText?) && m.parent == parent then [m.node] else []
  }

  function Removes(m: Msg): seq<uint32> {
    if m.RemoveNode? then [m.node] else []
  }

  /** The nodes inserted below `parent`, in order. */
  function InsertedBelow(msgs: seq<Msg>, parent: uint32): seq<uint32> {
    if msgs == [] then [] else Inserts(msgs[0], parent) + InsertedBelow(msgs[1..], parent)
  }

  /** The nodes removed, in order. */
  function RemovedIds(msgs: seq<Msg>): seq<uint32> {
    if msgs == [] then [] else Removes(msgs[0]) + RemovedIds(msgs[1..])
  }

  /** The roots of those among `bs` that are `last`, or of the others. */
  function RootsOf(bs: seq<Option<VNode>>, last: Option<VNode>, same: bool): seq<uint32> {
    if bs == [] then []
    else (if bs[0].Some? && (bs[0] == last) == same then [bs[0].value.id] else []) + RootsOf(bs[1..], last, same)
  }

  /** The roots of all of them. */
  function Roots(bs: seq<Option<VNode>>): seq<uint32> {
    if bs == [] then [] else (if bs[0].Some? then [bs[0].value.id] else []) + Roots(bs[1..])
  }

  lemma {:induction false} InsertedSplit(a: seq<Msg>, b: seq<Msg>, parent: uint32)
    ensures InsertedBelow(a + b, parent) == InsertedBelow(a, parent) + InsertedBelow(b, parent)
    ensures RemovedIds(a + b) == RemovedIds(a) + RemovedIds(b)
    decreases a
  {
    hide Inserts, Removes;
    if a == [] {
      assert a + b == b;
    } else {
      assert (a + b)[1..] == a[1..] + b && (a + b)[0] == a[0];
      InsertedSplit(a[1..], b, parent);
      Regroup(Inserts(a[0], parent), InsertedBelow(a[1..], parent), InsertedBelow(b, parent));
      Regroup(Removes(a[0]), RemovedIds(a[1..]), RemovedIds(b));
    }
  }

  /** The insertion of a tree names the given parent once, for its root, and nothing outside the tree otherwise. */
  lemma {:induction false} TreeRoot(msgs: seq<Msg>, v: VNode, parent: uint32, p: uint32)
    requires IsInsertTree(msgs, v, parent) && p !in Ids(v)
    ensures InsertedBelow(msgs, p) == (if p == parent then [v.id] else []) && RemovedIds(msgs) == []
    decreases v
  {
    match v
    case VText(_, _) =>
      assert msgs[1..] == [];
    case VElem(id, _, _, _, children) =>
      ForestRoots(msgs[1..], children, id, p);
  }

  lemma {:induction false} ForestRoots(msgs: seq<Msg>, vs: seq<VNode>, parent: uint32, p: uint32)
    requires IsInsertForest(msgs, vs, parent) && p !in IdsOf(vs) && p != parent
    ensures InsertedBelow(msgs, p) == [] && RemovedIds(msgs) == []
    decreases vs
  {
    if vs != [] {
      var front, rest := InsertSplit(msgs, vs, parent);
      hide IsInsertTree, IsInsertForest, InsertedBelow, RemovedIds;
      TreeRoot(front, vs[0], parent, p);
      ForestRoots(rest, vs[1..], parent, p);
      InsertedSplit(front, rest, p);
    }
  }

  /** `p` is the id of none of the branches' nodes. */
  ghost predicate NotAmong(p: uint32, bs: seq<Option<VNode>>) {
    forall i | 0 <= i < |bs| && bs[i].Some? :: p !in Ids(bs[i].value)
  }

  lemma {:induction false} ShowRoots(msgs: seq<Msg>, b: Option<VNode>, parent: uint32, p: uint32)
    requires IsShow(msgs, b, parent) && (b.Some? ==> p !in Ids(b.value))
    ensures InsertedBelow(msgs, p) == (if b.Some? && p == parent then [b.value.id] else []) && RemovedIds(msgs) == []
  {
    if b.Some? {
      TreeRoot(msgs, b.value, parent, p);
    }
  }

  lemma DropRoots(b: Option<VNode>, p: uint32)
    ensures InsertedBelow(Drop(b), p) == [] && RemovedIds(Drop(b)) == Roots([b])
  {
    assert [b][1..] == [];
    if b.Some? {
      assert Drop(b)[1..] == [];
    }
  }

  /** What the first branch adds. */
  lemma {:induction false} StreamStep(msgs: seq<Msg>, container: uint32, cur: Option<VNode>, bs: seq<Option<VNode>>,
                                      p: uint32) returns (rest: seq<Msg>)
    requires FlipStream(msgs, container, cur, bs) && bs != [] && NotAmong(p, bs)
    ensures FlipStream(rest, container, bs[0], bs[1..]) && NotAmong(p, bs[1..])
    ensures InsertedBelow(msgs, p)
            == (if bs[0].Some? && p == ParentAtFlush(container, bs) then [bs[0].value.id] else [])
               + InsertedBelow(rest, p)
    ensures RemovedIds(msgs) == Roots([cur]) + RemovedIds(rest)
  {
    hide *;
    var more := StreamSplit(msgs, container, cur, bs);
    var front;
    front, rest := ShowSplit(more, container, bs);
    NotAmongFirst(p, bs);
    ShowRoots(front, bs[0], ParentAtFlush(container, bs), p);
    DropRoots(cur, p);
    InsertedSplit(Drop(cur), more, p);
    InsertedSplit(front, rest, p);
  }

  lemma {:induction false} FlipInserted(msgs: seq<Msg>, container: uint32, cur: Option<VNode>,
                                        bs: seq<Option<VNode>>, p: uint32)
    requires FlipStream(msgs, container, cur, bs) && bs != []
    requires container != 0 && NotAmong(p, bs) && (p == container || p == 0)
    ensures InsertedBelow(msgs, p) == RootsOf(bs, bs[|bs| - 1], p == container)
    decreases bs
  {
    hide *;
    var rest := StreamStep(msgs, container, cur, bs, p);
    ParentIs(container, bs);
    RootsFirst(bs, bs[|bs| - 1], p == container);
    if |bs| == 1 {
      NothingMore(rest, container, bs[0], bs[1..], p);
    } else {
      FlipInserted(rest, container, bs[0], bs[1..], p);
    }
  }

  lemma {:induction false} FlipRemoved(msgs: seq<Msg>, container: uint32, cur: Option<VNode>, bs: seq<Option<VNode>>)
    requires FlipStream(msgs, container, cur, bs) && bs != [] && NotAmong(0, bs)
    ensures RemovedIds(msgs) == Roots([cur] + bs[..|bs| - 1])
    decreases bs
  {
    hide *;
    var rest := StreamStep(msgs, container, cur, bs, 0);
    if |bs| == 1 {
      NothingMore(rest, container, bs[0], bs[1..], 0);
      OneRemoved(cur, bs);
      assert Roots([cur]) + [] == Roots([cur]);
    } else {
      FlipRemoved(rest, container, bs[0], bs[1..]);
      RemovedFirst(cur, bs);
    }
  }

  /**
   One flush of a container that went from `cur` through `bs`: below the container it
   inserts the branch shown last, as often as it occurs, and every other one below 0;
   it removes the first branch and each one that another followed, in order.
   */
  lemma {:induction false} FlipRootsAre(msgs: seq<Msg>, container: uint32, cur: Option<VNode>, bs: seq<Option<VNode>>)
    requires FlipStream(msgs, container, cur, bs) && bs != []
    requires container != 0 && NotAmong(container, bs) && NotAmong(0, bs)
    ensures InsertedBelow(msgs, container) == RootsOf(bs, bs[|bs| - 1], true)
    ensures InsertedBelow(msgs, 0) == RootsOf(bs, bs[|bs| - 1], false)
    ensures RemovedIds(msgs) == Roots([cur] + bs[..|bs| - 1])
  {
    hide *;
    FlipInserted(msgs, container, cur, bs, container);
    FlipInserted(msgs, container, cur, bs, 0);
    FlipRemoved(msgs, container, cur, bs);
  }

  lemma NotAmongFirst(p: uint32, bs: seq<Option<VNode>>)
    requires bs != [] && NotAmong(p, bs)
    ensures (bs[0].Some? ==> p !in Ids(bs[0].value)) && NotAmong(p, bs[1..])
  {
  }

  lemma ParentIs(container: uint32, bs: seq<Option<VNode>>)
    requires bs != []
    ensures ParentAtFlush(container, bs) == if bs[0] == bs[|bs| - 1] then container else 0
  {
  }

  lemma RootsFirst(bs: seq<Option<VNode>>, last: Option<VNode>, same: bool)
    requires bs != []
    ensures RootsOf(bs, last, same)
            == (if bs[0].Some? && (bs[0] == last) == same then [bs[0].value.id] else []) + RootsOf(bs[1..], last, same)
    ensures |bs| == 1 ==> RootsOf(bs[1..], last, same) == []
  {
  }

  lemma NothingMore(rest: seq<Msg>, container: uint32, cur: Option<VNode>, bs: seq<Option<VNode>>, p: uint32)
    requires FlipStream(rest, container, cur, bs) && bs == []
    ensures rest == [] && InsertedBelow(rest, p) == [] && RemovedIds(rest) == []
  {
  }

  lemma OneRemoved(cur: Option<VNode>, bs: seq<Option<VNode>>)
    requires |bs| == 1
    ensures Roots([cur] + bs[..0]) == Roots([cur])
  {
    assert [cur] + bs[..0] == [cur];
  }

  lemma RemovedFirst(cur: Option<VNode>, bs: seq<Option<VNode>>)
    requires |bs| > 1
    ensures Roots([cur] + bs[..|bs| - 1]) == Roots([cur]) + Roots([bs[0]] + bs[1..][..|bs| - 2])
  {
    var all := [cur] + bs[..|bs| - 1];
    assert all[1..] == [bs[0]] + bs[1..][..|bs| - 2];
    assert [cur][1..] == [];
  }
}
