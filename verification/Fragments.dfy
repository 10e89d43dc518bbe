/** flushDeferredInserts (pkg/wasm/patch.go:64-98): fragments do what appending node after node does. */
module Fragments {
  import opened Seqs
  import opened Wire
  import opened Dom
  import opened Client

  datatype Frag = Frag(parent: uint32, kids: seq<Ref>)

  /** Where the children of a parent id go. */
  function Target(nodes: map<uint32, Ref>, parent: uint32): Option<Ref> {
    if parent in nodes then Some(nodes[parent]) else if parent == 0 then Some(ROOT) else None
  }

  // ----------------------------------------------------------------- gathering

  /** A node appended to a fragment leaves the one it was in. */
  function DropFrom(fs: seq<Frag>, r: Ref): (s: seq<Frag>)
    ensures |s| == |fs| && forall i | 0 <= i < |fs| :: s[i] == Frag(fs[i].parent, Without(fs[i].kids, r))
  {
    seq(|fs|, i requires 0 <= i < |fs| => Frag(fs[i].parent, Without(fs[i].kids, r)))
  }

  /** The fragment for `parent`, made if there is none yet. */
  function Ensure(fs: seq<Frag>, parent: uint32): seq<Frag> {
    if exists i :: 0 <= i < |fs| && fs[i].parent == parent then fs else fs + [Frag(parent, [])]
  }

  function PutIn(fs: seq<Frag>, parent: uint32, r: Ref): seq<Frag> {
    if fs == [] then []
    else if fs[0].parent == parent then [Frag(parent, fs[0].kids + [r])] + fs[1..]
    else [fs[0]] + PutIn(fs[1..], parent, r)
  }

  datatype Gathering = Gathering(heap: Heap, frags: seq<Frag>)

  function Gather(nodes: map<uint32, Ref>, g: Gathering, d: Deferred): Gathering {
    var fs := Ensure(g.frags, d.parent);
    if d.node in nodes then
      var r := nodes[d.node];
      Gathering(Detach(g.heap, r), PutIn(DropFrom(fs, r), d.parent, r))
    else g.(frags := fs)
  }

  function GatherAll(nodes: map<uint32, Ref>, g: Gathering, ds: seq<Deferred>): Gathering
    decreases ds
  {
    if ds == [] then g else GatherAll(nodes, Gather(nodes, g, ds[0]), ds[1..])
  }

  // ----------------------------------------------------------------- attaching

  function AppendAll(h: Heap, p: Ref, rs: seq<Ref>): Heap
    decreases rs
  {
    if rs == [] then h else AppendAll(Append(h, p, rs[0]), p, rs[1..])
  }

  function AttachFrag(nodes: map<uint32, Ref>, h: Heap, f: Frag): Heap {
    if Target(nodes, f.parent).Some? then AppendAll(h, Target(nodes, f.parent).value, f.kids) else h
  }

  function AttachAll(nodes: map<uint32, Ref>, h: Heap, fs: seq<Frag>): Heap
    decreases fs
  {
    if fs == [] then h else AttachAll(nodes, AttachFrag(nodes, h, fs[0]), fs[1..])
  }

  // ----------------------------------------------- what the fragments stand for

  /** The nodes waiting for `q`. */
  function FragKids(nodes: map<uint32, Ref>, fs: seq<Frag>, q: Ref): seq<Ref> {
    if fs == [] then []
    else (if Target(nodes, fs[0].parent) == Some(q) then fs[0].kids else []) + FragKids(nodes, fs[1..], q)
  }

  /** Different parent ids stand for different nodes. */
  ghost predicate Apart(nodes: map<uint32, Ref>) {
    && (forall i, j | i in nodes && j in nodes && nodes[i] == nodes[j] :: i == j)
    && (forall i | i in nodes :: nodes[i] != ROOT)
  }

  /** One fragment per parent, and no node twice. */
  ghost predicate Tidy(fs: seq<Frag>) {
    && (forall i, j | 0 <= i < j < |fs| :: fs[i].parent != fs[j].parent)
    && (forall i, j, x | 0 <= i < j < |fs| && x in fs[i].kids :: x !in fs[j].kids)
    && (forall i | 0 <= i < |fs| :: Distinct(fs[i].kids))
  }

  lemma {:induction false} NoneFor(nodes: map<uint32, Ref>, fs: seq<Frag>, parent: uint32, q: Ref)
    requires Apart(nodes) && Target(nodes, parent) == Some(q)
    requires forall i | 0 <= i < |fs| :: fs[i].parent != parent
    ensures FragKids(nodes, fs, q) == []
    decreases fs
  {
    if fs != [] {
      NoneFor(nodes, fs[1..], parent, q);
    }
  }

  lemma {:induction false} EnsuredKids(nodes: map<uint32, Ref>, fs: seq<Frag>, parent: uint32, q: Ref)
    ensures FragKids(nodes, Ensure(fs, parent), q) == FragKids(nodes, fs, q)
  {
    if !(exists i :: 0 <= i < |fs| && fs[i].parent == parent) {
      EmptyKids(nodes, fs, parent, q);
    }
  }

  lemma {:induction false} EmptyKids(nodes: map<uint32, Ref>, fs: seq<Frag>, parent: uint32, q: Ref)
    ensures FragKids(nodes, fs + [Frag(parent, [])], q) == FragKids(nodes, fs, q)
    decreases fs
  {
    if fs == [] {
      assert [Frag(parent, [])][1..] == [];
    } else {
      assert (fs + [Frag(parent, [])])[1..] == fs[1..] + [Frag(parent, [])];
      EmptyKids(nodes, fs[1..], parent, q);
    }
  }

  lemma {:induction false} DroppedKids(nodes: map<uint32, Ref>, fs: seq<Frag>, r: Ref, q: Ref)
    ensures FragKids(nodes, DropFrom(fs, r), q) == Without(FragKids(nodes, fs, q), r)
    decreases fs
  {
    if fs != [] {
      assert DropFrom(fs, r)[1..] == DropFrom(fs[1..], r);
      DroppedKids(nodes, fs[1..], r, q);
      var head := if Target(nodes, fs[0].parent) == Some(q) then fs[0].kids else [];
      WithoutSplit(head, FragKids(nodes, fs[1..], q), r);
    }
  }

  lemma {:induction false} PutKids(nodes: map<uint32, Ref>, fs: seq<Frag>, parent: uint32, r: Ref, q: Ref)
    requires Apart(nodes) && (forall i, j | 0 <= i < j < |fs| :: fs[i].parent != fs[j].parent)
    requires exists i :: 0 <= i < |fs| && fs[i].parent == parent
    ensures FragKids(nodes, PutIn(fs, parent, r), q)
            == FragKids(nodes, fs, q) + if Target(nodes, parent) == Some(q) then [r] else []
    decreases fs
  {
    var i :| 0 <= i < |fs| && fs[i].parent == parent;
    if fs[0].parent == parent {
      PutHead(nodes, fs, parent, r, q);
    } else {
      assert fs[1..][i - 1].parent == parent;
      PutKids(nodes, fs[1..], parent, r, q);
      PutRest(fs, parent, r);
      hide PutIn, Apart, Target;
      Regroup(if Target(nodes, fs[0].parent) == Some(q) then fs[0].kids else [], FragKids(nodes, fs[1..], q),
              if Target(nodes, parent) == Some(q) then [r] else []);
    }
  }

  lemma PutRest(fs: seq<Frag>, parent: uint32, r: Ref)
    requires fs != [] && fs[0].parent != parent
    ensures PutIn(fs, parent, r) != [] && PutIn(fs, parent, r)[0] == fs[0]
            && PutIn(fs, parent, r)[1..] == PutIn(fs[1..], parent, r)
  {
  }

  lemma {:induction false} PutHead(nodes: map<uint32, Ref>, fs: seq<Frag>, parent: uint32, r: Ref, q: Ref)
    requires Apart(nodes) && fs != [] && fs[0].parent == parent
    requires forall i | 0 < i < |fs| :: fs[i].parent != parent
    ensures FragKids(nodes, PutIn(fs, parent, r), q)
            == FragKids(nodes, fs, q) + if Target(nodes, parent) == Some(q) then [r] else []
  {
    assert PutIn(fs, parent, r)[1..] == fs[1..];
    if Target(nodes, parent) == Some(q) {
      NoneFor(nodes, fs[1..], parent, q);
    }
    hide PutIn, Apart, Target;
  }

  /** The parent id of the fragment a node is in. */
  function WaitingFor(fs: seq<Frag>, q: Ref): Option<uint32> {
    if fs == [] then None
    else if q in fs[0].kids then Some(fs[0].parent)
    else WaitingFor(fs[1..], q)
  }

  lemma {:induction false} EnsuredWaiting(fs: seq<Frag>, parent: uint32, q: Ref)
    ensures WaitingFor(Ensure(fs, parent), q) == WaitingFor(fs, q)
  {
    EmptyWaiting(fs, parent, q);
  }

  lemma {:induction false} EmptyWaiting(fs: seq<Frag>, parent: uint32, q: Ref)
    ensures WaitingFor(fs + [Frag(parent, [])], q) == WaitingFor(fs, q)
    decreases fs
  {
    if fs == [] {
      assert [Frag(parent, [])][1..] == [];
    } else {
      assert (fs + [Frag(parent, [])])[1..] == fs[1..] + [Frag(parent, [])];
      EmptyWaiting(fs[1..], parent, q);
    }
  }

  lemma {:induction false} DroppedWaiting(fs: seq<Frag>, r: Ref, q: Ref)
    ensures q != r ==> WaitingFor(DropFrom(fs, r), q) == WaitingFor(fs, q)
    ensures WaitingFor(DropFrom(fs, r), r) == None
    decreases fs
  {
    if fs != [] {
      assert DropFrom(fs, r)[1..] == DropFrom(fs[1..], r);
      DroppedWaiting(fs[1..], r, q);
    }
  }

  lemma {:induction false} PutWaiting(fs: seq<Frag>, parent: uint32, r: Ref, q: Ref)
    requires (exists i :: 0 <= i < |fs| && fs[i].parent == parent) && WaitingFor(fs, r) == None
    ensures WaitingFor(PutIn(fs, parent, r), q) == if q == r then Some(parent) else WaitingFor(fs, q)
    decreases fs
  {
    var i :| 0 <= i < |fs| && fs[i].parent == parent;
    if fs[0].parent == parent {
      assert PutIn(fs, parent, r)[1..] == fs[1..];
    } else {
      assert fs[1..][i - 1].parent == parent;
      PutWaiting(fs[1..], parent, r, q);
      assert PutIn(fs, parent, r)[1..] == PutIn(fs[1..], parent, r);
    }
  }

  // ----------------------------------------------------------- one node at a time

  lemma {:induction false} DetachKids(h: Heap, r: Ref, q: Ref)
    requires Forest(h) && r in h && q in h
    ensures Kids(Detach(h, r), q) == Without(Kids(h, q), r)
    ensures q in Detach(h, r) && Labels(h[q], Detach(h, r)[q])
    ensures ParentOf(Detach(h, r), q) == if q == r then None else ParentOf(h, q)
  {
    assert NodeOk(h, r) && NodeOk(h, q);
    if r !in Kids(h, q) {
      WithoutAbsent(Kids(h, q), r);
    }
  }

  /** The same node but for its place and children. */
  ghost predicate Labels(e: Elem, e': Elem) {
    e' == e.(children := e'.children, parent := e'.parent)
  }

  lemma {:induction false} AppendKids(h: Heap, p: Ref, r: Ref, q: Ref)
    requires Forest(h) && r in h && p in h && q in h && p != r
    ensures Kids(Append(h, p, r), q) == Without(Kids(h, q), r) + if q == p then [r] else []
    ensures q in Append(h, p, r) && Labels(h[q], Append(h, p, r)[q])
    ensures ParentOf(Append(h, p, r), q) == if q == r then Some(p) else ParentOf(h, q)
  {
    DetachKids(h, r, q);
    DetachKids(h, r, p);
    hide Forest, Detach, Without;
    assert r != q ==> Kids(Append(h, p, r), q) == Without(Kids(h, q), r) + if q == p then [r] else [];
  }

  // ---------------------------------------------------- fragments and attached nodes

  /** `s` is `g` with every fragment attached. */
  ghost predicate SameKids(nodes: map<uint32, Ref>, g: Gathering, s: Heap) {
    forall q | q in s :: Kids(s, q) == Kids(g.heap, q) + FragKids(nodes, g.frags, q)
  }

  ghost predicate SameParents(nodes: map<uint32, Ref>, g: Gathering, s: Heap) {
    forall q | q in s ::
      match WaitingFor(g.frags, q)
      case None => ParentOf(s, q) == ParentOf(g.heap, q)
      case Some(p) => ParentOf(g.heap, q) == None && ParentOf(s, q) == Target(nodes, p)
  }

  ghost predicate SameLabels(g: Gathering, s: Heap) {
    s.Keys == g.heap.Keys && forall q | q in s && q in g.heap :: Labels(g.heap[q], s[q])
  }

  /** What waits are nodes of the page, none of them the root or its own parent. */
  ghost predicate FragOk(nodes: map<uint32, Ref>, known: set<Ref>, f: Frag) {
    forall x | x in f.kids :: x in known && x != ROOT && Target(nodes, f.parent) != Some(x)
  }

  ghost predicate FragsOk(nodes: map<uint32, Ref>, known: set<Ref>, fs: seq<Frag>) {
    forall i | 0 <= i < |fs| :: FragOk(nodes, known, fs[i])
  }

  ghost predicate Waiters(nodes: map<uint32, Ref>, g: Gathering) {
    FragsOk(nodes, g.heap.Keys, g.frags)
  }

  lemma {:induction false} EnsureOk(nodes: map<uint32, Ref>, known: set<Ref>, fs: seq<Frag>, parent: uint32)
    requires FragsOk(nodes, known, fs)
    ensures FragsOk(nodes, known, Ensure(fs, parent))
  {
    assert FragOk(nodes, known, Frag(parent, []));
    hide FragOk;
  }

  lemma {:induction false} DropOk(nodes: map<uint32, Ref>, known: set<Ref>, fs: seq<Frag>, r: Ref)
    requires FragsOk(nodes, known, fs)
    ensures FragsOk(nodes, known, DropFrom(fs, r))
  {
    forall i | 0 <= i < |fs| ensures FragOk(nodes, known, DropFrom(fs, r)[i]) {
      assert FragOk(nodes, known, fs[i]);
    }
  }

  lemma {:induction false} PutOk(nodes: map<uint32, Ref>, known: set<Ref>, fs: seq<Frag>, parent: uint32, r: Ref)
    requires FragsOk(nodes, known, fs) && r in known && r != ROOT && Target(nodes, parent) != Some(r)
    requires exists i :: 0 <= i < |fs| && fs[i].parent == parent
    ensures FragsOk(nodes, known, PutIn(fs, parent, r))
  {
    var k := PutAt(fs, parent, r);
    hide PutIn;
    assert FragOk(nodes, known, fs[k]);
    assert FragOk(nodes, known, Frag(parent, fs[k].kids + [r]));
  }

  ghost predicate Mirrors(nodes: map<uint32, Ref>, g: Gathering, s: Heap) {
    && Forest(g.heap) && Forest(s) && Tidy(g.frags) && Waiters(nodes, g)
    && SameKids(nodes, g, s) && SameParents(nodes, g, s) && SameLabels(g, s)
  }

  /** One attachment, as `Settle` does it. */
  function SettleHeap(nodes: map<uint32, Ref>, h: Heap, d: Deferred): Heap {
    if d.node !in nodes then h
    else if Target(nodes, d.parent).Some? then Append(h, Target(nodes, d.parent).value, nodes[d.node])
    else Detach(h, nodes[d.node])
  }

  lemma SettleIs(c: Client, d: Deferred)
    ensures Settle(c, d) == c.(heap := SettleHeap(c.nodes, c.heap, d))
  {
    hide Append, Detach;
  }

  /** Registered nodes are on the page, and no node waits for itself. */
  ghost predicate Sound(nodes: map<uint32, Ref>, h: Heap, d: Deferred) {
    && Apart(nodes) && (forall i | i in nodes :: nodes[i] in h) && ROOT in h && d.node != d.parent
  }

  lemma {:induction false} TargetSound(nodes: map<uint32, Ref>, h: Heap, d: Deferred)
    requires Sound(nodes, h, d) && d.node in nodes
    ensures var p := Target(nodes, d.parent); p.Some? ==> p.value in h && p.value != nodes[d.node]
    ensures nodes[d.node] in h && nodes[d.node] != ROOT
  {
  }

  lemma {:induction false} EnsureTidy(fs: seq<Frag>, parent: uint32)
    requires Tidy(fs)
    ensures Tidy(Ensure(fs, parent))
    ensures exists i :: 0 <= i < |Ensure(fs, parent)| && Ensure(fs, parent)[i].parent == parent
  {
    var es := Ensure(fs, parent);
    if !(exists i :: 0 <= i < |fs| && fs[i].parent == parent) {
      assert es[|fs|] == Frag(parent, []);
      assert forall i | 0 <= i < |fs| :: es[i] == fs[i];
    }
  }

  lemma {:induction false} DropTidy(fs: seq<Frag>, r: Ref, parent: uint32)
    requires Tidy(fs) && exists i :: 0 <= i < |fs| && fs[i].parent == parent
    ensures Tidy(DropFrom(fs, r)) && forall i | 0 <= i < |fs| :: r !in DropFrom(fs, r)[i].kids
    ensures exists i :: 0 <= i < |DropFrom(fs, r)| && DropFrom(fs, r)[i].parent == parent
  {
    var i :| 0 <= i < |fs| && fs[i].parent == parent;
    var ds := DropFrom(fs, r);
    assert ds[i].parent == parent;
    forall k | 0 <= k < |fs| ensures Distinct(ds[k].kids) {
      WithoutDistinct(fs[k].kids, r);
    }
  }

  /** Putting a node into a fragment touches that fragment only. */
  lemma {:induction false} PutAt(fs: seq<Frag>, parent: uint32, r: Ref) returns (i: nat)
    requires exists i :: 0 <= i < |fs| && fs[i].parent == parent
    ensures i < |fs| && fs[i].parent == parent && PutIn(fs, parent, r) == fs[i := Frag(parent, fs[i].kids + [r])]
    decreases fs
  {
    var k :| 0 <= k < |fs| && fs[k].parent == parent;
    if fs[0].parent == parent {
      i := 0;
    } else {
      assert fs[1..][k - 1].parent == parent;
      i := PutAt(fs[1..], parent, r);
      i := i + 1;
    }
  }

  lemma {:induction false} PutTidy(fs: seq<Frag>, parent: uint32, r: Ref)
    requires Tidy(fs) && (forall i | 0 <= i < |fs| :: r !in fs[i].kids)
    requires exists i :: 0 <= i < |fs| && fs[i].parent == parent
    ensures Tidy(PutIn(fs, parent, r))
  {
    var i := PutAt(fs, parent, r);
    hide PutIn;
  }

  lemma {:induction false} GatherTidy(nodes: map<uint32, Ref>, g: Gathering, s: Heap, d: Deferred)
    requires Mirrors(nodes, g, s) && Sound(nodes, g.heap, d)
    ensures Tidy(Gather(nodes, g, d).frags)
  {
    hide Mirrors, Tidy, Ensure, DropFrom, PutIn, Detach;
    assert Tidy(g.frags) by { MirrorsTidy(nodes, g, s); }
    EnsureTidy(g.frags, d.parent);
    if d.node in nodes {
      var fs, r := Ensure(g.frags, d.parent), nodes[d.node];
      DropTidy(fs, r, d.parent);
      PutTidy(DropFrom(fs, r), d.parent, r);
    }
  }

  lemma MirrorsTidy(nodes: map<uint32, Ref>, g: Gathering, s: Heap)
    requires Mirrors(nodes, g, s)
    ensures Tidy(g.frags) && Forest(g.heap) && Forest(s) && s.Keys == g.heap.Keys && Waiters(nodes, g)
    ensures SameKids(nodes, g, s) && SameParents(nodes, g, s) && SameLabels(g, s)
  {
  }

  /** What the gathering of one node does to the fragments. */
  lemma {:induction false} GatherFrags(nodes: map<uint32, Ref>, fs: seq<Frag>, d: Deferred, q: Ref)
    requires Tidy(fs) && Apart(nodes) && d.node in nodes
    ensures var r := nodes[d.node];
            var gs := PutIn(DropFrom(Ensure(fs, d.parent), r), d.parent, r);
            && FragKids(nodes, gs, q)
               == Without(FragKids(nodes, fs, q), r) + (if Target(nodes, d.parent) == Some(q) then [r] else [])
            && WaitingFor(gs, q) == if q == r then Some(d.parent) else WaitingFor(fs, q)
  {
    hide Target, FragKids, WaitingFor, PutIn, DropFrom, Ensure, Without;
    var r, es := nodes[d.node], Ensure(fs, d.parent);
    EnsureTidy(fs, d.parent);
    DropTidy(es, r, d.parent);
    EnsuredKids(nodes, fs, d.parent, q);
    DroppedKids(nodes, es, r, q);
    PutKids(nodes, DropFrom(es, r), d.parent, r, q) by { TidyParents(DropFrom(es, r)); }
    EnsuredWaiting(fs, d.parent, q);
    DroppedWaiting(es, r, q);
    PutWaiting(DropFrom(es, r), d.parent, r, q);
  }

  lemma TidyParents(fs: seq<Frag>)
    requires Tidy(fs)
    ensures forall i, j | 0 <= i < j < |fs| :: fs[i].parent != fs[j].parent
  {
  }

  /** One node gathered, one node attached: the children of every node of the page. */
  lemma {:induction false} GatherKidsAt(nodes: map<uint32, Ref>, g: Gathering, s: Heap, d: Deferred, q: Ref)
    requires Mirrors(nodes, g, s) && Sound(nodes, g.heap, d) && d.node in nodes && q in s
    ensures var g', s' := Gather(nodes, g, d), SettleHeap(nodes, s, d);
            Kids(s', q) == Kids(g'.heap, q) + FragKids(nodes, g'.frags, q)
  {
    MirrorsTidy(nodes, g, s);
    TargetSound(nodes, g.heap, d);
    var r := nodes[d.node];
    assert Apart(nodes);
    var a, b := Kids(g.heap, q), FragKids(nodes, g.frags, q);
    assert Kids(s, q) == a + b;
    hide Mirrors, Forest, Tidy, Waiters, SameKids, SameLabels, SameParents, FragKids, WaitingFor, PutIn, DropFrom,
         Ensure, Without, Detach, Append, Kids, Target, Sound, Apart;
    GatherFrags(nodes, g.frags, d, q);
    DetachKids(g.heap, r, q);
    WithoutSplit(a, b, r);
    Regroup(Without(a, r), Without(b, r), if Target(nodes, d.parent) == Some(q) then [r] else []);
    if Target(nodes, d.parent).Some? {
      AppendKids(s, Target(nodes, d.parent).value, r, q);
    } else {
      DetachKids(s, r, q);
    }
  }

  /** And its place and label. */
  lemma {:induction false} GatherPlaceAt(nodes: map<uint32, Ref>, g: Gathering, s: Heap, d: Deferred, q: Ref)
    requires Mirrors(nodes, g, s) && Sound(nodes, g.heap, d) && d.node in nodes && q in s
    ensures var g', s' := Gather(nodes, g, d), SettleHeap(nodes, s, d);
            && q in s' && q in g'.heap && Labels(g'.heap[q], s'[q])
            && (match WaitingFor(g'.frags, q)
                case None => ParentOf(s', q) == ParentOf(g'.heap, q)
                case Some(p) => ParentOf(g'.heap, q) == None && ParentOf(s', q) == Target(nodes, p))
  {
    MirrorsTidy(nodes, g, s);
    TargetSound(nodes, g.heap, d);
    var r := nodes[d.node];
    assert Apart(nodes);
    assert Labels(g.heap[q], s[q]);
    hide Mirrors, Forest, Tidy, Waiters, SameKids, SameLabels, FragKids, WaitingFor, PutIn, DropFrom, Ensure, Without,
         Detach, Append, Kids, Target, Sound, Apart;
    GatherFrags(nodes, g.frags, d, q);
    DetachKids(g.heap, r, q);
    if Target(nodes, d.parent).Some? {
      AppendKids(s, Target(nodes, d.parent).value, r, q);
    } else {
      DetachKids(s, r, q);
    }
  }

  /** Gathering a node keeps the fragments in step with attaching it. */
  lemma {:induction false} GatherMirrors(nodes: map<uint32, Ref>, g: Gathering, s: Heap, d: Deferred)
    requires Mirrors(nodes, g, s) && Sound(nodes, g.heap, d) && d.node in nodes
    ensures Mirrors(nodes, Gather(nodes, g, d), SettleHeap(nodes, s, d))
    ensures Gather(nodes, g, d).heap.Keys == g.heap.Keys
  {
    hide Mirrors, Forest, Tidy, Waiters, Sound, Target, FragKids, WaitingFor, Gather, SettleHeap, Labels, Kids;
    var g', s' := Gather(nodes, g, d), SettleHeap(nodes, s, d);
    MirrorsTidy(nodes, g, s);
    HeapsKept(nodes, g, s, d);
    GatherTidy(nodes, g, s, d);
    GatherWaiters(nodes, g, s, d);
    forall q | q in s'
      ensures Kids(s', q) == Kids(g'.heap, q) + FragKids(nodes, g'.frags, q)
    {
      GatherKidsAt(nodes, g, s, d, q);
    }
    forall q | q in s'
      ensures q in g'.heap && Labels(g'.heap[q], s'[q])
      ensures match WaitingFor(g'.frags, q)
              case None => ParentOf(s', q) == ParentOf(g'.heap, q)
              case Some(p) => ParentOf(g'.heap, q) == None && ParentOf(s', q) == Target(nodes, p)
    {
      GatherPlaceAt(nodes, g, s, d, q);
    }
    MirrorsFrom(nodes, g', s');
  }

  lemma MirrorsFrom(nodes: map<uint32, Ref>, g: Gathering, s: Heap)
    requires Forest(g.heap) && Forest(s) && Tidy(g.frags) && Waiters(nodes, g) && s.Keys == g.heap.Keys
    requires forall q | q in s :: Kids(s, q) == Kids(g.heap, q) + FragKids(nodes, g.frags, q)
    requires forall q | q in s && q in g.heap :: Labels(g.heap[q], s[q])
    requires forall q | q in s ::
               match WaitingFor(g.frags, q)
               case None => ParentOf(s, q) == ParentOf(g.heap, q)
               case Some(p) => ParentOf(g.heap, q) == None && ParentOf(s, q) == Target(nodes, p)
    ensures Mirrors(nodes, g, s)
  {
  }

  lemma {:induction false} HeapsKept(nodes: map<uint32, Ref>, g: Gathering, s: Heap, d: Deferred)
    requires Mirrors(nodes, g, s) && Sound(nodes, g.heap, d) && d.node in nodes
    ensures var g', s' := Gather(nodes, g, d), SettleHeap(nodes, s, d);
            Forest(g'.heap) && Forest(s') && g'.heap.Keys == g.heap.Keys && s'.Keys == s.Keys
  {
    MirrorsTidy(nodes, g, s);
    TargetSound(nodes, g.heap, d);
    hide Mirrors, Forest, Tidy, Waiters, SameKids, SameLabels, SameParents, Detach, Append, Target, Sound, PutIn,
         DropFrom, Ensure;
    DetachForest(g.heap, nodes[d.node]);
    DetachForest(s, nodes[d.node]);
    if Target(nodes, d.parent).Some? {
      AppendForest(s, Target(nodes, d.parent).value, nodes[d.node]);
    }
  }

  lemma {:induction false} GatherWaiters(nodes: map<uint32, Ref>, g: Gathering, s: Heap, d: Deferred)
    requires Mirrors(nodes, g, s) && Sound(nodes, g.heap, d) && d.node in nodes
    ensures Waiters(nodes, Gather(nodes, g, d))
  {
    MirrorsTidy(nodes, g, s);
    TargetSound(nodes, g.heap, d);
    hide Mirrors, Forest, Tidy, SameKids, SameLabels, SameParents, Detach, Target, Sound, PutIn, Ensure, FragsOk,
         DropFrom;
    HeapsKept(nodes, g, s, d);
    var fs, r := Ensure(g.frags, d.parent), nodes[d.node];
    EnsureTidy(g.frags, d.parent);
    DropTidy(fs, r, d.parent);
    EnsureOk(nodes, g.heap.Keys, g.frags, d.parent);
    DropOk(nodes, g.heap.Keys, fs, r);
    PutOk(nodes, g.heap.Keys, DropFrom(fs, r), d.parent, r);
  }

  /** A deferred entry whose node is no longer registered only makes room for a fragment. */
  lemma {:induction false} SkipMirrors(nodes: map<uint32, Ref>, g: Gathering, s: Heap, d: Deferred)
    requires Mirrors(nodes, g, s) && d.node !in nodes
    ensures Mirrors(nodes, Gather(nodes, g, d), SettleHeap(nodes, s, d))
  {
    MirrorsTidy(nodes, g, s);
    EnsureTidy(g.frags, d.parent);
    EnsureOk(nodes, g.heap.Keys, g.frags, d.parent);
    hide Mirrors, Forest, Tidy, Ensure, Target, FragKids, WaitingFor, FragsOk, Labels, Kids;
    var fs := Ensure(g.frags, d.parent);
    forall q | q in s
      ensures FragKids(nodes, fs, q) == FragKids(nodes, g.frags, q) && WaitingFor(fs, q) == WaitingFor(g.frags, q)
    {
      EnsuredKids(nodes, g.frags, d.parent, q);
      EnsuredWaiting(g.frags, d.parent, q);
    }
    MirrorsFrom(nodes, g.(frags := fs), s);
  }

  // ---------------------------------------------------------------- all of them

  ghost predicate SoundAll(nodes: map<uint32, Ref>, keys: set<Ref>, ds: seq<Deferred>) {
    && Apart(nodes) && (forall i | i in nodes :: nodes[i] in keys) && ROOT in keys
    && (forall d | d in ds :: d.node != d.parent)
  }

  function SettleHeaps(nodes: map<uint32, Ref>, h: Heap, ds: seq<Deferred>): Heap
    decreases ds
  {
    if ds == [] then h else SettleHeaps(nodes, SettleHeap(nodes, h, ds[0]), ds[1..])
  }

  lemma {:induction false} GatherAllMirrors(nodes: map<uint32, Ref>, g: Gathering, s: Heap, ds: seq<Deferred>)
    requires Mirrors(nodes, g, s) && SoundAll(nodes, g.heap.Keys, ds)
    ensures Mirrors(nodes, GatherAll(nodes, g, ds), SettleHeaps(nodes, s, ds))
    decreases ds
  {
    hide Mirrors, Gather, SettleHeap, Apart;
    if ds != [] {
      var d := ds[0];
      assert d in ds && Sound(nodes, g.heap, d);
      if d.node in nodes {
        GatherMirrors(nodes, g, s, d);
      } else {
        SkipMirrors(nodes, g, s, d);
        SkipKeys(nodes, g, d);
      }
      assert forall e | e in ds[1..] :: e in ds;
      GatherAllMirrors(nodes, Gather(nodes, g, d), SettleHeap(nodes, s, d), ds[1..]);
    }
  }

  lemma SkipKeys(nodes: map<uint32, Ref>, g: Gathering, d: Deferred)
    requires d.node !in nodes
    ensures Gather(nodes, g, d).heap == g.heap
  {
  }

  /** A fragment's nodes, appended one after the other. */
  lemma {:induction false} AppendAllAt(h: Heap, p: Ref, rs: seq<Ref>, q: Ref)
    requires Forest(h) && p in h && q in h && Distinct(rs)
    requires forall r | r in rs :: r in h && r != ROOT && r != p && h[r].parent == None
    ensures Forest(AppendAll(h, p, rs)) && AppendAll(h, p, rs).Keys == h.Keys
    ensures Kids(AppendAll(h, p, rs), q) == Kids(h, q) + if q == p then rs else []
    ensures ParentOf(AppendAll(h, p, rs), q) == if q in rs then Some(p) else ParentOf(h, q)
    ensures Labels(h[q], AppendAll(h, p, rs)[q])
    decreases rs
  {
    hide Forest, Append, Labels, Kids;
    if rs == [] {
      LabelsSelf(h[q]);
      assert Kids(h, q) + [] == Kids(h, q);
    } else {
      var r := rs[0];
      var h1 := Append(h, p, r);
      assert r in rs;
      LooseAppended(h, p, r, q);
      forall x | x in rs[1..] ensures x in h1 && x != ROOT && x != p && h1[x].parent == None {
        assert x in rs && x != r;
        LooseAppended(h, p, r, x);
      }
      LooseAppended(h, p, r, p);
      AppendAllAt(h1, p, rs[1..], q);
      assert q in rs <==> q == r || q in rs[1..];
      LabelsThen(h[q], h1[q], AppendAll(h1, p, rs[1..])[q]);
      Regroup(Kids(h, q), if q == p then [r] else [], if q == p then rs[1..] else []);
      assert [r] + rs[1..] == rs;
    }
  }

  lemma LabelsSelf(e: Elem)
    ensures Labels(e, e)
  {
  }

  lemma LabelsThen(a: Elem, b: Elem, c: Elem)
    requires Labels(a, b) && Labels(b, c)
    ensures Labels(a, c)
  {
  }

  lemma {:induction false} LooseAppended(h: Heap, p: Ref, r: Ref, q: Ref)
    requires Forest(h) && p in h && r in h && q in h && r != ROOT && r != p && h[r].parent == None
    ensures var h1 := Append(h, p, r);
            && Forest(h1) && h1.Keys == h.Keys && Labels(h[q], h1[q])
            && Kids(h1, q) == Kids(h, q) + (if q == p then [r] else [])
            && ParentOf(h1, q) == if q == r then Some(p) else ParentOf(h, q)
  {
    AttachForest(h, p, r);
    AppendLoose(h, p, r);
    hide Forest, Append;
    assert Kids(h, q) + [] == Kids(h, q);
  }

  /** One fragment attached: the remaining ones are in step with the rest. */
  lemma {:induction false} AttachOne(nodes: map<uint32, Ref>, h: Heap, fs: seq<Frag>, s: Heap)
    requires Mirrors(nodes, Gathering(h, fs), s) && fs != [] && Apart(nodes) && ROOT in h
             && forall i | i in nodes :: nodes[i] in h
    ensures Mirrors(nodes, Gathering(AttachFrag(nodes, h, fs[0]), fs[1..]), s)
    ensures AttachFrag(nodes, h, fs[0]).Keys == h.Keys
  {
    var f, g, h' := fs[0], Gathering(h, fs), AttachFrag(nodes, h, fs[0]);
    MirrorsTidy(nodes, g, s);
    TidyTail(fs);
    OkTail(nodes, h.Keys, fs);
    FragReady(nodes, h, fs, s);
    hide Mirrors, Forest, Tidy, FragsOk, FragKids, WaitingFor, SameKids, SameParents, SameLabels, AppendAll, Labels,
         Kids, FragOk;
    AttachKeys(nodes, h, fs, s);
    forall q | q in s
      ensures Kids(s, q) == Kids(h', q) + FragKids(nodes, fs[1..], q) && Labels(h'[q], s[q])
      ensures match WaitingFor(fs[1..], q)
              case None => ParentOf(s, q) == ParentOf(h', q)
              case Some(p) => ParentOf(h', q) == None && ParentOf(s, q) == Target(nodes, p)
    {
      AttachAt(nodes, h, fs, s, q);
    }
    MirrorsFrom(nodes, Gathering(h', fs[1..]), s);
  }

  lemma {:induction false} TidyTail(fs: seq<Frag>)
    requires Tidy(fs) && fs != []
    ensures Tidy(fs[1..]) && Distinct(fs[0].kids) && forall x | x in fs[0].kids :: WaitingFor(fs[1..], x) == None
  {
    forall x | x in fs[0].kids ensures WaitingFor(fs[1..], x) == None {
      assert forall j | 0 <= j < |fs[1..]| :: fs[1..][j] == fs[j + 1];
      NotWaiting(fs[1..], x);
    }
  }

  lemma {:induction false} NotWaiting(fs: seq<Frag>, x: Ref)
    requires forall j | 0 <= j < |fs| :: x !in fs[j].kids
    ensures WaitingFor(fs, x) == None
    decreases fs
  {
    if fs != [] {
      NotWaiting(fs[1..], x);
    }
  }

  lemma OkTail(nodes: map<uint32, Ref>, keys: set<Ref>, fs: seq<Frag>)
    requires FragsOk(nodes, keys, fs) && fs != []
    ensures FragsOk(nodes, keys, fs[1..]) && FragOk(nodes, keys, fs[0])
  {
    hide FragOk;
  }

  /** The nodes of the first fragment are loose and distinct. */
  lemma {:induction false} FragReady(nodes: map<uint32, Ref>, h: Heap, fs: seq<Frag>, s: Heap)
    requires Mirrors(nodes, Gathering(h, fs), s) && fs != []
    ensures Distinct(fs[0].kids) && Forest(h) && s.Keys == h.Keys
    ensures forall r | r in fs[0].kids ::
             r in h && r != ROOT && Target(nodes, fs[0].parent) != Some(r) && h[r].parent == None
  {
    hide Forest, SameKids;
    assert FragOk(nodes, h.Keys, fs[0]);
    forall r | r in fs[0].kids ensures h[r].parent == None {
      assert r in s;
      assert WaitingFor(fs, r) == Some(fs[0].parent);
    }
  }

  lemma {:induction false} AttachKeys(nodes: map<uint32, Ref>, h: Heap, fs: seq<Frag>, s: Heap)
    requires Mirrors(nodes, Gathering(h, fs), s) && fs != [] && ROOT in h && forall i | i in nodes :: nodes[i] in h
    ensures Forest(AttachFrag(nodes, h, fs[0])) && AttachFrag(nodes, h, fs[0]).Keys == h.Keys
  {
    FragReady(nodes, h, fs, s);
    hide Mirrors, Forest, AppendAll;
    if Target(nodes, fs[0].parent).Some? {
      AppendAllAt(h, Target(nodes, fs[0].parent).value, fs[0].kids, ROOT);
    }
  }

  lemma {:induction false} AttachAt(nodes: map<uint32, Ref>, h: Heap, fs: seq<Frag>, s: Heap, q: Ref)
    requires Mirrors(nodes, Gathering(h, fs), s) && fs != [] && q in s && q in h && ROOT in h
    requires forall i | i in nodes :: nodes[i] in h
    ensures var h' := AttachFrag(nodes, h, fs[0]);
            && q in h' && Kids(s, q) == Kids(h', q) + FragKids(nodes, fs[1..], q) && Labels(h'[q], s[q])
            && (match WaitingFor(fs[1..], q)
                case None => ParentOf(s, q) == ParentOf(h', q)
                case Some(p) => ParentOf(h', q) == None && ParentOf(s, q) == Target(nodes, p))
  {
    var g, f := Gathering(h, fs), fs[0];
    MirrorsTidy(nodes, g, s);
    FragReady(nodes, h, fs, s);
    TidyTail(fs);
    var a, b := if Target(nodes, f.parent) == Some(q) then f.kids else [], FragKids(nodes, fs[1..], q);
    assert Kids(s, q) == Kids(h, q) + (a + b) && Labels(h[q], s[q]);
    hide Mirrors, Forest, Tidy, FragsOk, FragKids, SameKids, SameLabels, AppendAll, Kids, FragOk, Waiters;
    Regroup(Kids(h, q), a, b);
    if Target(nodes, f.parent).Some? {
      AppendAllAt(h, Target(nodes, f.parent).value, f.kids, q);
    } else {
      assert Kids(h, q) + [] == Kids(h, q);
    }
  }

  /** With all fragments attached nothing is left to tell the two apart. */
  lemma {:induction false} AttachAllIs(nodes: map<uint32, Ref>, h: Heap, fs: seq<Frag>, s: Heap)
    requires Mirrors(nodes, Gathering(h, fs), s) && Apart(nodes) && ROOT in h && forall i | i in nodes :: nodes[i] in h
    ensures AttachAll(nodes, h, fs) == s
    decreases fs
  {
    if fs == [] {
      SameHeap(nodes, h, s);
    } else {
      AttachOne(nodes, h, fs, s);
      hide Mirrors, AttachFrag;
      AttachAllIs(nodes, AttachFrag(nodes, h, fs[0]), fs[1..], s);
    }
  }

  lemma {:induction false} SameHeap(nodes: map<uint32, Ref>, h: Heap, s: Heap)
    requires Mirrors(nodes, Gathering(h, []), s)
    ensures h == s
  {
    hide Forest, Tidy;
    forall q | q in s ensures h[q] == s[q] {
      assert Labels(h[q], s[q]);
      assert Kids(s, q) == Kids(h, q) + [] == Kids(h, q);
      assert WaitingFor([], q) == None;
      assert ParentOf(s, q) == ParentOf(h, q);
    }
  }

  lemma {:induction false} SettleAllIs(c: Client, ds: seq<Deferred>)
    ensures SettleAll(c, ds) == c.(heap := SettleHeaps(c.nodes, c.heap, ds))
    decreases ds
  {
    hide Settle, SettleHeap;
    if ds != [] {
      SettleIs(c, ds[0]);
      SettleAllIs(Settle(c, ds[0]), ds[1..]);
    }
  }

  /** Gathering into fragments and attaching them is appending one node after the other. */
  lemma {:induction false} FragmentsSettle(c: Client, ds: seq<Deferred>)
    requires Valid(c) && forall d | d in ds :: d.node != d.parent
    ensures var g := GatherAll(c.nodes, Gathering(c.heap, []), ds);
            AttachAll(c.nodes, g.heap, g.frags) == SettleAll(c, ds).heap
  {
    NodesInHeap(c);
    var start := Gathering(c.heap, []);
    StartMirrors(c);
    GatherAllMirrors(c.nodes, start, c.heap, ds);
    var g := GatherAll(c.nodes, start, ds);
    GatherKeys(c.nodes, start, c.heap, ds);
    SettleAllIs(c, ds);
    hide Valid, Mirrors, GatherAll, SettleAll, SettleHeaps, AttachAll;
    AttachAllIs(c.nodes, g.heap, g.frags, SettleHeaps(c.nodes, c.heap, ds));
  }

  lemma {:induction false} StartMirrors(c: Client)
    requires Valid(c)
    ensures Mirrors(c.nodes, Gathering(c.heap, []), c.heap) && Apart(c.nodes)
  {
    forall q | q in c.heap ensures Kids(c.heap, q) == Kids(c.heap, q) + [] {
    }
    hide Forest;
  }

  lemma {:induction false} GatherKeys(nodes: map<uint32, Ref>, g: Gathering, s: Heap, ds: seq<Deferred>)
    requires Mirrors(nodes, g, s) && SoundAll(nodes, g.heap.Keys, ds)
    ensures GatherAll(nodes, g, ds).heap.Keys == g.heap.Keys
    decreases ds
  {
    hide Mirrors, Gather, SettleHeap, Apart;
    if ds != [] {
      var d := ds[0];
      assert d in ds && Sound(nodes, g.heap, d);
      if d.node in nodes {
        GatherMirrors(nodes, g, s, d);
      } else {
        SkipMirrors(nodes, g, s, d);
        SkipKeys(nodes, g, d);
      }
      assert forall e | e in ds[1..] :: e in ds;
      GatherKeys(nodes, Gather(nodes, g, d), SettleHeap(nodes, s, d), ds[1..]);
    }
  }
}
