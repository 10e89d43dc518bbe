module DeferralTheorem {
  // Removal, the final flush, and the theorem that deferral does not show.

  import opened Seqs
  import opened Wire
  import opened Dom
  import opened Client
  import opened Deferral
  import opened DeferralSteps

  // ----------------------------------------------------------------- removing

  /** `h'` is `h` with `q` taken out of every child list and nothing attached. */
  ghost predicate Cut(h: Heap, h': Heap, q: Ref) {
    && h'.Keys == h.Keys
    && (forall x :: Kids(h', x) == Without(Kids(h, x), q))
    && (forall x | x in h :: SameButLinks(h[x], h'[x]))
    && (forall x | x in h && h[x].parent.None? :: h'[x].parent.None?)
  }

  ghost predicate SameButLinks(e: Elem, e': Elem) {
    e'.tag == e.tag && e'.text == e.text && e'.attrs == e.attrs && e'.styles == e.styles && e'.bwId == e.bwId
  }

  lemma {:induction false} DetachCuts(h: Heap, q: Ref)
    requires Forest(h) && q in h
    ensures Cut(h, Detach(h, q), q)
  {
    assert NodeOk(h, q);
    forall x ensures Kids(Detach(h, q), x) == Without(Kids(h, x), q) {
      DetachKids(h, q, x);
    }
    hide Forest, Kids;
  }

  lemma {:induction false} DetachKids(h: Heap, q: Ref, x: Ref)
    requires Forest(h) && q in h
    ensures Kids(Detach(h, q), x) == Without(Kids(h, x), q)
  {
    assert NodeOk(h, q);
    if q !in Kids(h, x) {
      WithoutAbsent(Kids(h, x), q);
    } else {
      assert NodeOk(h, x);
    }
  }

  /** A node of the closure other than its root has its parent in it. */
  lemma {:induction false} ClosureParents(h: Heap, q: Ref)
    requires Forest(h) && q in h
    ensures forall x | x in Closure(h, {q}) && x != q ::
              x in h && h[x].parent.Some? && h[x].parent.value in Closure(h, {q})
    ensures Closure(h, {q}) <= h.Keys
  {
    var c := Closure(h, {q});
    var t := set x | x in c && (x == q || (x in h && h[x].parent.Some? && h[x].parent.value in c));
    forall r, x | r in t && x in Kids(h, r) && x in h ensures x in t {
      assert NodeOk(h, r);
    }
    ClosureLeast(h, {q}, t);
  }

  /** Only ids of nodes in `gone` disappear. */
  ghost predicate Forgets(nodes: map<uint32, Ref>, nodes': map<uint32, Ref>, gone: set<Ref>) {
    && (forall id | id in nodes' :: id in nodes && nodes'[id] == nodes[id])
    && (forall id | id in nodes && id !in nodes' :: nodes[id] in gone)
  }

  lemma {:induction false} RemoveForgets(c: Client, id: uint32, gone: set<Ref>, used: set<uint32>)
    requires id in c.nodes && IdsKept(c, used) && c.nodes[id] in gone
    requires Closure(c.heap, {c.nodes[id]}) <= gone && gone <= c.heap.Keys
    ensures Forgets(c.nodes, Remove(c, id).nodes, gone)
  {
    var q := c.nodes[id];
    forall k | k in IdsBelow(c.heap, q) && k in c.nodes ensures c.nodes[k] in gone {
      var x :| x in Closure(c.heap, {q}) && At(c.heap, x).bwId == Some(k);
    }
  }

  lemma {:induction false} ForgetRegistry(dn: map<uint32, Ref>, dn': map<uint32, Ref>,
                                          ins: map<uint32, Ref>, ins': map<uint32, Ref>, dead: set<Ref>, gone: set<Ref>)
    requires SameRegistry(dn, ins, dead) && dead <= gone
    requires Forgets(dn, dn', gone) && Forgets(ins, ins', gone)
    ensures SameRegistry(dn', ins', gone)
  {
  }

  /** Waiting lists lose `q` only, when everything forgotten is dead or not waiting there. */
  lemma {:induction false} PendingForgets(nodes: map<uint32, Ref>, nodes': map<uint32, Ref>, ds: seq<Deferred>,
                                          gone: set<Ref>, x: Ref, q: Ref)
    requires Forgets(nodes, nodes', gone) && x !in gone
    requires forall y | y in Pending(nodes, ds, x) :: y == q || y !in gone
    requires forall id | id in nodes' :: nodes'[id] != q
    ensures Pending(nodes', ds, x) == Without(Pending(nodes, ds, x), q)
    decreases ds
  {
    if ds != [] {
      var rest := Pending(nodes, ds[1..], x);
      PendingSplit(nodes, ds[..1], ds[1..], x);
      PendingSplit(nodes', ds[..1], ds[1..], x);
      assert ds == ds[..1] + ds[1..];
      var first := Pending(nodes, ds[..1], x);
      assert forall y | y in first + rest :: y == q || y !in gone;
      assert forall y | y in rest :: y in first + rest;
      PendingForgets(nodes, nodes', ds[1..], gone, x, q);
      WithoutSplit(first, rest, q);
      PendingForgetsOne(nodes, nodes', ds[..1], gone, x, q);
    }
  }

  lemma {:induction false} PendingForgetsOne(nodes: map<uint32, Ref>, nodes': map<uint32, Ref>, ds: seq<Deferred>,
                                             gone: set<Ref>, x: Ref, q: Ref)
    requires Forgets(nodes, nodes', gone) && x !in gone && |ds| == 1
    requires forall y | y in Pending(nodes, ds, x) :: y == q || y !in gone
    requires forall id | id in nodes' :: nodes'[id] != q
    ensures Pending(nodes', ds, x) == Without(Pending(nodes, ds, x), q)
  {
    assert Pending(nodes, ds[1..], x) == [] == Pending(nodes', ds[1..], x);
    if Pending(nodes, ds, x) != [] {
      assert Pending(nodes, ds, x) == [nodes[ds[0].node]];
      assert nodes[ds[0].node] in Pending(nodes, ds, x);
    }
  }

  lemma {:induction false} ForgetsNothing(nodes: map<uint32, Ref>, gone: set<Ref>)
    ensures Forgets(nodes, nodes, gone)
  {
  }

  lemma {:induction false} ClosureDead(dh: Heap, ih: Heap, dead: set<Ref>, q: Ref)
    requires DeadApart(dh, ih, dead) && q in dead
    ensures Closure(dh, {q}) <= dead && Closure(ih, {q}) <= dead && dead <= ih.Keys
  {
    ClosureLeast(dh, {q}, dead);
    ClosureLeast(ih, {q}, dead);
  }

  /** `c'` is `c` with `q` cut off and some ids of `gone`, among them those of `q`, forgotten. */
  ghost predicate Removed(c: Client, c': Client, q: Ref, gone: set<Ref>) {
    && c' == c.(heap := c'.heap, nodes := c'.nodes)
    && Cut(c.heap, c'.heap, q)
    && Forgets(c.nodes, c'.nodes, gone)
    && (forall id | id in c'.nodes :: c'.nodes[id] != q)
    && Forest(c'.heap)
  }

  lemma {:induction false} RemoveRemoves(c: Client, id: uint32, gone: set<Ref>, used: set<uint32>)
    requires Valid(c) && IdsKept(c, used) && id in c.nodes && c.nodes[id] in gone
    requires Closure(c.heap, {c.nodes[id]}) <= gone && gone <= c.heap.Keys
    ensures Removed(c, Remove(c, id), c.nodes[id], gone)
  {
    RemoveForgets(c, id, gone, used);
    DetachForest(c.heap, c.nodes[id]);
    DetachCuts(c.heap, c.nodes[id]);
    hide Forest, Detach, IdsBelow, Cut, Forgets, IdsKept;
  }

  lemma {:induction false} RemovedFrame(c: Client, c': Client, q: Ref, gone: set<Ref>)
    requires Removed(c, c', q, gone)
    ensures c'.next == c.next && c'.depth == c.depth && c'.existing == c.existing && c'.deferred == c.deferred
    ensures 0 !in c.nodes ==> 0 !in c'.nodes
    ensures Cut(c.heap, c'.heap, q) && Forgets(c.nodes, c'.nodes, gone)
    ensures forall id | id in c'.nodes :: c'.nodes[id] != q
  {
    hide Cut, Forest;
  }

  lemma {:induction false} RemovedValid(c: Client, c': Client, q: Ref, gone: set<Ref>, used: set<uint32>,
                                        texts: set<uint32>)
    requires Valid(c) && IdsKept(c, used) && Typed(c, texts) && Removed(c, c', q, gone)
    ensures Valid(c') && IdsKept(c', used) && Typed(c', texts)
  {
    hide Forest;
    assert forall r | r in c.heap :: SameButLinks(c.heap[r], c'.heap[r]);
  }

  lemma {:induction false} RemovedWaits(d: Client, d': Client, q: Ref, gone: set<Ref>, used: set<uint32>)
    requires Valid(d) && Waiting(d, used) && Removed(d, d', q, gone)
    ensures Waiting(d', used)
  {
    hide Forest;
  }

  lemma {:induction false} RemovedDeadWait(d: Client, d': Client, q: Ref, gone: set<Ref>)
    requires DeadWait(d.nodes, d.deferred, gone) && Removed(d, d', q, gone)
    ensures DeadWait(d'.nodes, d'.deferred, gone)
  {
    hide Forest, Cut;
  }

  lemma {:induction false} RemovedSame(d: Client, d': Client, q: Ref, ih: Heap, dead: set<Ref>, gone: set<Ref>)
    requires Removed(d, d', q, gone) && SameNodes(d.heap, ih, dead)
    ensures SameNodes(d'.heap, ih, dead)
  {
    hide Forest, Forgets;
    assert forall r | r in d.heap :: SameButLinks(d.heap[r], d'.heap[r]);
  }

  lemma {:induction false} RemovedSameI(dh: Heap, i: Client, i': Client, q: Ref, dead: set<Ref>, gone: set<Ref>)
    requires Removed(i, i', q, gone) && SameNodes(dh, i.heap, dead)
    ensures SameNodes(dh, i'.heap, dead)
  {
    hide Forest, Forgets;
    assert forall r | r in i.heap :: SameButLinks(i.heap[r], i'.heap[r]);
  }

  lemma {:induction false} CutKids(h: Heap, h': Heap, q: Ref)
    requires Cut(h, h', q)
    ensures h'.Keys == h.Keys
    ensures forall x :: Kids(h', x) == Without(Kids(h, x), q)
    ensures forall x, y | y in Kids(h', x) :: y in Kids(h, x)
  {
  }

  /** Child lists after `q`, dead or dying, is cut off where it was known. */
  lemma {:induction false} RemovedChildren(d: Client, d': Client, ih: Heap, ih': Heap, dead: set<Ref>,
                                           gone: set<Ref>, q: Ref)
    requires SameChildren(d, ih, dead) && dead <= gone && q in gone
    requires Cut(d.heap, d'.heap, q) && Cut(ih, ih', q) && d'.deferred == d.deferred
    requires Forgets(d.nodes, d'.nodes, gone) && forall id | id in d'.nodes :: d'.nodes[id] != q
    requires forall x, y | x in ih && x !in gone && y in Kids(ih, x) :: y == q || y !in gone
    ensures SameChildren(d', ih', gone)
  {
    CutKids(d.heap, d'.heap, q);
    CutKids(ih, ih', q);
    hide Cut, Forgets;
    forall x | x in ih' && x !in gone ensures Kids(ih', x) == Kids(d'.heap, x) + Pending(d'.nodes, d.deferred, x) {
      var waits := Pending(d.nodes, d.deferred, x);
      assert forall y | y in waits :: y in Kids(ih, x);
      PendingForgets(d.nodes, d'.nodes, d.deferred, gone, x, q);
      WithoutSplit(Kids(d.heap, x), waits, q);
    }
  }

  lemma {:induction false} ApartGrows(dh: Heap, dh': Heap, ih: Heap, ih': Heap, dead: set<Ref>, gone: set<Ref>, q: Ref)
    requires DeadApart(dh, ih, dead) && dead <= gone <= ih.Keys && ROOT !in gone
    requires Cut(dh, dh', q) && Cut(ih, ih', q)
    requires forall r, x | r in gone && x in Kids(dh, r) :: x in gone
    requires forall r, x | r in gone && x in Kids(ih, r) :: x in gone
    requires forall x, y | x in ih && x !in gone && y in Kids(ih, x) :: y == q || y !in gone
    ensures DeadApart(dh', ih', gone)
  {
    CutKids(dh, dh', q);
    CutKids(ih, ih', q);
    hide Cut;
  }

  /** Removing a dead node on one side. */
  lemma {:induction false} RemoveDeadD(d: Client, i: Client, dead: set<Ref>, texts: set<uint32>, used: set<uint32>,
                                       id: uint32)
    requires Related(d, i, dead, texts, used) && id in d.nodes && d.nodes[id] in dead
    ensures Related(Remove(d, id), i, dead, texts, used)
  {
    hide Valid, SameNodes, SameRegistry, SameChildren, DeadApart, Waiting, DeadWait, IdsKept, Typed, Forest, Remove,
         Cut, Forgets, Removed;
    var q, d' := d.nodes[id], Remove(d, id);
    SameKeys(d.heap, i.heap, dead);
    ClosureDead(d.heap, i.heap, dead, q);
    RemoveRemoves(d, id, dead, used);
    ForgetsNothing(i.nodes, dead);
    RemovedFrame(d, d', q, dead);
    ForgetRegistry(d.nodes, d'.nodes, i.nodes, i.nodes, dead, dead);
    RemovedValid(d, d', q, dead, used, texts);
    RemovedWaits(d, d', q, dead, used);
    RemovedDeadWait(d, d', q, dead);
    RemovedSame(d, d', q, i.heap, dead, dead);
    DeadNotShown(d, i.heap, dead, q);
    UnshownChildren(d, d', i.heap, dead, q);
  }

  /** A dead node is no live node's child, on either side. */
  lemma {:induction false} DeadNotShown(d: Client, ih: Heap, dead: set<Ref>, q: Ref)
    requires DeadApart(d.heap, ih, dead) && SameChildren(d, ih, dead) && q in dead
    ensures forall x | x in ih && x !in dead :: q !in Kids(ih, x) && q !in Kids(d.heap, x)
  {
    forall x | x in ih && x !in dead ensures q !in Kids(ih, x) && q !in Kids(d.heap, x) {
      assert forall y | y in Kids(d.heap, x) :: y in Kids(ih, x);
    }
  }

  lemma {:induction false} UnshownChildren(d: Client, d': Client, ih: Heap, dead: set<Ref>, q: Ref)
    requires DeadApart(d.heap, ih, dead) && SameChildren(d, ih, dead) && q in dead
    requires Removed(d, d', q, dead)
    requires forall x | x in ih && x !in dead :: q !in Kids(ih, x) && q !in Kids(d.heap, x)
    ensures SameChildren(d', ih, dead) && DeadApart(d'.heap, ih, dead)
  {
    CutKids(d.heap, d'.heap, q);
    hide Cut, Forgets, Forest;
    forall x | x in ih && x !in dead ensures Kids(ih, x) == Kids(d'.heap, x) + Pending(d'.nodes, d.deferred, x) {
      var waits := Pending(d.nodes, d.deferred, x);
      assert forall y | y in waits :: y in Kids(ih, x);
      PendingForgets(d.nodes, d'.nodes, d.deferred, dead, x, q);
      WithoutAbsent(Kids(d.heap, x), q);
      WithoutAbsent(waits, q);
    }
  }

  lemma {:induction false} RemoveDeadI(d: Client, i: Client, dead: set<Ref>, texts: set<uint32>, used: set<uint32>,
                                       id: uint32)
    requires Related(d, i, dead, texts, used) && id in i.nodes && i.nodes[id] in dead
    ensures Related(d, Remove(i, id), dead, texts, used)
  {
    hide Valid, SameNodes, SameRegistry, SameChildren, DeadApart, Waiting, DeadWait, IdsKept, Typed, Forest, Remove,
         Cut, Forgets, Removed;
    var q, i' := i.nodes[id], Remove(i, id);
    SameKeys(d.heap, i.heap, dead);
    ClosureDead(d.heap, i.heap, dead, q);
    RemoveRemoves(i, id, dead, used);
    ForgetsNothing(d.nodes, dead);
    RemovedFrame(i, i', q, dead);
    ForgetRegistry(d.nodes, d.nodes, i.nodes, i'.nodes, dead, dead);
    RemovedValid(i, i', q, dead, used, texts);
    RemovedSameI(d.heap, i, i', q, dead, dead);
    DeadNotShown(d, i.heap, dead, q);
    UnshownChildrenI(d, i, i', dead, q);
  }

  lemma {:induction false} UnshownChildrenI(d: Client, i: Client, i': Client, dead: set<Ref>, q: Ref)
    requires DeadApart(d.heap, i.heap, dead) && SameChildren(d, i.heap, dead) && q in dead
    requires Removed(i, i', q, dead)
    requires forall x | x in i.heap && x !in dead :: q !in Kids(i.heap, x)
    ensures SameChildren(d, i'.heap, dead) && DeadApart(d.heap, i'.heap, dead)
  {
    CutKids(i.heap, i'.heap, q);
    hide Cut, Forgets, Forest;
    forall x | x in i'.heap && x !in dead ensures Kids(i'.heap, x) == Kids(i.heap, x) {
      WithoutAbsent(Kids(i.heap, x), q);
    }
  }

  /** What dies with the live node `q`: everything below it. */
  lemma {:induction false} Dying(d: Client, i: Client, dead: set<Ref>, q: Ref) returns (gone: set<Ref>)
    requires Valid(i) && DeadApart(d.heap, i.heap, dead) && SameChildren(d, i.heap, dead)
    requires q in i.heap && q !in dead && q != ROOT && d.heap.Keys == i.heap.Keys
    ensures gone == dead + Closure(i.heap, {q})
    ensures gone <= i.heap.Keys && ROOT !in gone && q in gone
    ensures forall r, x | r in gone && x in Kids(d.heap, r) :: x in gone
    ensures forall r, x | r in gone && x in Kids(i.heap, r) :: x in gone
    ensures forall x, y | x in i.heap && x !in gone && y in Kids(i.heap, x) :: y == q || y !in gone
    ensures Closure(d.heap, {q}) <= gone
  {
    var k := Closure(i.heap, {q});
    gone := dead + k;
    ClosureParents(i.heap, q);
    KidsInHeap(i.heap);
    forall r, x | r in gone && x in Kids(d.heap, r) ensures x in gone {
      if r !in dead {
        assert x in Kids(i.heap, r);
      }
    }
    ClosureLeast(d.heap, {q}, gone);
  }

  lemma {:induction false} KidsInHeap(h: Heap)
    requires Forest(h)
    ensures forall r, x | x in Kids(h, r) :: x in h && r in h && h[x].parent == Some(r)
    ensures ROOT in h && h[ROOT].parent.None?
  {
    forall r: Ref, x: Ref | x in Kids(h, r) ensures x in h && h[x].parent == Some(r) {
      assert NodeOk(h, r);
    }
  }

  /** Removing a live node kills its subtree on both sides. */
  lemma {:induction false} RemoveAlive(d: Client, i: Client, dead: set<Ref>, texts: set<uint32>, used: set<uint32>,
                                       id: uint32)
    returns (gone: set<Ref>)
    requires Related(d, i, dead, texts, used)
    requires id in d.nodes && id in i.nodes && d.nodes[id] == i.nodes[id] && d.nodes[id] !in dead
    ensures Related(Remove(d, id), Remove(i, id), gone, texts, used)
  {
    hide Valid, SameNodes, SameRegistry, SameChildren, DeadApart, Waiting, DeadWait, IdsKept, Typed, Forest, Remove,
         Cut, Forgets, Removed;
    var q, d', i' := d.nodes[id], Remove(d, id), Remove(i, id);
    SameKeys(d.heap, i.heap, dead);
    NodesInHeap(d);
    NodesInHeap(i);
    gone := Dying(d, i, dead, q);
    RemoveRemoves(d, id, gone, used);
    RemoveRemoves(i, id, gone, used);
    RemovedFrame(d, d', q, gone);
    RemovedFrame(i, i', q, gone);
    ForgetRegistry(d.nodes, d'.nodes, i.nodes, i'.nodes, dead, gone);
    RemovedValid(d, d', q, gone, used, texts);
    RemovedValid(i, i', q, gone, used, texts);
    RemovedWaits(d, d', q, gone, used);
    DyingWait(d, i.heap, dead, gone);
    RemovedDeadWait(d, d', q, gone);
    SameNodesFewer(d.heap, i.heap, dead, gone);
    RemovedSame(d, d', q, i.heap, gone, gone);
    RemovedSameI(d'.heap, i, i', q, gone, gone);
    RemovedChildren(d, d', i.heap, i'.heap, dead, gone, q);
    ApartGrows(d.heap, d'.heap, i.heap, i'.heap, dead, gone, q);
  }

  lemma {:induction false} SameNodesFewer(dh: Heap, ih: Heap, dead: set<Ref>, gone: set<Ref>)
    requires SameNodes(dh, ih, dead) && dead <= gone
    ensures SameNodes(dh, ih, gone)
  {
  }

  lemma {:induction false} InPending(nodes: map<uint32, Ref>, ds: seq<Deferred>, k: nat)
    requires k < |ds| && ds[k].node in nodes && ds[k].parent in nodes
    ensures nodes[ds[k].node] in Pending(nodes, ds, nodes[ds[k].parent])
    decreases ds
  {
    if k > 0 {
      InPending(nodes, ds[1..], k - 1);
    }
  }

  lemma {:induction false} DyingWait(d: Client, ih: Heap, dead: set<Ref>, gone: set<Ref>)
    requires DeadWait(d.nodes, d.deferred, dead) && SameChildren(d, ih, dead)
    requires dead <= gone <= ih.Keys
    requires forall r, x | r in gone && x in Kids(ih, r) :: x in gone
    ensures DeadWait(d.nodes, d.deferred, gone)
  {
    var ds, nodes := d.deferred, d.nodes;
    forall k | 0 <= k < |ds| && ds[k].node in nodes && ds[k].parent in nodes && nodes[ds[k].parent] in gone
      ensures nodes[ds[k].node] in gone
    {
      var p := nodes[ds[k].parent];
      if p !in dead {
        InPending(nodes, ds, k);
        assert nodes[ds[k].node] in Kids(ih, p);
      }
    }
  }

  lemma {:induction false} RemoveRelated(d: Client, i: Client, dead: set<Ref>, texts: set<uint32>, used: set<uint32>,
                                         id: uint32)
    returns (dead': set<Ref>)
    requires Related(d, i, dead, texts, used)
    ensures Related(Remove(d, id), Remove(i, id), dead', texts, used)
  {
    hide Related;
    IdKnown(d, i, dead, texts, used, id);
    dead' := dead;
    if id in d.nodes && d.nodes[id] !in dead {
      dead' := RemoveAlive(d, i, dead, texts, used, id);
    } else {
      if id in d.nodes {
        RemoveDeadD(d, i, dead, texts, used, id);
      }
      if id in i.nodes {
        RemoveDeadI(Remove(d, id), i, dead, texts, used, id);
      }
    }
  }

  lemma {:induction false} IdKnown(d: Client, i: Client, dead: set<Ref>, texts: set<uint32>, used: set<uint32>,
                                   id: uint32)
    requires Related(d, i, dead, texts, used)
    ensures id in d.nodes && d.nodes[id] !in dead ==> id in i.nodes && i.nodes[id] == d.nodes[id]
    ensures id in i.nodes && i.nodes[id] !in dead ==> id in d.nodes && i.nodes[id] == d.nodes[id]
  {
    hide Valid, SameNodes, SameChildren, DeadApart, Waiting, DeadWait, IdsKept, Typed, Forest;
  }

  // ----------------------------------------------------------------- settling

  /** Attaching the first waiting node. */
  lemma {:induction false} SettleRelated(d: Client, i: Client, dead: set<Ref>, texts: set<uint32>, used: set<uint32>)
    requires Related(d, i, dead, texts, used) && d.deferred != []
    ensures Related(Settle(d, d.deferred[0]).(deferred := d.deferred[1..]), i, dead, texts, used)
  {
    hide Valid, SameNodes, SameRegistry, SameChildren, DeadApart, Waiting, DeadWait, IdsKept, Typed, Forest, Append;
    var e := d.deferred[0];
    var d1 := d.(deferred := d.deferred[1..]);
    FirstWaits(d, i.heap, dead, used);
    SameButDeferred(d, d1, used, texts);
    if e.node in d.nodes && e.parent in d.nodes {
      var n, p := d.nodes[e.node], d.nodes[e.parent];
      var dh' := Append(d.heap, p, n);
      NodesInHeap(d);
      AppendLoose(d.heap, p, n);
      AttachValid(d1, p, n);
      AttachIds(d1, used, n, p);
      SettleWaits(d, dh', used, dead);
      SameKeys(d.heap, i.heap, dead);
      GrowDeadNodes(d.heap, dh', i.heap, dead, p, n);
      SettleChildren(d, dh', i.heap, dead, used);
    } else {
      assert Settle(d, e).(deferred := d.deferred[1..]) == d1;
      DropWaits(d, used, dead);
      DropChildren(d, i.heap, dead);
    }
  }

  lemma {:induction false} FirstWaits(d: Client, ih: Heap, dead: set<Ref>, used: set<uint32>)
    requires Waiting(d, used) && d.deferred != [] && Valid(d) && DeadWait(d.nodes, d.deferred, dead)
    ensures var e := d.deferred[0];
            && e.parent != 0
            && (e.node in d.nodes ==> d.nodes[e.node] in d.heap && d.heap[d.nodes[e.node]].parent.None?)
            && (e.node in d.nodes && e.parent in d.nodes ==>
                  d.nodes[e.node] != d.nodes[e.parent]
                  && (d.nodes[e.parent] in dead ==> d.nodes[e.node] in dead))
            && (e.node in d.nodes && e.parent !in d.nodes ==> Settle(d, e) == d)
  {
    hide Forest;
    assert d.deferred[0].parent in d.existing;
  }

  lemma {:induction false} DropWaits(d: Client, used: set<uint32>, dead: set<Ref>)
    requires Waiting(d, used) && d.deferred != [] && DeadWait(d.nodes, d.deferred, dead)
    ensures Waiting(d.(deferred := d.deferred[1..]), used) && DeadWait(d.nodes, d.deferred[1..], dead)
  {
  }

  lemma {:induction false} DropChildren(d: Client, ih: Heap, dead: set<Ref>)
    requires SameChildren(d, ih, dead) && d.deferred != []
    requires d.deferred[0].node !in d.nodes || d.deferred[0].parent !in d.nodes
    ensures SameChildren(d.(deferred := d.deferred[1..]), ih, dead)
  {
    forall x | x in ih && x !in dead
      ensures Kids(ih, x) == Kids(d.heap, x) + Pending(d.nodes, d.deferred[1..], x)
    {
      assert [] + Pending(d.nodes, d.deferred[1..], x) == Pending(d.nodes, d.deferred[1..], x);
    }
  }

  lemma {:induction false} SettleWaits(d: Client, dh': Heap, used: set<uint32>, dead: set<Ref>)
    requires Waiting(d, used) && d.deferred != [] && Valid(d) && DeadWait(d.nodes, d.deferred, dead)
    requires d.deferred[0].node in d.nodes && d.deferred[0].parent in d.nodes
    requires Grown(d.heap, dh', d.nodes[d.deferred[0].parent], d.nodes[d.deferred[0].node])
    ensures Waiting(d.(heap := dh', deferred := d.deferred[1..]), used)
    ensures DeadWait(d.nodes, d.deferred[1..], dead)
  {
    hide Forest;
    var n := d.nodes[d.deferred[0].node];
    forall k | 1 <= k < |d.deferred| && d.deferred[k].node in d.nodes
      ensures ParentOf(dh', d.nodes[d.deferred[k].node]) == None
    {
      assert d.nodes[d.deferred[k].node] != n;
    }
  }

  lemma {:induction false} SettleChildren(d: Client, dh': Heap, ih: Heap, dead: set<Ref>, used: set<uint32>)
    requires d.deferred != [] && d.deferred[0].node in d.nodes && d.deferred[0].parent in d.nodes
    requires SameChildren(d, ih, dead) && DeadApart(d.heap, ih, dead) && DeadWait(d.nodes, d.deferred, dead)
    requires Grown(d.heap, dh', d.nodes[d.deferred[0].parent], d.nodes[d.deferred[0].node])
    ensures SameChildren(d.(heap := dh', deferred := d.deferred[1..]), ih, dead) && DeadApart(dh', ih, dead)
  {
    var n, p := d.nodes[d.deferred[0].node], d.nodes[d.deferred[0].parent];
    assert Kids(dh', p) == Kids(d.heap, p) + [n];
    assert forall x | x != p :: Kids(dh', x) == Kids(d.heap, x);
    SettleDead(d, dh', ih, dead);
    hide Grown, DeadApart, DeadWait;
    forall x | x in ih && x !in dead
      ensures Kids(ih, x) == Kids(dh', x) + Pending(d.nodes, d.deferred[1..], x)
    {
      var rest := Pending(d.nodes, d.deferred[1..], x);
      assert Pending(d.nodes, d.deferred, x) == (if x == p then [n] else []) + rest;
      hide Pending, Kids;
      assert Kids(d.heap, x) + ([n] + rest) == (Kids(d.heap, x) + [n]) + rest;
    }
  }

  lemma {:induction false} SettleDead(d: Client, dh': Heap, ih: Heap, dead: set<Ref>)
    requires d.deferred != [] && d.deferred[0].node in d.nodes && d.deferred[0].parent in d.nodes
    requires DeadApart(d.heap, ih, dead) && DeadWait(d.nodes, d.deferred, dead)
    requires Grown(d.heap, dh', d.nodes[d.deferred[0].parent], d.nodes[d.deferred[0].node])
    ensures DeadApart(dh', ih, dead)
  {
    var n, p := d.nodes[d.deferred[0].node], d.nodes[d.deferred[0].parent];
    assert Kids(dh', p) == Kids(d.heap, p) + [n];
    assert forall x | x != p :: Kids(dh', x) == Kids(d.heap, x);
    hide Grown;
  }

  lemma {:induction false} SettleAllRelated(d: Client, i: Client, dead: set<Ref>, texts: set<uint32>, used: set<uint32>)
    requires Related(d, i, dead, texts, used)
    ensures Related(Flush(d), i, dead, texts, used)
    decreases |d.deferred|
  {
    hide Related, Settle;
    SettleAllKeeps(d, d.deferred);
    if d.deferred != [] {
      SettleRelated(d, i, dead, texts, used);
      var d' := Settle(d, d.deferred[0]).(deferred := d.deferred[1..]);
      SettleAllRelated(d', i, dead, texts, used);
      SettleIgnores(Settle(d, d.deferred[0]), d.deferred[1..], d.deferred[1..]);
    } else {
      assert Flush(d) == d;
    }
  }

  /** Settling does not look at the list it came from. */
  lemma {:induction false} SettleIgnores(c: Client, ds: seq<Deferred>, other: seq<Deferred>)
    ensures SettleAll(c.(deferred := other), ds) == SettleAll(c, ds).(deferred := other)
    decreases ds
  {
    if ds != [] {
      SettleIgnores(Settle(c, ds[0]), ds[1..], other);
    }
  }

  // --------------------------------------------------------------- the theorem

  /** A text node's content changes on both sides. */
  lemma {:induction false} SetTextRelated(d: Client, i: Client, dead: set<Ref>, texts: set<uint32>, used: set<uint32>,
                                          id: uint32, text: Str)
    requires Related(d, i, dead, texts, used) && id in texts
    ensures Related(SetText(d, id, text), SetText(i, id, text), dead, texts, used)
  {
    hide Related, DetachAll, Append;
    RegisteredAlike(d, i, dead, texts, used, id);
    AlterBoth(d, i, dead, texts, used, id, Registered(d, id).(text := text), Registered(i, id).(text := text));
  }

  lemma {:induction false} SetTextsRelated(d: Client, i: Client, dead: set<Ref>, texts: set<uint32>, used: set<uint32>,
                                           updates: seq<(uint32, Str)>)
    requires Related(d, i, dead, texts, used) && forall u | u in updates :: u.0 in texts
    ensures Related(SetTexts(d, updates), SetTexts(i, updates), dead, texts, used)
    decreases updates
  {
    hide Related, SetText;
    if updates != [] {
      var u := updates[0];
      assert u in updates;
      SetTextRelated(d, i, dead, texts, used, u.0, u.1);
      assert forall v | v in updates[1..] :: v in updates;
      SetTextsRelated(SetText(d, u.0, u.1), SetText(i, u.0, u.1), dead, texts, used, updates[1..]);
    }
  }

  /** Attributes and styles. */
  lemma {:induction false} LabelRelated(d: Client, i: Client, dead: set<Ref>, texts: set<uint32>, used: set<uint32>,
                                        m: Msg)
    requires Related(d, i, dead, texts, used) && (m.SetAttr? || m.RemoveAttr? || m.SetStyle?)
    ensures Related(Apply(d, m), Apply(i, m), dead, texts, used)
  {
    hide Related, Alter, Registered, SetProperty;
    match m
    case SetAttr(node, key, value) =>
      var ed, ei := Registered(d, node), Registered(i, node);
      RegisteredAlike(d, i, dead, texts, used, node);
      AlterBoth(d, i, dead, texts, used, node,
                ed.(attrs := ed.attrs[key := value]), ei.(attrs := ei.attrs[key := value]));
    case RemoveAttr(node, key) =>
      var ed, ei := Registered(d, node), Registered(i, node);
      RegisteredAlike(d, i, dead, texts, used, node);
      AlterBoth(d, i, dead, texts, used, node, ed.(attrs := ed.attrs - {key}), ei.(attrs := ei.attrs - {key}));
    case SetStyle(node, key, value) =>
      var ed, ei := Registered(d, node), Registered(i, node);
      RegisteredAlike(d, i, dead, texts, used, node);
      AlterBoth(d, i, dead, texts, used, node,
                ed.(styles := SetProperty(ed.styles, key, value)), ei.(styles := SetProperty(ei.styles, key, value)));
    case _ =>
  }

  /** Where the two machines stand after one more instruction. */
  lemma {:induction false} StepRelated(d: Client, i: Client, dead: set<Ref>, texts: set<uint32>, used: set<uint32>,
                                       m: Msg)
    returns (dead': set<Ref>)
    requires Related(d, i, dead, texts, used) && Plain(m, texts) && NewIds(m) !! used
    ensures Related(Apply(d, m), Apply(i, m), dead', texts, used + NewIds(m))
  {
    hide Related, Place, Create, Remove, Alter, SetText, SetTexts, Swap, Clear, Process, MoveNode, FromPairs,
         Registered;
    dead' := dead;
    assert NewIds(m) == {} ==> used + NewIds(m) == used;
    match m
    case InsertNode(node, parent, sibling, tag, attrs) =>
      UsedNotKnown(d, i, dead, texts, used, node);
      dead' := InsertRelated(d, i, dead, texts, used, node, parent, NewElem(node, tag, FromPairs(attrs)));
    case InsertText(node, parent, text) =>
      dead' := InsertRelated(d, i, dead, texts, used, node, parent, NewText(text));
    case RemoveNode(node) => dead' := RemoveRelated(d, i, dead, texts, used, node);
    case UpdateText(node, text) => SetTextRelated(d, i, dead, texts, used, node, text);
    case BatchText(updates) => SetTextsRelated(d, i, dead, texts, used, updates);
    case SetAttr(_, _, _) => LabelRelated(d, i, dead, texts, used, m);
    case RemoveAttr(_, _) => LabelRelated(d, i, dead, texts, used, m);
    case SetStyle(_, _, _) => LabelRelated(d, i, dead, texts, used, m);
    case _ =>
  }

  lemma {:induction false} UsedNotKnown(d: Client, i: Client, dead: set<Ref>, texts: set<uint32>, used: set<uint32>,
                                        id: uint32)
    requires Related(d, i, dead, texts, used) && id !in used
    ensures id !in d.nodes && id !in i.nodes
  {
    hide Valid, SameNodes, SameRegistry, SameChildren, DeadApart, Waiting, DeadWait, Typed;
  }

  lemma {:induction false} StreamRelated(d: Client, i: Client, dead: set<Ref>, texts: set<uint32>, used: set<uint32>,
                                         msgs: seq<Msg>)
    returns (dead': set<Ref>, used': set<uint32>)
    requires Related(d, i, dead, texts, used) && FreshStream(msgs, texts, used)
    ensures Related(ApplyAll(d, msgs), ApplyAll(i, msgs), dead', texts, used')
    decreases msgs
  {
    hide Related, Apply, Plain;
    dead', used' := dead, used;
    if msgs != [] {
      dead' := StepRelated(d, i, dead, texts, used, msgs[0]);
      dead', used' := StreamRelated(Apply(d, msgs[0]), Apply(i, msgs[0]), dead', texts, used + NewIds(msgs[0]),
        msgs[1..]);
    }
  }

  /** The stream with every node attached at once: no snapshot, so nothing is ever deferred. */
  function AttachAtOnce(c: Client): Client {
    c.(depth := 1, existing := {}, deferred := [])
  }

  /** A client between batches that has never seen the ids still to come. */
  ghost predicate Settled(c: Client, texts: set<uint32>, used: set<uint32>) {
    && Valid(c) && c.depth == 0 && c.deferred == [] && 0 !in c.nodes
    && IdsKept(c, used) && Typed(c, texts)
  }

  lemma {:induction false} StartRelated(c: Client, texts: set<uint32>, used: set<uint32>)
    requires Settled(c, texts, used)
    ensures Related(Begin(c), AttachAtOnce(c), {}, texts, used)
  {
    var d, i := Begin(c), AttachAtOnce(c);
    StartValid(c);
    StartChildren(c);
    hide Valid, SameChildren;
  }

  lemma {:induction false} StartValid(c: Client)
    requires Valid(c)
    ensures Valid(Begin(c)) && Valid(AttachAtOnce(c)) && DeadApart(c.heap, c.heap, {})
  {
    NodesInHeap(c);
    hide Forest;
  }

  lemma {:induction false} StartChildren(c: Client)
    requires c.depth == 0
    ensures SameChildren(Begin(c), c.heap, {})
  {
    forall r | r in c.heap ensures Kids(c.heap, r) == Kids(c.heap, r) + Pending(c.nodes, [], r) {
    }
  }

  /** With nothing waiting, every live node looks the same on both sides. */
  lemma {:induction false} LiveViews(d: Client, i: Client, dead: set<Ref>, r: Ref, depth: nat)
    requires Valid(i) && SameNodes(d.heap, i.heap, dead) && SameChildren(d, i.heap, dead)
    requires DeadApart(d.heap, i.heap, dead)
    requires d.deferred == [] && r in i.heap && r !in dead
    ensures View(d.heap, r, depth) == View(i.heap, r, depth)
    decreases depth
  {
    LiveAlike(d, i, dead, r);
    if depth > 0 {
      hide Valid, SameNodes, SameChildren, DeadApart, Kids;
      var kids := Kids(i.heap, r);
      forall k | 0 <= k < |kids| ensures View(d.heap, kids[k], depth - 1) == View(i.heap, kids[k], depth - 1) {
        assert kids[k] in Kids(i.heap, r);
        LiveViews(d, i, dead, kids[k], depth - 1);
      }
      SameViews(d.heap, i.heap, r, depth);
    }
  }

  /** A live node looks the same on both sides, and its children are live. */
  lemma {:induction false} LiveAlike(d: Client, i: Client, dead: set<Ref>, r: Ref)
    requires Valid(i) && SameNodes(d.heap, i.heap, dead) && SameChildren(d, i.heap, dead)
    requires DeadApart(d.heap, i.heap, dead)
    requires d.deferred == [] && r in i.heap && r !in dead
    ensures Kids(d.heap, r) == Kids(i.heap, r) && Alike(At(d.heap, r), At(i.heap, r))
    ensures forall x | x in Kids(i.heap, r) :: x in i.heap && x !in dead
  {
    assert Kids(i.heap, r) == Kids(d.heap, r) + [];
    KidsInHeap(i.heap);
    hide Forest;
  }

  ghost predicate Alike(a: Elem, b: Elem) {
    a.tag == b.tag && a.text == b.text && a.attrs == b.attrs && a.styles == b.styles
  }

  lemma {:induction false} SameViews(h: Heap, h': Heap, r: Ref, depth: nat)
    requires depth > 0 && Kids(h, r) == Kids(h', r) && Alike(At(h, r), At(h', r))
    requires forall k | 0 <= k < |Kids(h', r)| ::
             View(h, Kids(h', r)[k], depth - 1) == View(h', Kids(h', r)[k], depth - 1)
    ensures View(h, r, depth) == View(h', r, depth)
  {
    var a, b := View(h, r, depth).children, View(h', r, depth).children;
    assert |a| == |b| && forall k | 0 <= k < |a| :: a[k] == b[k];
  }

  lemma {:induction false} RootViews(d: Client, i: Client, dead: set<Ref>, texts: set<uint32>, used: set<uint32>,
                                     depth: nat)
    requires Related(d, i, dead, texts, used) && d.deferred == []
    ensures View(d.heap, ROOT, depth) == View(i.heap, ROOT, depth)
  {
    hide SameNodes, SameRegistry, SameChildren, DeadWait, IdsKept, Typed, Waiting;
    NodesInHeap(i);
    LiveViews(d, i, dead, ROOT, depth);
  }

  /**
   A stream of fresh appending inserts, text, attribute and style updates and
   removals, in any nesting of batch frames, ends in the page that attaching
   each node at once would show.
   */
  lemma {:induction false} DeferralDoesNotShow(c: Client, msgs: seq<Msg>, texts: set<uint32>, used: set<uint32>,
                                               depth: nat)
    requires Settled(c, texts, used) && FreshStream(Flatten(msgs), texts, used)
    ensures View(Process(c, msgs).heap, ROOT, depth) == View(ApplyAll(AttachAtOnce(c), msgs).heap, ROOT, depth)
  {
    hide Related, Settled, FreshStream, View, Apply;
    var flat, d, i := Flatten(msgs), Begin(c), AttachAtOnce(c);
    SettledDepth(c, texts, used);
    BatchesInlined(c, msgs);
    NestedInlined(i, msgs);
    StartRelated(c, texts, used);
    var dead, used' := StreamRelated(d, i, {}, texts, used, flat);
    var d', i' := ApplyAll(d, flat), ApplyAll(i, flat);
    SettleAllRelated(d', i', dead, texts, used');
    SettleAllKeeps(d', d'.deferred);
    SettleAllDepth(d', d'.deferred, 0);
    RootViews(Flush(d'), i', dead, texts, used', depth);
  }

  lemma {:induction false} SettledDepth(c: Client, texts: set<uint32>, used: set<uint32>)
    requires Settled(c, texts, used)
    ensures c.depth == 0
  {
  }
}
