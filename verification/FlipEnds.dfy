/**
 The end of a batch of flips: what was put off is attached in order.
 */
module FlipEnds {
  import opened Seqs
  import opened Wire
  import opened Dom
  import opened Client
  import opened Trees
  import opened Emission
  import opened ForClient
  import opened Solids
  import opened Hanging
  import opened Scatter
  import opened Skeleton
  import opened Returns
  import opened FlipStreams
  import opened Flips
  import ForChanges
  import ForOnPage
  import Links

  // ----------------------------------------------- a branch other than the first

  /** The container holds `v`, or will; nothing else. */
  ghost predicate Docked(c: Client, s: Setting, v: Option<VNode>, att: bool) {
    && Holder(c, s) && (v.None? ==> !att)
    && Kids(c.heap, s.ref) == (if att && v.Some? then [RefOf(c.nodes, v.value.id)] else [])
    && (v.Some? ==> ShownAt(c, v.value, if att then Some(s.ref) else None))
  }

  /** The nodes registered for `ids` hang below one another or nowhere. */
  ghost predicate Own(c: Client, ids: set<uint32>) {
    forall id | id in ids && id in c.nodes ::
      ParentOf(c.heap, c.nodes[id]).None? || ParentOf(c.heap, c.nodes[id]).value in Nodes(c, ids)
  }

  /** One attachment among them. */
  lemma {:induction false} SettleOwn(c: Client, e: Deferred, ids: set<uint32>)
    requires Valid(c) && Own(c, ids) && e.node in ids && e.parent in ids && e.node != e.parent && 0 !in ids
    ensures var c' := Settle(c, e);
            && Valid(c') && Own(c', ids) && Aside(c, c', ids, {}) && c' == c.(heap := c'.heap)
  {
    if e.node in c.nodes {
      var r := c.nodes[e.node];
      NodesBelowNext(c);
      assert Forest(c.heap);
      if e.parent in c.nodes {
        var p := c.nodes[e.parent];
        AppendForest(c.heap, p, r);
        AppendIn(c.heap, p, r, Nodes(c, ids));
        HeapOnly(c, Append(c.heap, p, r), ids);
      } else {
        DetachForest(c.heap, r);
        DetachIn(c.heap, r, Nodes(c, ids));
        HeapOnly(c, Detach(c.heap, r), ids);
      }
    } else {
      AsideNone(c, ids, {});
    }
  }

  /** `h'` differs from `h` in `refs` only, and these still hang below one another. */
  ghost predicate ChangedIn(h: Heap, h': Heap, refs: set<Ref>) {
    && h'.Keys == h.Keys
    && (forall q | q in h && q !in refs :: h'[q] == h[q])
    && (forall q | q in refs :: ParentOf(h', q).None? || ParentOf(h', q).value in refs)
  }

  lemma {:induction false} DetachIn(h: Heap, r: Ref, refs: set<Ref>)
    requires Forest(h) && r in h && r in refs && r != ROOT
    requires forall q | q in refs :: ParentOf(h, q).None? || ParentOf(h, q).value in refs
    ensures ChangedIn(h, Detach(h, r), refs)
  {
    DetachForest(h, r);
    hide Forest, Without;
    var h', up := Detach(h, r), ParentOf(h, r);
    if up.Some? {
      var p := up.value;
      var kids := Without(Kids(h, p), r);
      assert p in refs && p in h && r != p ==> h' == h[p := h[p].(children := kids)][r := h[r].(parent := None)];
      hide Detach, Without;
      assert forall q | q in refs && q != r :: ParentOf(h', q) == ParentOf(h, q);
    }
  }

  lemma {:induction false} AppendIn(h: Heap, p: Ref, r: Ref, refs: set<Ref>)
    requires Forest(h) && r in h && r in refs && p in h && p in refs && p != r && r != ROOT
    requires forall q | q in refs :: ParentOf(h, q).None? || ParentOf(h, q).value in refs
    ensures ChangedIn(h, Append(h, p, r), refs)
  {
    DetachIn(h, r, refs);
    DetachForest(h, r);
    var h1, h' := Detach(h, r), Append(h, p, r);
    assert h' == h1[p := h1[p].(children := h1[p].children + [r])][r := h1[r].(parent := Some(p))];
    hide Forest, Detach, Append;
    TwoChanged(h1, h', p, r, h1[p].children + [r]);
    OthersSame(h1, h', p, r, h1[p].children + [r], refs);
  }

  lemma OthersSame(h: Heap, h': Heap, p: Ref, r: Ref, kids: seq<Ref>, refs: set<Ref>)
    requires p in h && r in h && p in refs && r in refs
    requires h' == h[p := h[p].(children := kids)][r := h[r].(parent := Some(p))]
    ensures forall q | q in h && q !in refs :: h'[q] == h[q]
  {
  }

  lemma {:induction false} HeapOnly(c: Client, h: Heap, ids: set<uint32>)
    requires Valid(c) && Forest(h) && ChangedIn(c.heap, h, Nodes(c, ids))
    ensures var c' := c.(heap := h); Valid(c') && Own(c', ids) && Aside(c, c', ids, {})
  {
    hide Forest;
    assert Nodes(c.(heap := h), ids) == Nodes(c, ids);
    forall id | id in ids && id in c.nodes ensures c.nodes[id] in Nodes(c, ids) {
    }
  }

  lemma {:induction false} DockedAside(c: Client, c': Client, s: Setting, v: Option<VNode>, att: bool, ids: set<uint32>)
    requires Docked(c, s, v, att) && Aside(c, c', ids, {}) && Valid(c') && c' == c.(heap := c'.heap)
    requires s.container !in ids && (v.Some? ==> Ids(v.value) !! ids && Proper(v.value))
    ensures Docked(c', s, v, att)
  {
    assert Valid(c) && s.ref in c.heap && s.ref !in Nodes(c, ids) && s.ref < c.next;
    if v.Some? {
      AsideTold(c, c', ids, {}, Ids(v.value));
      hide Valid, Aside, ShownAt;
      Undisturbed(c, c', v.value, if att then Some(s.ref) else None);
    }
  }

  /** The branch joins the container, or stays there. */
  lemma {:induction false} SettleLast(c: Client, s: Setting, v: VNode, att: bool)
    requires Docked(c, s, Some(v), att) && Proper(v) && s.container !in Ids(v)
    ensures var c' := Settle(c, Deferred(v.id, s.container));
            && Docked(c', s, Some(v), true) && Aside(c, c', Ids(v), {s.ref}) && c' == c.(heap := c'.heap)
  {
    var c' := Settle(c, Deferred(v.id, s.container));
    assert v.id in Ids(v);
    DockedFacts(c, s, v, att);
    var r := c.nodes[v.id];
    assert Valid(c) && Forest(c.heap);
    RegistryTells(c, v.id, s.container);
    AppendAgain(c.heap, s.ref, r);
    AppendForest(c.heap, s.ref, r);
    OneKid(Kids(c.heap, s.ref), r);
    var e := c.heap[s.ref].(children := [r]);
    assert c' == c.(heap := c.heap[s.ref := e][r := c.heap[r].(parent := Some(s.ref))]);
    forall id | id in Ids(v) && id in c.nodes ensures c.nodes[id] != s.ref {
      RegistryTells(c, id, s.container);
    }
    ForOnPage.Attached(c, v, s.ref, e);
    hide Append, Settle, Shows, Without, Ids;
    LastDocked(c, c', s, v);
  }

  lemma OneKid(kids: seq<Ref>, r: Ref)
    requires kids == [] || kids == [r]
    ensures Without(kids, r) + [r] == [r]
  {
    assert kids == [r] ==> kids[1..] == [];
  }

  lemma {:induction false} DockedFacts(c: Client, s: Setting, v: VNode, att: bool)
    requires Docked(c, s, Some(v), att)
    ensures v.id in c.nodes && c.nodes[v.id] in c.heap && Shows(c.heap, c.nodes, v) && c.nodes[v.id] != ROOT
    ensures c.heap[c.nodes[v.id]].parent.None? || c.heap[c.nodes[v.id]].parent == Some(s.ref)
    ensures s.container in c.nodes && c.nodes[s.container] == s.ref && s.ref in c.heap
    ensures Kids(c.heap, s.ref) == [] || Kids(c.heap, s.ref) == [c.nodes[v.id]]
  {
  }

  lemma {:induction false} LastDocked(c: Client, c': Client, s: Setting, v: VNode)
    requires Holder(c, s) && v.id in c.nodes && v.id in Ids(v) && c.nodes[v.id] in c.heap && c.nodes[v.id] != s.ref
    requires c' == c.(heap := c.heap[s.ref := c.heap[s.ref].(children := [c.nodes[v.id]])]
                                    [c.nodes[v.id] := c.heap[c.nodes[v.id]].(parent := Some(s.ref))])
    requires Forest(c'.heap) && c'.heap.Keys == c.heap.Keys && ShownAt(c', v, Some(s.ref))
    ensures Docked(c', s, Some(v), true) && Aside(c, c', Ids(v), {s.ref})
  {
    hide Forest, ShownAt, Ids;
    assert c.nodes[v.id] in Nodes(c, Ids(v));
  }

  /** Every attachment is the branch's own, or one among `ids`. */
  ghost predicate Berths(ds: seq<Deferred>, s: Setting, v: Option<VNode>, ids: set<uint32>) {
    forall e | e in ds :: (v.Some? && e == Deferred(v.value.id, s.container))
                          || (e.node in ids && e.parent in ids && e.node != e.parent)
  }

  ghost predicate ToDock(ds: seq<Deferred>, s: Setting, v: Option<VNode>) {
    v.Some? && Deferred(v.value.id, s.container) in ds
  }

  lemma {:induction false} OwnAside(c: Client, c': Client, ids: set<uint32>, more: set<uint32>, x: set<Ref>)
    requires Valid(c) && Own(c, ids) && Aside(c, c', more, x) && ids !! more && c'.nodes == c.nodes
    requires forall id | id in ids && id in c.nodes :: c.nodes[id] !in x
    ensures Own(c', ids)
  {
    AsideTold(c, c', more, x, ids);
    NodesBelowNext(c);
    hide Valid, Aside;
    assert Nodes(c', ids) == Nodes(c, ids);
  }

  /** Of a branch other than the first, the rest of what was put off makes nothing else than its place. */
  lemma {:induction false} SettleFits(c: Client, s: Setting, v: Option<VNode>, att: bool, ds: seq<Deferred>,
                                      ids: set<uint32>)
    requires Docked(c, s, v, att) && Own(c, ids) && Berths(ds, s, v, ids) && 0 !in ids && s.container !in ids
    requires v.Some? ==> Proper(v.value) && s.container !in Ids(v.value) && Ids(v.value) !! ids
    ensures var c' := SettleAll(c, ds);
            && Docked(c', s, v, att || ToDock(ds, s, v))
            && Aside(c, c', Both(v, ids), {s.ref})
    decreases ds
  {
    var all := Both(v, ids);
    if ds == [] {
      AsideNone(c, all, {s.ref});
    } else {
      var e := ds[0];
      assert e in ds;
      var c1, att1 := Settle(c, e), att || IsDock(e, s, v);
      hide Docked, Own, Aside, Settle, Proper, Ids, Both;
      FitsOne(c, s, v, att, e, ids);
      hide Berths;
      SettleFits(c1, s, v, att1, ds[1..], ids) by { FitsRest(ds, s, v, ids); }
      AsideThen(c, c1, SettleAll(c, ds), all, {s.ref});
    }
  }

  lemma FitsRest(ds: seq<Deferred>, s: Setting, v: Option<VNode>, ids: set<uint32>)
    requires Berths(ds, s, v, ids) && ds != []
    ensures Berths(ds[1..], s, v, ids)
  {
  }

  function Both(v: Option<VNode>, ids: set<uint32>): set<uint32> {
    ids + if v.Some? then Ids(v.value) else {}
  }

  predicate IsDock(e: Deferred, s: Setting, v: Option<VNode>) {
    v.Some? && e == Deferred(v.value.id, s.container)
  }

  lemma {:induction false} FitsOne(c: Client, s: Setting, v: Option<VNode>, att: bool, e: Deferred, ids: set<uint32>)
    requires Docked(c, s, v, att) && Own(c, ids) && Berths([e], s, v, ids) && 0 !in ids && s.container !in ids
    requires v.Some? ==> Proper(v.value) && s.container !in Ids(v.value) && Ids(v.value) !! ids
    ensures var c1 := Settle(c, e);
            Docked(c1, s, v, att || IsDock(e, s, v)) && Own(c1, ids) && Aside(c, c1, Both(v, ids), {s.ref})
  {
    var c1 := Settle(c, e);
    assert e in [e];
    DockedValid(c, s, v, att);
    hide Docked, Own, Aside, Settle, Proper, Ids, Valid, Berths;
    if IsDock(e, s, v) {
      hide IsDock, Both;
      FitsDock(c, s, v.value, att, ids);
    } else {
      SettleOwn(c, e, ids);
      AsideMore(c, c1, ids, Both(v, ids), {}, {s.ref});
      DockedAside(c, c1, s, v, att, ids);
    }
  }

  lemma {:induction false} FitsDock(c: Client, s: Setting, v: VNode, att: bool, ids: set<uint32>)
    requires Docked(c, s, Some(v), att) && Own(c, ids) && s.container !in ids
    requires Proper(v) && s.container !in Ids(v) && Ids(v) !! ids
    ensures var c1 := Settle(c, Deferred(v.id, s.container));
            Docked(c1, s, Some(v), true) && Own(c1, ids) && Aside(c, c1, Both(Some(v), ids), {s.ref})
  {
    var c1 := Settle(c, Deferred(v.id, s.container));
    DockedValid(c, s, Some(v), att);
    hide Docked, Own, Aside, Settle, Proper, Ids, Valid;
    SettleLast(c, s, v, att);
    AsideMore(c, c1, Ids(v), Both(Some(v), ids), {s.ref}, {s.ref});
    forall id | id in ids && id in c.nodes ensures c.nodes[id] !in {s.ref} {
      RegistryTells(c, id, s.container);
    }
    OwnAside(c, c1, ids, Ids(v), {s.ref});
  }

  lemma DockedValid(c: Client, s: Setting, v: Option<VNode>, att: bool)
    requires Docked(c, s, v, att)
    ensures Valid(c) && s.container in c.nodes && RefOf(c.nodes, s.container) == s.ref
  {
  }

  /** Of the first branch, only nodes below the root are put off. */
  ghost predicate NotRoot(ds: seq<Deferred>, s: Setting, v: Option<VNode>, d: Option<VNode>) {
    forall e | e in ds && !IsDock(e, s, v) :: d.Some? && e.node in Ids(d.value) && e.node != d.value.id
  }

  lemma {:induction false} HeldFits(s: Setting, d: Option<VNode>, bs: seq<Option<VNode>>, half: bool)
    requires bs != [] && Last(bs) != d && (d.Some? ==> Proper(d.value))
    ensures var last := if Last(bs).Some? then Some(Unstyled(Last(bs).value)) else None;
            && Berths(Held(s.container, d, bs, half), s, last, if d.Some? then Ids(d.value) else {})
            && (last.Some? ==> ToDock(Held(s.container, d, bs, half), s, last))
            && NotRoot(Held(s.container, d, bs, half), s, last, d)
    decreases bs
  {
    HeldOneFits(s, d, bs[0], bs[0] == Last(bs), half);
    hide HeldOne, Toggled, Links.Edges, Ids, Unstyled, Proper;
    var a := HeldOne(s.container, d, bs[0], bs[0] == Last(bs), half);
    if |bs| == 1 {
      assert Held(s.container, d, bs, half) == a + [];
    } else {
      assert Last(bs[1..]) == Last(bs);
      var b := Held(s.container, d, bs[1..], Toggled(half, d, bs[0]));
      HeldFits(s, d, bs[1..], Toggled(half, d, bs[0]));
      assert Held(s.container, d, bs, half) == a + b;
      hide Held;
    }
  }

  lemma {:induction false} HeldOneFits(s: Setting, d: Option<VNode>, b: Option<VNode>, last: bool, half: bool)
    requires (d.Some? ==> Proper(d.value)) && (last ==> b != d)
    ensures var v := if last && b.Some? then Some(Unstyled(b.value)) else None;
            && Berths(HeldOne(s.container, d, b, last, half), s, v, if d.Some? then Ids(d.value) else {})
            && (v.Some? ==> ToDock(HeldOne(s.container, d, b, last, half), s, v))
            && NotRoot(HeldOne(s.container, d, b, last, half), s, v, d)
  {
    if b.Some? && b == d {
      var u := Unstyled(b.value);
      UnstyledProper(b.value);
      assert HeldOne(s.container, d, b, last, half) == [] + Links.Edges(u, Part(half));
      forall e | e in Links.Edges(u, Part(half))
        ensures e.node in Ids(u) && e.parent in Ids(u) && e.node != e.parent && e.node != u.id
      {
        EdgesPart(u, Part(half), e);
      }
    }
  }

  /** Whatever is picked, an attachment is one of all. */
  lemma {:induction false} EdgesPart(v: VNode, w: Links.Which, e: Deferred)
    requires Proper(v) && e in Links.Edges(v, w)
    ensures e in Links.Edges(v, Links.All) && e.node in Ids(v) && e.parent in Ids(v) && e.node != e.parent
            && e.node != v.id
  {
    EdgesSub(v, w, e);
    Links.EdgeIds(v, Links.All, e);
    EdgesTell(v, e, e);
    KidIds(v);
    assert v.id !in IdsOf(VKids(v));
  }

  lemma {:induction false} EdgesSub(v: VNode, w: Links.Which, e: Deferred)
    requires e in Links.Edges(v, w)
    ensures e in Links.Edges(v, Links.All)
    decreases v
  {
    EdgesAllSub(v.children, v.id, w, e);
  }

  lemma {:induction false} EdgesAllSub(vs: seq<VNode>, parent: uint32, w: Links.Which, e: Deferred)
    requires e in Links.EdgesAll(vs, parent, w)
    ensures e in Links.EdgesAll(vs, parent, Links.All)
    decreases vs
  {
    if e in Links.EdgesAll(vs[1..], parent, w) {
      EdgesAllSub(vs[1..], parent, w, e);
    } else if e in Links.Edges(vs[0], w) {
      EdgesSub(vs[0], w, e);
    }
  }

  // --------------------------------------------------- the first branch comes back

  /** All nodes of `v` are registered, linked as `k` says, and the root is the container's child, or will be. */
  ghost predicate Back(c: Client, s: Setting, v: VNode, k: Rows, att: bool) {
    && Holder(c, s) && Standing(c, v, k)
    && ParentOf(c.heap, RefOf(c.nodes, v.id)) == (if att then Some(s.ref) else None)
    && Kids(c.heap, s.ref) == if att then [RefOf(c.nodes, v.id)] else []
  }

  lemma {:induction false} BackFacts(c: Client, s: Setting, v: VNode, k: Rows, att: bool)
    requires Back(c, s, v, k, att)
    ensures Valid(c) && s.container in c.nodes && RefOf(c.nodes, s.container) == s.ref && Standing(c, v, k)
    ensures v.id in c.nodes && c.nodes[v.id] in c.heap && s.ref in c.heap && s.ref < c.next
  {
    assert v.id in Ids(v);
    NamedAt(c, v, v.id);
    NodesBelowNext(c);
    hide Standing;
  }

  /** The root goes to the container. */
  lemma {:induction false} RootSettles(c: Client, s: Setting, v: VNode, k: Rows, att: bool)
    requires Back(c, s, v, k, att) && Proper(v) && s.container !in Ids(v)
    ensures var c' := Settle(c, Deferred(v.id, s.container));
            Back(c', s, v, k, true) && Aside(c, c', Ids(v), {s.ref}) && c' == c.(heap := c'.heap)
  {
    var c' := Settle(c, Deferred(v.id, s.container));
    assert v.id in Ids(v);
    BackFacts(c, s, v, k, att);
    var r := c.nodes[v.id];
    assert Forest(c.heap);
    NodesBelowNext(c);
    RegistryTells(c, v.id, s.container);
    AppendAgain(c.heap, s.ref, r);
    AppendForest(c.heap, s.ref, r);
    OneKid(Kids(c.heap, s.ref), r);
    assert c' == c.(heap := c.heap[s.ref := c.heap[s.ref].(children := [r])][r := c.heap[r].(parent := Some(s.ref))]);
    hide Append, Settle, Without, Ids;
    RootBack(c, c', s, v, k);
  }

  lemma {:induction false} RootBack(c: Client, c': Client, s: Setting, v: VNode, k: Rows)
    requires Holder(c, s) && Standing(c, v, k) && v.id in c.nodes && v.id in Ids(v) && c.nodes[v.id] in c.heap
    requires s.container !in Ids(v) && Proper(v) && c.nodes[v.id] != s.ref
    requires c' == c.(heap := c.heap[s.ref := c.heap[s.ref].(children := [c.nodes[v.id]])]
                                    [c.nodes[v.id] := c.heap[c.nodes[v.id]].(parent := Some(s.ref))])
    requires Forest(c'.heap) && c'.heap.Keys == c.heap.Keys
    ensures Back(c', s, v, k, true) && Aside(c, c', Ids(v), {s.ref})
  {
    assert c.nodes[v.id] in Nodes(c, Ids(v));
    assert Valid(c') && Valid(c);
    forall id | id in Ids(v) && id in c.nodes ensures c.nodes[id] != s.ref {
      RegistryTells(c, id, s.container);
    }
    forall id | id in c.nodes && id != v.id ensures c.nodes[id] != c.nodes[v.id] {
      RegistryTells(c, id, v.id);
    }
    hide Valid, Forest;
    RootStanding(c, c', s, v, k);
    hide Standing, Ids;
  }

  lemma {:induction false} RootStanding(c: Client, c': Client, s: Setting, v: VNode, k: Rows)
    requires Standing(c, v, k) && Proper(v) && Valid(c') && v.id in c.nodes && c.nodes[v.id] in c.heap
             && s.ref in c.heap
    requires c' == c.(heap := c.heap[s.ref := c.heap[s.ref].(children := [c.nodes[v.id]])]
                                    [c.nodes[v.id] := c.heap[c.nodes[v.id]].(parent := Some(s.ref))])
    requires forall id | id in Ids(v) && id in c.nodes :: c.nodes[id] != s.ref
    requires forall id | id in c.nodes && id != v.id :: c.nodes[id] != c.nodes[v.id]
    ensures Standing(c', v, k)
  {
    hide Valid;
    SolidParts(v);
    NamedRelinked(c, c', v, {}) by { assert Relinked(c, c', Ids(v), {}); }
    hide Named, Links.Within;
    assert Lists(c', Elems(v), k);
    forall e | e in Links.Edges(v, Links.All)
      ensures c'.nodes[e.node] in c'.heap && ParentOf(c'.heap, c'.nodes[e.node]) == ParentOf(c.heap, c.nodes[e.node])
    {
      EdgesPart(v, Links.All, e);
    }
  }

  /** A node below the root goes to its parent. */
  lemma {:induction false} EdgeSettles(c: Client, s: Setting, v: VNode, k: Rows, att: bool, e: Deferred)
    requires Back(c, s, v, k, att) && Proper(v) && s.container !in Ids(v) && e in Links.Edges(v, Links.All)
    ensures var c' := Settle(c, e);
            Back(c', s, v, Links.Hang(k, e), att) && Aside(c, c', Ids(v), {}) && c' == c.(heap := c'.heap)
  {
    var p := PlanOf(v);
    BackFacts(c, s, v, k, att);
    PlanSound(v);
    EdgesPart(v, Links.All, e);
    assert e.node in c.nodes && e.parent in c.nodes;
    SettleHangs(c, e);
    HungSame(c, e);
    HungAside(c, p, k, e);
    HungParents(c, p, k, e);
    HangStep(c, p.elems, p.es, k, e);
    HangRelinks(c, p.elems, p.es, k, e, Ids(v));
    SolidParts(v);
    PartsApart(v);
    NamedRelinked(c, Hung(c, e), v, Elems(v));
    forall f | f in Links.Edges(v, Links.All) ensures f.node != v.id {
      EdgesPart(v, Links.All, f);
    }
    hide Hung, Settle, Named, Linked, Links.Edges, Links.Hang;
    BackAside(c, Hung(c, e), s, v, k, Links.Hang(k, e), att);
  }

  lemma {:induction false} BackAside(c: Client, c': Client, s: Setting, v: VNode, k: Rows, k': Rows, att: bool)
    requires Back(c, s, v, k, att) && Standing(c', v, k') && Aside(c, c', Ids(v), {}) && s.container !in Ids(v)
    requires v.id in c.nodes && c'.nodes == c.nodes
             && ParentOf(c'.heap, c.nodes[v.id]) == ParentOf(c.heap, c.nodes[v.id])
    ensures Back(c', s, v, k', att)
  {
    BackFacts(c, s, v, k, att);
    assert Valid(c');
    assert s.ref !in Nodes(c, Ids(v));
    hide Standing, Valid;
  }

  lemma {:induction false} EdgesSettle(c: Client, s: Setting, v: VNode, k: Rows, att: bool, es: seq<Deferred>)
    requires Back(c, s, v, k, att) && Proper(v) && s.container !in Ids(v)
    requires forall e | e in es :: e in Links.Edges(v, Links.All)
    ensures var c' := SettleAll(c, es);
            Back(c', s, v, Links.HangAll(k, es), att) && Aside(c, c', Ids(v), {s.ref})
    decreases es
  {
    hide Back, Aside, Settle, Links.Hang, Links.Edges, Proper, Ids;
    if es == [] {
      AsideNone(c, Ids(v), {s.ref});
    } else {
      var c1 := Settle(c, es[0]);
      assert es[0] in es;
      EdgeSettles(c, s, v, k, att, es[0]);
      AsideMore(c, c1, Ids(v), Ids(v), {}, {s.ref});
      EdgesSettle(c1, s, v, Links.Hang(k, es[0]), att, es[1..]);
      AsideThen(c, c1, SettleAll(c, es), Ids(v), {s.ref});
    }
  }

  lemma {:induction false} SettleAllSplit(c: Client, a: seq<Deferred>, b: seq<Deferred>)
    ensures SettleAll(c, a + b) == SettleAll(SettleAll(c, a), b)
    decreases a
  {
    hide Settle;
    if a == [] {
      assert a + b == b;
    } else {
      assert (a + b)[1..] == a[1..] + b;
      SettleAllSplit(Settle(c, a[0]), a[1..], b);
    }
  }

  /** The lists are in the tree's order, or with all texts behind the elements. */
  ghost predicate Arranged(v: VNode, k: Rows, behind: bool) {
    if behind then Links.Behind(v, k) else Links.Picked(v, k, Links.All)
  }

  /** What was put off in one visit of the first branch. */
  lemma {:induction false} VisitSettles(c: Client, s: Setting, v: VNode, k: Rows, att: bool, half: bool)
    requires Back(c, s, v, k, att) && Proper(v) && s.container !in Ids(v) && (half ==> Arranged(v, k, false))
    ensures var es := Links.Edges(v, Part(half));
            var c' := SettleAll(c, [Deferred(v.id, s.container)] + es);
            && Back(c', s, v, Links.HangAll(k, es), true) && Aside(c, c', Ids(v), {s.ref})
            && Arranged(v, Links.HangAll(k, es), half)
  {
    var es := Links.Edges(v, Part(half));
    var c1 := Settle(c, Deferred(v.id, s.container));
    assert ([Deferred(v.id, s.container)] + es)[0] == Deferred(v.id, s.container);
    assert ([Deferred(v.id, s.container)] + es)[1..] == es;
    RootSettles(c, s, v, k, att);
    forall e | e in es ensures e in Links.Edges(v, Links.All) {
      EdgesSub(v, Part(half), e);
    }
    Links.EdgesListing(v, Part(half));
    BackWithin(c, s, v, k, att);
    hide Back, Aside, Settle, Links.Edges, Proper, Ids, Links.HangAll, Links.Picked, Links.Behind, Links.Listing,
         Links.Within;
    EdgesSettle(c1, s, v, k, true, es);
    AsideThen(c, c1, SettleAll(c1, es), Ids(v), {s.ref});
    if half {
      Links.TextsHung(v, k, es);
    } else {
      Links.AllHung(v, k, es);
    }
  }

  lemma {:induction false} BackWithin(c: Client, s: Setting, v: VNode, k: Rows, att: bool)
    requires Back(c, s, v, k, att)
    ensures Links.Within(Elems(v), k, Links.Edges(v, Links.All))
  {
  }

  /** All that was put off, when the first branch is the last one too. */
  lemma {:induction false} SettleBack(c: Client, s: Setting, w: VNode, k: Rows, att: bool, bs: seq<Option<VNode>>,
                                      half: bool)
    returns (k': Rows)
    requires var v := Unstyled(w);
             && Back(c, s, v, k, att) && Proper(v) && s.container !in Ids(v)
             && (half ==> Arranged(v, k, false))
    requires bs != [] && Last(bs) == Some(w)
    ensures var v := Unstyled(w);
            var c' := SettleAll(c, Held(s.container, Some(w), bs, half));
            && Back(c', s, v, k', true) && Aside(c, c', Ids(v), {s.ref})
            && Arranged(v, k', Before(Some(w), bs, half))
    decreases bs
  {
    var v := Unstyled(w);
    var d := Some(w);
    hide Back, Aside, SettleAll, Links.Edges, Proper, Ids, Links.HangAll, Arranged, Unstyled, Held, Before, HeldOne;
    HeldStep(s.container, w, bs, half);
    if bs[0] == d {
      var es := Links.Edges(v, Part(half));
      var one := [Deferred(w.id, s.container)] + es;
      VisitSettles(c, s, v, k, att, half);
      k' := Links.HangAll(k, es);
      if |bs| > 1 {
        k' := SettleBack(SettleAll(c, one), s, w, k', true, bs[1..], !half);
        SettleThen(c, one, Held(s.container, d, bs[1..], !half), Ids(v), s);
      }
    } else {
      k' := SettleBack(c, s, w, k, att, bs[1..], half);
    }
  }

  lemma {:induction false} SettleThen(c: Client, a: seq<Deferred>, b: seq<Deferred>, ids: set<uint32>, s: Setting)
    requires Aside(c, SettleAll(c, a), ids, {s.ref})
             && Aside(SettleAll(c, a), SettleAll(SettleAll(c, a), b), ids, {s.ref})
    ensures SettleAll(c, a + b) == SettleAll(SettleAll(c, a), b) && Aside(c, SettleAll(c, a + b), ids, {s.ref})
  {
    hide Aside, SettleAll;
    SettleAllSplit(c, a, b);
    AsideThen(c, SettleAll(c, a), SettleAll(SettleAll(c, a), b), ids, {s.ref});
  }

  /** What the first of several visits adds. */
  lemma {:induction false} HeldStep(container: uint32, w: VNode, bs: seq<Option<VNode>>, half: bool)
    requires bs != [] && Last(bs) == Some(w)
    ensures var d := Some(w);
            var one := [Deferred(w.id, container)] + Links.Edges(Unstyled(w), Part(half));
            && (|bs| == 1 ==> bs[0] == d && Held(container, d, bs, half) == one && Before(d, bs, half) == half)
            && (|bs| > 1 ==> Last(bs[1..]) == d)
            && (|bs| > 1 && bs[0] == d ==> Held(container, d, bs, half) == one + Held(container, d, bs[1..], !half)
                                           && Before(d, bs, half) == Before(d, bs[1..], !half))
            && (bs[0] != d ==> |bs| > 1 && Held(container, d, bs, half) == Held(container, d, bs[1..], half)
                               && Before(d, bs, half) == Before(d, bs[1..], half))
  {
    hide Links.Edges, Unstyled;
  }

  // -------------------------------------------------------- the tree that results

  lemma {:induction false} NamedRearranged(h: Heap, nodes: map<uint32, Ref>, v: VNode)
    requires Named(h, nodes, v)
    ensures Named(h, nodes, Links.Rearranged(v)) && Elems(Links.Rearranged(v)) == Elems(v)
    decreases v
  {
    hide Labelled;
    if v.VElem? {
      var w := Links.Rearranged(v);
      assert Labelled(h[nodes[v.id]], v);
      LabelKids(h[nodes[v.id]], v, w);
      RearrangedElems(v);
      forall x | x in w.children ensures Named(h, nodes, x) {
        if x in Links.Pick(v.children, Links.Texts) {
          Links.PickMember(v.children, Links.Texts, x);
        } else {
          var y := Links.RearrangedBack(v.children, x);
          NamedRearranged(h, nodes, y);
        }
      }
    }
  }

  lemma LabelKids(e: Elem, v: VNode, w: VNode)
    requires Labelled(e, v) && v.VElem? && w == v.(children := if w.VElem? then w.children else [])
    ensures Labelled(e, w)
  {
  }

  lemma {:induction false} RearrangedElems(v: VNode)
    ensures Elems(Links.Rearranged(v)) == Elems(v) && TextIds(Links.Rearranged(v)) == TextIds(v)
    decreases v
  {
    if v.VElem? {
      var a, b := Links.RearrangedElements(v.children), Links.Pick(v.children, Links.Texts);
      PartsJoin(a, b);
      PartsRearranged(v.children);
    }
  }

  lemma {:induction false} PartsJoin(a: seq<VNode>, b: seq<VNode>)
    ensures ElemsOf(a + b) == ElemsOf(a) + ElemsOf(b) && TextIdsOf(a + b) == TextIdsOf(a) + TextIdsOf(b)
    decreases a
  {
    if a == [] {
      assert a + b == b;
    } else {
      assert (a + b)[1..] == a[1..] + b;
      PartsJoin(a[1..], b);
    }
  }

  lemma {:induction false} PartsRearranged(vs: seq<VNode>)
    ensures var a, b := Links.RearrangedElements(vs), Links.Pick(vs, Links.Texts);
            ElemsOf(a) + ElemsOf(b) == ElemsOf(vs) && TextIdsOf(a) + TextIdsOf(b) == TextIdsOf(vs)
    decreases vs
  {
    if vs != [] {
      var a, b := Links.RearrangedElements(vs[1..]), Links.Pick(vs[1..], Links.Texts);
      PartsRearranged(vs[1..]);
      if vs[0].VElem? {
        RearrangedElems(vs[0]);
        assert ([Links.Rearranged(vs[0])] + a)[1..] == a && [] + b == b;
      } else {
        assert ([vs[0]] + b)[1..] == b && [] + a == a;
      }
    }
  }

  /** The tree the container ends up with when the first branch is the last one. */
  function Result(v: VNode, behind: bool): VNode {
    if behind then Links.Rearranged(v) else v
  }

  lemma {:induction false} BackShows(c: Client, s: Setting, v: VNode, k: Rows, behind: bool)
    requires Back(c, s, v, k, true)
    requires Arranged(v, k, behind)
    ensures Docked(c, s, Some(Result(v, behind)), true)
  {
    var w := Result(v, behind);
    BackFacts(c, s, v, k, true);
    ResultShows(c, v, k, behind);
    hide Links.Rearranged, Standing, Shows, Valid, Arranged;
  }

  lemma {:induction false} ResultShows(c: Client, v: VNode, k: Rows, behind: bool)
    requires Standing(c, v, k) && Arranged(v, k, behind)
    ensures Shows(c.heap, c.nodes, Result(v, behind)) && Result(v, behind).id == v.id
  {
    NamedRearranged(c.heap, c.nodes, v);
    if behind {
      Links.BehindPicked(v, k);
    }
    hide Links.Behind, Links.Picked, Links.Rearranged, Named, Linked, Valid;
    Showing(c, Result(v, behind), Elems(v), Links.Edges(v, Links.All), k);
  }
}
