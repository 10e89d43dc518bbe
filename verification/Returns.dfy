/**
 The branch shown when a batch begins, coming back within it. Each time it is
 inserted and removed again, the elements below its root change between being
 forgotten and being registered, for a removal forgets what hangs below the root
 and the first insertion hangs nothing there.
 */
module Returns {
  import opened Seqs
  import opened Wire
  import opened Dom
  import opened Client
  import opened Trees
  import opened Emission
  import opened ForClient
  import opened Solids
  import opened Hanging
  import opened Scatter
  import opened Skeleton
  import ForSteps
  import Links

  function PlanOf(v: VNode): Plan {
    Plan(Ids(v), Elems(v), Links.Edges(v, Links.All))
  }

  // ------------------------------------------------------- edges of a proper tree

  lemma {:induction false} EdgeParents(v: VNode, e: Deferred)
    requires e in Links.Edges(v, Links.All)
    ensures e.parent in Elems(v)
    decreases v
  {
    EdgeAllParents(v.children, v.id, e);
  }

  lemma {:induction false} EdgeAllParents(vs: seq<VNode>, parent: uint32, e: Deferred)
    requires e in Links.EdgesAll(vs, parent, Links.All)
    ensures e.parent in ElemsOf(vs) || e.parent == parent
    decreases vs
  {
    if e in Links.EdgesAll(vs[1..], parent, Links.All) {
      EdgeAllParents(vs[1..], parent, e);
    } else if e in Links.Edges(vs[0], Links.All) {
      EdgeParents(vs[0], e);
    }
  }

  lemma {:induction false} EdgesTell(v: VNode, e: Deferred, f: Deferred)
    requires Proper(v) && e in Links.Edges(v, Links.All) && f in Links.Edges(v, Links.All)
    ensures e.node != e.parent && (e.node == f.node ==> e.parent == f.parent)
    decreases v
  {
    EdgesAllTell(v.children, v.id, e, f);
  }

  lemma {:induction false} EdgesAllTell(vs: seq<VNode>, parent: uint32, e: Deferred, f: Deferred)
    requires ProperAll(vs) && parent !in IdsOf(vs)
    requires e in Links.EdgesAll(vs, parent, Links.All) && f in Links.EdgesAll(vs, parent, Links.All)
    ensures e.node != e.parent && (e.node == f.node ==> e.parent == f.parent)
    decreases vs
  {
    var v, rest := vs[0], vs[1..];
    assert v.id in Ids(v);
    EdgeWhere(v, rest, parent, e);
    EdgeWhere(v, rest, parent, f);
    hide Links.EdgesAll, Links.Edges;
    if e in Links.EdgesAll(rest, parent, Links.All) && f in Links.EdgesAll(rest, parent, Links.All) {
      EdgesAllTell(rest, parent, e, f);
    } else if e in Links.Edges(v, Links.All) && f in Links.Edges(v, Links.All) {
      EdgesTell(v, e, f);
    } else if e in Links.EdgesAll(rest, parent, Links.All) {
      EdgesAllTell(rest, parent, e, e);
    } else if e in Links.Edges(v, Links.All) {
      EdgesTell(v, e, e);
    }
  }

  lemma {:induction false} EdgeWhere(v: VNode, rest: seq<VNode>, parent: uint32, e: Deferred)
    requires Proper(v) && e in Links.EdgesAll([v] + rest, parent, Links.All)
    ensures || e == Deferred(v.id, parent)
            || (e in Links.Edges(v, Links.All) && e.node in Ids(v) && e.node != v.id)
            || (e in Links.EdgesAll(rest, parent, Links.All) && e.node in IdsOf(rest))
  {
    assert ([v] + rest)[1..] == rest;
    if e in Links.Edges(v, Links.All) {
      Links.EdgeIds(v, Links.All, e);
    } else if e in Links.EdgesAll(rest, parent, Links.All) {
      Links.EdgeAllIds(rest, parent, Links.All, e);
    }
  }

  lemma {:induction false} PlanSound(v: VNode)
    requires Proper(v)
    ensures Sound(PlanOf(v)) && Planned(v, PlanOf(v))
    ensures v.VElem? ==> PlannedAll(v.children, v.id, PlanOf(v))
  {
    var p := PlanOf(v);
    IdsParts(v);
    PartsApart(v);
    forall e | e in p.es ensures e.node in p.all && e.node != e.parent {
      Links.EdgeIds(v, Links.All, e);
      EdgesTell(v, e, e);
    }
    forall e, f | e in p.es && f in p.es && e.node == f.node ensures e.parent == f.parent {
      EdgesTell(v, e, f);
    }
  }

  // ------------------------------------------------------------------- phases

  /** Removed: all its elements are forgotten. */
  ghost predicate Gone(c: Client, v: VNode) {
    Ids(v) <= c.existing && Solid(v) !! c.nodes.Keys
  }

  /** Removed: the nodes below the root are registered, each by itself. */
  ghost predicate Half(c: Client, v: VNode) {
    && Ids(v) <= c.existing && v.id !in c.nodes
    && (forall x | x in VKids(v) :: Named(c.heap, c.nodes, x))
    && Lists(c, Inner(v), map[]) && Parents(c, Elems(v), Links.Edges(v, Links.All), map[])
  }

  ghost predicate Away(c: Client, v: VNode, half: bool) {
    if half then Half(c, v) else Gone(c, v)
  }

  /** Inserted: every node is registered, and the children of the elements are `k`. */
  ghost predicate Standing(c: Client, v: VNode, k: Rows) {
    Valid(c) && Named(c.heap, c.nodes, v) && Linked(c, Elems(v), Links.Edges(v, Links.All), k)
  }

  /** The root stands at `at`. */
  ghost predicate RootAt(c: Client, c': Client, v: VNode, at: Spot) {
    && v.id in c'.nodes && c.next <= c'.nodes[v.id] && c'.nodes[v.id] in c'.heap
    && match at
       case Below(p) =>
         && p in c.heap && p in c'.heap && c'.heap[c'.nodes[v.id]].parent == Some(p)
         && c'.heap[p] == c.heap[p].(children := c.heap[p].children + [c'.nodes[v.id]])
       case Later(_) => c'.heap[c'.nodes[v.id]].parent == None
  }

  function RootMoves(v: VNode, at: Spot): seq<Deferred> {
    if at.Below? then [] else [Deferred(v.id, at.parent)]
  }

  function SpotRefs(at: Spot): set<Ref> {
    if at.Below? then {at.ref} else {}
  }

  /** The node itself, without children. */
  function Bare(v: VNode): VNode {
    if v.VElem? then v.(children := []) else v
  }

  /** The root is created first. */
  lemma {:induction false} RootMade(c: Client, v: VNode, parent: uint32, m: Msg, rest: seq<Msg>, at: Spot)
    requires Valid(c) && Proper(v) && Unstyled(v) == v && v.id !in c.nodes && parent != v.id && Goes(c, parent, at)
    requires IsInsertTree([m] + rest, v, parent)
    ensures Built(c, Apply(c, m), [Bare(v)], at)
    ensures v.VElem? ==> IsInsertForest(rest, v.children, v.id)
    ensures v.VText? ==> rest == []
  {
    hide Valid, Built, Goes, Place, Create;
    assert ([m] + rest)[1..] == rest && ([m] + rest)[0] == m;
    match v
    case VText(id, text) => NodeBuilt(c, v, NewText(text), parent, at);
    case VElem(id, tag, attrs, styles, children) => NodeBuilt(c, Bare(v), NewElem(id, tag, attrs), parent, at);
  }

  lemma {:induction false} RootFacts(c: Client, c1: Client, v: VNode, at: Spot)
    requires Valid(c) && Built(c, c1, [Bare(v)], at) && v.id !in c.nodes
    ensures Valid(c1) && c1.depth == c.depth && c1.existing == c.existing && c.next <= c1.next
    ensures Renewed(c, c1, {v.id}) && c1.deferred == c.deferred + RootMoves(v, at)
    ensures forall r | r in c.heap && r !in SpotRefs(at) :: r in c1.heap && c1.heap[r] == c.heap[r]
    ensures StandsAt(c, c1, Bare(v), at) && v.id in c1.nodes && c.next <= c1.nodes[v.id]
  {
    BuiltOne(c, c1, Bare(v), at);
    assert Ids(Bare(v)) == {v.id};
    hide Valid, Built, Ids, StandsAt, RootMoves, Bare, ShownAt, Unstyled, Renewed;
    RootDeferred(c, c1, v, at);
    RootSpot(c, c1, at);
    hide SpotRefs;
    RootRenewed(c, c1, v.id);
  }

  lemma RootRenewed(c: Client, c1: Client, id: uint32)
    requires c1.nodes.Keys == c.nodes.Keys + {id} && id !in c.nodes && c.next <= c1.nodes[id]
    requires forall i | i in c.nodes :: c1.nodes[i] == c.nodes[i]
    ensures Renewed(c, c1, {id})
  {
  }

  lemma RootSpot(c: Client, c1: Client, at: Spot)
    requires forall r | r in c.heap :: r in c1.heap && (at == Below(r) || c1.heap[r] == c.heap[r])
    ensures forall r | r in c.heap && r !in SpotRefs(at) :: r in c1.heap && c1.heap[r] == c.heap[r]
  {
  }

  lemma RootDeferred(c: Client, c1: Client, v: VNode, at: Spot)
    requires StandsAt(c, c1, Bare(v), at)
    ensures c1.deferred == c.deferred + RootMoves(v, at)
  {
    hide ShownAt;
    assert c.deferred + [] == c.deferred;
  }

  lemma {:induction false} RootStands(c: Client, c1: Client, v: VNode, at: Spot)
    requires StandsAt(c, c1, Bare(v), at) && v.id in c1.nodes && c.next <= c1.nodes[v.id] && Unstyled(v) == v
    ensures RootAt(c, c1, v, at) && Labelled(c1.heap[c1.nodes[v.id]], v) && Kids(c1.heap, c1.nodes[v.id]) == []
  {
    assert VKids(Bare(v)) == [] && Refs(c1.nodes, []) == [];
  }

  lemma {:induction false} RootAside(c: Client, c1: Client, v: VNode, x: set<Ref>)
    requires c1.depth == c.depth && c1.existing == c.existing && c.next <= c1.next && Renewed(c, c1, {v.id})
    requires forall r | r in c.heap && r !in x :: r in c1.heap && c1.heap[r] == c.heap[r]
    ensures Aside(c, c1, Ids(v), x)
  {
    assert v.id in Ids(v);
    hide Ids;
  }

  /** A bare root above loose trees. */
  ghost predicate BareRoot(c: Client, v: VNode) {
    && v.id in c.nodes && c.nodes[v.id] in c.heap && Labelled(c.heap[c.nodes[v.id]], v)
    && Kids(c.heap, c.nodes[v.id]) == []
    && forall x | x in VKids(v) :: Loose(c.heap, c.nodes, x)
  }

  lemma {:induction false} EmptyLinked(c: Client, v: VNode)
    requires Valid(c) && BareRoot(c, v)
    ensures Standing(c, v, map[])
  {
    forall x | x in Elems(v) ensures x in c.nodes && c.nodes[x] in c.heap && Kids(c.heap, c.nodes[x]) == [] {
      IdsParts(v);
      BareAt(c, v, x);
    }
    forall e | e in Links.Edges(v, Links.All)
      ensures e.parent in Elems(v) && e.node in c.nodes && c.nodes[e.node] in c.heap
      ensures ParentOf(c.heap, c.nodes[e.node]) == None
    {
      EdgeParents(v, e);
      Links.EdgeIds(v, Links.All, e);
      BelowAt(c, v, e.node);
    }
    forall x | x in VKids(v) ensures Named(c.heap, c.nodes, x) {
      LooseNamed(c, x);
    }
    assert Distinct<uint32>([]);
    hide Valid;
  }

  lemma {:induction false} BelowAt(c: Client, v: VNode, id: uint32)
    requires BareRoot(c, v) && id in IdsOf(VKids(v))
    ensures id in c.nodes && c.nodes[id] in c.heap && c.heap[c.nodes[id]].children == []
            && c.heap[c.nodes[id]].parent == None
  {
    var x := IdsOfMember(VKids(v), id);
    LooseAt(c, x, id);
  }

  lemma {:induction false} BareAt(c: Client, v: VNode, id: uint32)
    requires BareRoot(c, v) && id in Ids(v)
    ensures id in c.nodes && c.nodes[id] in c.heap && c.heap[c.nodes[id]].children == []
  {
    if id != v.id {
      BelowAt(c, v, id);
    }
  }

  lemma {:induction false} LooseAt(c: Client, v: VNode, id: uint32)
    requires Loose(c.heap, c.nodes, v) && id in Ids(v)
    ensures id in c.nodes && c.nodes[id] in c.heap && c.heap[c.nodes[id]].children == []
            && c.heap[c.nodes[id]].parent == None
    decreases v
  {
    if id != v.id {
      var x := IdsOfMember(v.children, id);
      LooseAt(c, x, id);
    }
  }

  lemma {:induction false} LooseNamed(c: Client, v: VNode)
    requires Loose(c.heap, c.nodes, v)
    ensures Named(c.heap, c.nodes, v)
    decreases v
  {
    hide Labelled;
    if v.VElem? {
      forall x | x in v.children ensures Named(c.heap, c.nodes, x) {
        LooseNamed(c, x);
      }
    }
  }

  // ------------------------------------------------------------ inserted again

  /** What an insertion leaves. */
  ghost predicate Inserted(c: Client, c': Client, v: VNode, at: Spot, ds: seq<Deferred>, k: Rows) {
    && Standing(c', v, k) && RootAt(c, c', v, at) && Aside(c, c', Ids(v), SpotRefs(at))
    && c'.deferred == c.deferred + (RootMoves(v, at) + ds) && NoTexts(k, Elems(v))
  }

  /** With its elements forgotten, the whole tree is created and put off. */
  lemma {:induction false} GoneInserted(c: Client, v: VNode, parent: uint32, msgs: seq<Msg>, at: Spot)
    requires Valid(c) && Proper(v) && Unstyled(v) == v && Gone(c, v) && parent !in Ids(v) && Goes(c, parent, at)
    requires IsInsertTree(msgs, v, parent)
    ensures Inserted(c, ApplyAll(c, msgs), v, at, Links.Edges(v, Links.All), map[])
  {
    assert v.id in Ids(v) && msgs == [msgs[0]] + msgs[1..];
    GoesInHeap(c, parent, at);
    RootMade(c, v, parent, msgs[0], msgs[1..], at);
    ApplyCons(c, msgs);
    var c1, c' := Apply(c, msgs[0]), ApplyAll(c, msgs);
    RootFacts(c, c1, v, at);
    RootStands(c, c1, v, at);
    NodesBelowNext(c);
    RootAside(c, c1, v, SpotRefs(at));
    hide Valid, Built, Apply, Goes, IsInsertTree, IsInsertForest, Proper, Unstyled, Labelled, Aside, RootAt;
    ForestAgain(c, c1, v, msgs[1..]);
    GoneDone(c, c1, c', v, at);
  }

  /** The trees below the root. */
  lemma {:induction false} ForestAgain(c: Client, c1: Client, v: VNode, msgs: seq<Msg>)
    requires Gone(c, v) && Renewed(c, c1, {v.id}) && c1.existing == c.existing && Valid(c1) && c1.depth > 0
    requires Proper(v) && Unstyled(v) == v
    requires if v.VElem? then IsInsertForest(msgs, v.children, v.id) else msgs == []
    ensures var c' := ApplyAll(c1, msgs);
            && Scattered(c1, c', IdsOf(VKids(v)), Links.Edges(v, Links.All))
            && forall x | x in VKids(v) :: Loose(c'.heap, c'.nodes, x)
  {
    hide Valid, Scattered, Loose;
    if v.VElem? {
      Children(v);
      IdsOfParts(v.children);
      assert v.id in Ids(v);
      hide Ids;
      ForestScatters(c1, v.children, v.id, msgs);
    } else {
      ScatteredNone(c1);
    }
  }

  lemma {:induction false} ScatteredAside(c: Client, c': Client, v: VNode, es: seq<Deferred>)
    requires Scattered(c, c', IdsOf(VKids(v)), es)
    ensures Aside(c, c', Ids(v), {})
  {
    assert IdsOf(VKids(v)) <= Ids(v) by { KidIds(v); }
    hide Valid, Ids;
  }

  lemma KidIds(v: VNode)
    ensures IdsOf(VKids(v)) <= Ids(v)
  {
  }

  lemma {:induction false} GoneDone(c: Client, c1: Client, c': Client, v: VNode, at: Spot)
    requires Valid(c) && Valid(c1) && Proper(v) && RootAt(c, c1, v, at) && Aside(c, c1, Ids(v), SpotRefs(at))
    requires Labelled(c1.heap[c1.nodes[v.id]], v) && Kids(c1.heap, c1.nodes[v.id]) == []
    requires Scattered(c1, c', IdsOf(VKids(v)), Links.Edges(v, Links.All))
             && c1.deferred == c.deferred + RootMoves(v, at)
    requires forall x | x in VKids(v) :: Loose(c'.heap, c'.nodes, x)
    ensures Inserted(c, c', v, at, Links.Edges(v, Links.All), map[])
  {
    var ids, es := IdsOf(VKids(v)), Links.Edges(v, Links.All);
    assert v.id !in ids;
    hide Aside, RootMoves, Links.Edges, Loose, Proper, Ids, IdsOf, Valid, Labelled, SpotRefs, RootAt, Scattered,
         BareRoot;
    ScatteredAside(c1, c', v, es);
    AsideMore(c1, c', Ids(v), Ids(v), {}, SpotRefs(at));
    AsideThen(c, c1, c', Ids(v), SpotRefs(at));
    Regroup(c.deferred, RootMoves(v, at), es);
    RootAtKept(c, c1, c', v, at, ids, es);
    BareKept(c, c1, c', v, at, ids, es);
    EmptyLinked(c', v);
    hide Standing;
  }

  lemma {:induction false} RootAtKept(c: Client, c1: Client, c': Client, v: VNode, at: Spot, ids: set<uint32>,
                                      es: seq<Deferred>)
    requires RootAt(c, c1, v, at) && Scattered(c1, c', ids, es) && v.id !in ids
    ensures RootAt(c, c', v, at)
    ensures Valid(c') && c'.deferred == c1.deferred + es
  {
    hide Valid;
  }

  lemma {:induction false} BareKept(c: Client, c1: Client, c': Client, v: VNode, at: Spot, ids: set<uint32>,
                                    es: seq<Deferred>)
    requires RootAt(c, c1, v, at) && Scattered(c1, c', ids, es) && v.id !in ids
    requires Labelled(c1.heap[c1.nodes[v.id]], v) && Kids(c1.heap, c1.nodes[v.id]) == []
    requires forall x | x in VKids(v) :: Loose(c'.heap, c'.nodes, x)
    ensures BareRoot(c', v)
  {
    hide Valid, Loose, Labelled;
  }

  /** With the nodes below the root registered, its elements move below it at once. */
  lemma {:induction false} HalfInserted(c: Client, v: VNode, parent: uint32, msgs: seq<Msg>, at: Spot)
    requires Valid(c) && Proper(v) && Unstyled(v) == v && Half(c, v) && parent !in Ids(v) && Goes(c, parent, at)
    requires IsInsertTree(msgs, v, parent) && (at.Below? ==> at.ref == ROOT)
    ensures var k := Links.HangAll(map[], Links.Edges(v, Links.Elements));
            Inserted(c, ApplyAll(c, msgs), v, at, Links.Edges(v, Links.Texts), k)
  {
    assert v.id in Ids(v) && msgs == [msgs[0]] + msgs[1..];
    RootMade(c, v, parent, msgs[0], msgs[1..], at);
    ApplyCons(c, msgs);
    assert c.depth > 0;
    var c1, c' := Apply(c, msgs[0]), ApplyAll(c, msgs);
    RootFacts(c, c1, v, at);
    RootStands(c, c1, v, at);
    RootAside(c, c1, v, SpotRefs(at));
    hide Built, Apply, Goes, IsInsertTree, IsInsertForest, Unstyled, Labelled, Aside, RootAt, Proper;
    HalfGrowing(c, c1, v);
    hide Valid;
    PlanSound(v);
    hide Half, Growing, Grown, Sound, PlannedAll, Named;
    if v.VElem? {
      Children(v);
      ForestGrows(c1, PlanOf(v), map[], v.children, v.id, msgs[1..]);
    } else {
      GrownNone(c1, PlanOf(v));
    }
    HalfDone(c, c1, c', v, at);
  }

  lemma {:induction false} HalfGrowing(c: Client, c1: Client, v: VNode)
    requires Valid(c) && Half(c, v) && Proper(v) && c1.existing == c.existing && Valid(c1) && c1.depth > 0
    requires Renewed(c, c1, {v.id}) && forall r | r in c.heap && r != ROOT :: r in c1.heap && c1.heap[r] == c.heap[r]
    requires v.id in c1.nodes && c1.nodes[v.id] in c1.heap && Kids(c1.heap, c1.nodes[v.id]) == []
    ensures Growing(c1, PlanOf(v), map[]) && forall x | x in VKids(v) :: Named(c1.heap, c1.nodes, x)
  {
    NodesBelowNext(c);
    IdsParts(v);
    KidIds(v);
    assert v.id !in IdsOf(VKids(v));
    IdsOfParts(VKids(v));
    hide Valid, Ids, IdsOf, Elems, ElemsOf, Lists, Parents, Renewed, Named, Links.Within, NoTexts;
    HalfNamed(c, c1, v);
    HalfLists(c, c1, v);
    HalfParents(c, c1, v);
    NoRows(Elems(v), Links.Edges(v, Links.All));
  }

  lemma NoRows(elems: set<uint32>, es: seq<Deferred>)
    ensures Links.Within(elems, map[], es) && NoTexts(map[], elems)
  {
    assert Distinct<uint32>([]);
  }

  lemma {:induction false} HalfNamed(c: Client, c1: Client, v: VNode)
    requires (forall x | x in VKids(v) :: Named(c.heap, c.nodes, x)) && v.id !in IdsOf(VKids(v))
    requires forall id | id in c.nodes :: c.nodes[id] != ROOT
    requires Renewed(c, c1, {v.id}) && forall r | r in c.heap && r != ROOT :: r in c1.heap && c1.heap[r] == c.heap[r]
    ensures forall x | x in VKids(v) :: Named(c1.heap, c1.nodes, x)
  {
    hide Named, Ids;
    forall x | x in VKids(v) ensures Named(c1.heap, c1.nodes, x) {
      Links.IdsInside(VKids(v), x);
      assert Relinked(c, c1, Ids(x), {});
      NamedRelinked(c, c1, x, {});
    }
  }

  lemma {:induction false} HalfLists(c: Client, c1: Client, v: VNode)
    requires Lists(c, Inner(v), map[]) && v.id !in Inner(v) && ROOT !in Nodes(c, Inner(v))
    requires Renewed(c, c1, {v.id}) && forall r | r in c.heap && r != ROOT :: r in c1.heap && c1.heap[r] == c.heap[r]
    requires v.id in c1.nodes && c1.nodes[v.id] in c1.heap && Kids(c1.heap, c1.nodes[v.id]) == []
    ensures Lists(c1, Elems(v), map[])
  {
    assert Elems(v) <= {v.id} + Inner(v);
    hide Elems, Inner;
    forall x | x in Elems(v) ensures x in c1.nodes && c1.nodes[x] in c1.heap && Kids(c1.heap, c1.nodes[x]) == [] {
      if x != v.id {
        assert Kids(c.heap, c.nodes[x]) == RefList(c.nodes, Links.Row(map[], x)) == [];
        assert c.nodes[x] in Nodes(c, Inner(v));
      }
    }
  }

  lemma {:induction false} HalfParents(c: Client, c1: Client, v: VNode)
    requires Parents(c, Elems(v), Links.Edges(v, Links.All), map[]) && v.id !in IdsOf(VKids(v))
    requires forall id | id in c.nodes :: c.nodes[id] != ROOT
    requires Renewed(c, c1, {v.id}) && forall r | r in c.heap && r != ROOT :: r in c1.heap && c1.heap[r] == c.heap[r]
    ensures Parents(c1, Elems(v), Links.Edges(v, Links.All), map[])
  {
    hide Elems, Links.Edges;
    forall e | e in Links.Edges(v, Links.All)
      ensures e.parent in Elems(v) && e.node in c1.nodes && c1.nodes[e.node] in c1.heap
      ensures ParentOf(c1.heap, c1.nodes[e.node]) == None
    {
      Links.EdgeIds(v, Links.All, e);
    }
  }

  lemma {:induction false} HalfDone(c: Client, c1: Client, c': Client, v: VNode, at: Spot)
    requires Proper(v) && Valid(c1) && RootAt(c, c1, v, at) && Aside(c, c1, Ids(v), SpotRefs(at))
    requires Labelled(c1.heap[c1.nodes[v.id]], v) && (at.Below? ==> at.ref == ROOT)
    requires c1.deferred == c.deferred + RootMoves(v, at) && (v.VText? ==> Kids(c1.heap, c1.nodes[v.id]) == [])
    requires Growing(c', PlanOf(v), Links.HangAll(map[], Links.Edges(v, Links.Elements)))
    requires Grown(c1, c', PlanOf(v), TextIdsOf(VKids(v)), Links.Edges(v, Links.Texts))
    requires forall x | x in VKids(v) :: Named(c'.heap, c'.nodes, x)
    ensures var k := Links.HangAll(map[], Links.Edges(v, Links.Elements));
            Inserted(c, c', v, at, Links.Edges(v, Links.Texts), k)
  {
    hide Labelled, RootAt, Named, Valid, Proper;
    AsideMore(c1, c', Ids(v), Ids(v), {}, SpotRefs(at));
    AsideThen(c, c1, c', Ids(v), SpotRefs(at));
    hide Aside;
    RootGrown(c, c1, c', v, at);
    RootOverGrown(c, c1, c', v, at);
    Regroup(c.deferred, RootMoves(v, at), Links.Edges(v, Links.Texts));
    hide RootMoves, Linked, SpotRefs, Links.Edges;
  }

  /** The root keeps its label, and its place outside the tree. */
  lemma {:induction false} RootGrown(c: Client, c1: Client, c': Client, v: VNode, at: Spot)
    requires RootAt(c, c1, v, at) && Labelled(c1.heap[c1.nodes[v.id]], v) && Proper(v)
    requires v.VText? ==> Kids(c1.heap, c1.nodes[v.id]) == []
    requires Grown(c1, c', PlanOf(v), TextIdsOf(VKids(v)), Links.Edges(v, Links.Texts))
    requires forall x | x in VKids(v) :: Named(c'.heap, c'.nodes, x)
    ensures Named(c'.heap, c'.nodes, v)
  {
    IdsOfParts(VKids(v));
    PartsApart(v);
    assert v.id !in IdsOf(VKids(v));
    hide Aside;
    assert v.id in c1.nodes.Keys - TextIdsOf(VKids(v));
  }

  lemma {:induction false} RootOverGrown(c: Client, c1: Client, c': Client, v: VNode, at: Spot)
    requires RootAt(c, c1, v, at) && Proper(v) && Valid(c1) && (at.Below? ==> at.ref == ROOT)
    requires Grown(c1, c', PlanOf(v), TextIdsOf(VKids(v)), Links.Edges(v, Links.Texts)) && Valid(c')
    ensures RootAt(c, c', v, at)
  {
    IdsOfParts(VKids(v));
    assert v.id !in IdsOf(VKids(v));
    forall e | e in Links.Edges(v, Links.All) ensures e.node != v.id {
      Links.EdgeIds(v, Links.All, e);
    }
    NodesBelowNext(c1);
    NodesBelowNext(c');
    hide Valid, Relinked, Ids, Links.Edges;
  }

  // ---------------------------------------------------------------- and removed

  lemma {:induction false} NamedAt(c: Client, v: VNode, id: uint32)
    requires Named(c.heap, c.nodes, v) && id in Ids(v)
    ensures id in c.nodes && c.nodes[id] in c.heap
    ensures c.heap[c.nodes[id]].bwId.None? || c.heap[c.nodes[id]].bwId == Some(id)
    ensures id in Elems(v) || Kids(c.heap, c.nodes[id]) == []
    decreases v
  {
    if id != v.id {
      var x := IdsOfMember(v.children, id);
      NamedAt(c, x, id);
      Links.InnerElems(v, x);
    }
  }

  /** What a standing tree reaches is its own. */
  lemma {:induction false} StandingBelow(c: Client, v: VNode, k: Rows)
    requires Standing(c, v, k)
    ensures IdsBelow(c.heap, RefOf(c.nodes, v.id)) <= Ids(v) && v.id in c.nodes
  {
    assert v.id in Ids(v);
    hide Named;
    forall id | id in Ids(v)
      ensures id in c.nodes && c.nodes[id] in c.heap
      ensures c.heap[c.nodes[id]].bwId.None? || c.heap[c.nodes[id]].bwId == Some(id)
      ensures forall x | x in Kids(c.heap, c.nodes[id]) :: exists i :: i in Ids(v) && i in c.nodes && c.nodes[i] == x
    {
      NamedAt(c, v, id);
      assert RefOf(c.nodes, id) == c.nodes[id];
      if id in Elems(v) {
        KidsOwn(c, v, k, id);
      } else {
        assert forall x :: x !in Kids(c.heap, c.nodes[id]);
      }
    }
    hide Standing, IdsBelow;
    ForSteps.BelowWithin(c, c.nodes[v.id], Ids(v));
  }

  lemma {:induction false} KidsOwn(c: Client, v: VNode, k: Rows, id: uint32)
    requires Linked(c, Elems(v), Links.Edges(v, Links.All), k) && id in Elems(v)
    ensures forall x | x in Kids(c.heap, RefOf(c.nodes, id)) ::
              exists i :: i in Ids(v) && i in c.nodes && c.nodes[i] == x
  {
    var row := Links.Row(k, id);
    forall x | x in Kids(c.heap, RefOf(c.nodes, id))
      ensures exists i :: i in Ids(v) && i in c.nodes && c.nodes[i] == x
    {
      var n := IndexOf(RefList(c.nodes, row), x);
      var y := row[n];
      assert y in row;
      assert Deferred(y, id) in Links.Edges(v, Links.All);
      Links.EdgeIds(v, Links.All, Deferred(y, id));
      KidIds(v);
    }
  }

  /** Elements on their parents' lists are reached. */
  ghost predicate Spine(c: Client, v: VNode)
    decreases v
  {
    v.id in c.nodes &&
    (v.VElem? ==> forall x | x in v.children && x.VElem? ::
       && x.id in c.nodes && c.nodes[x.id] in c.heap && c.heap[c.nodes[x.id]].bwId == Some(x.id)
       && c.nodes[x.id] in Kids(c.heap, c.nodes[v.id]) && Spine(c, x))
  }

  lemma {:induction false} SpineReached(c: Client, v: VNode, cl: set<Ref>, id: uint32)
    requires Spine(c, v) && c.nodes[v.id] in cl && id in Inner(v)
    requires forall r, x | r in cl && x in Kids(c.heap, r) && x in c.heap :: x in cl
    ensures id in c.nodes && c.nodes[id] in cl && At(c.heap, c.nodes[id]).bwId == Some(id)
    decreases v
  {
    var x := InnerOf(v.children, id);
    assert c.nodes[x.id] in cl;
    if id != x.id {
      SpineReached(c, x, cl, id);
    }
  }

  lemma {:induction false} InnerOf(vs: seq<VNode>, id: uint32) returns (x: VNode)
    requires id in ElemsOf(vs)
    ensures x in vs && x.VElem? && id in Elems(x) && (id == x.id || id in Inner(x))
    decreases vs
  {
    if id in Elems(vs[0]) {
      x := vs[0];
    } else {
      x := InnerOf(vs[1..], id);
    }
  }

  lemma {:induction false} SpineBelow(c: Client, v: VNode)
    requires Spine(c, v) && Valid(c)
    ensures Inner(v) - {v.id} <= IdsBelow(c.heap, c.nodes[v.id])
  {
    var r := c.nodes[v.id];
    var cl := Closure(c.heap, {r});
    forall id | id in Inner(v) && id != v.id ensures id in BwIds(c.heap, cl - {r}) {
      SpineReached(c, v, cl, id);
      RegistryTells(c, id, v.id);
    }
  }

  lemma {:induction false} SpineProper(c: Client, v: VNode)
    requires Spine(c, v) && Valid(c) && Proper(v)
    ensures Inner(v) <= IdsBelow(c.heap, c.nodes[v.id])
  {
    SpineBelow(c, v);
    hide Spine, Valid, IdsBelow;
    IdsOfParts(VKids(v));
    assert v.id !in Inner(v);
  }

  /** A standing tree with every element on its parent's list. */
  lemma {:induction false} StandingSpine(c: Client, v: VNode, k: Rows, elems: set<uint32>)
    requires Named(c.heap, c.nodes, v) && Lists(c, elems, k) && Elems(v) <= elems && Links.Picked(v, k, Links.Elements)
    ensures Spine(c, v)
    decreases v
  {
    if v.VElem? {
      forall x | x in v.children && x.VElem?
        ensures x.id in c.nodes && c.nodes[x.id] in c.heap && c.heap[c.nodes[x.id]].bwId == Some(x.id)
        ensures c.nodes[x.id] in Kids(c.heap, c.nodes[v.id]) && Spine(c, x)
      {
        Links.InnerElems(v, x);
        OnList(c.nodes, v.children, x);
        StandingSpine(c, x, k, elems);
      }
    }
  }

  lemma {:induction false} OnList(nodes: map<uint32, Ref>, vs: seq<VNode>, x: VNode)
    requires x in vs && x.VElem? && x.id in nodes
    ensures nodes[x.id] in RefList(nodes, Links.RootIds(Links.Pick(vs, Links.Elements)))
  {
    PickHas(vs, x);
    InRootIds(Links.Pick(vs, Links.Elements), x);
    var ids := Links.RootIds(Links.Pick(vs, Links.Elements));
    var n := IndexOf(ids, x.id);
    assert RefList(nodes, ids)[n] == nodes[x.id];
  }

  lemma {:induction false} PickHas(vs: seq<VNode>, x: VNode)
    requires x in vs && x.VElem?
    ensures x in Links.Pick(vs, Links.Elements)
    decreases vs
  {
    if vs[0] != x {
      PickHas(vs[1..], x);
    }
  }

  lemma {:induction false} ShownSpine(c: Client, v: VNode)
    requires Shows(c.heap, c.nodes, v)
    ensures Spine(c, v)
    decreases v
  {
    if v.VElem? {
      forall x | x in v.children && x.VElem?
        ensures x.id in c.nodes && c.nodes[x.id] in c.heap && c.heap[c.nodes[x.id]].bwId == Some(x.id)
        ensures c.nodes[x.id] in Kids(c.heap, c.nodes[v.id]) && Spine(c, x)
      {
        ForSteps.KidShown(c.heap, c.nodes, v.children, Some(c.nodes[v.id]), x);
        var n := IndexOf(v.children, x);
        assert Refs(c.nodes, v.children)[n] == c.nodes[x.id];
        ShownSpine(c, x);
      }
    }
  }

  // ------------------------------------------------------- shown and dropped

  ghost predicate AtRootOrLater(at: Spot) {
    at.Below? ==> at.ref == ROOT
  }

  /** The root taken out again: apart from it, everything is as after the insertion, and ROOT as before. */
  lemma {:induction false} RootOut(c: Client, c1: Client, v: VNode, at: Spot)
    requires Valid(c) && RootAt(c, c1, v, at) && Aside(c, c1, Ids(v), SpotRefs(at)) && AtRootOrLater(at) && Valid(c1)
    ensures var h := Detach(c1.heap, c1.nodes[v.id]);
            && h.Keys == c1.heap.Keys && ROOT in h && h[ROOT] == c.heap[ROOT]
            && forall q | q in c1.heap && q != c1.nodes[v.id] && q != ROOT :: h[q] == c1.heap[q]
  {
    if at.Below? {
      RootOutBelow(c, c1, v);
    } else {
      RootOutLater(c, c1, v, at);
    }
  }

  lemma {:induction false} RootOutBelow(c: Client, c1: Client, v: VNode)
    requires Valid(c) && RootAt(c, c1, v, Below(ROOT)) && Valid(c1)
    ensures var h := Detach(c1.heap, c1.nodes[v.id]);
            && h.Keys == c1.heap.Keys && ROOT in h && h[ROOT] == c.heap[ROOT]
            && forall q | q in c1.heap && q != c1.nodes[v.id] && q != ROOT :: h[q] == c1.heap[q]
  {
    NodesBelowNext(c1);
    var r := c1.nodes[v.id];
    assert c1.heap[ROOT] == c.heap[ROOT].(children := c.heap[ROOT].children + [r]) && ROOT in c.heap;
    KidsOld(c, r);
    hide Valid, RootAt;
    WithoutLast(Kids(c.heap, ROOT), r);
    hide Without;
    assert Kids(c.heap, ROOT) == c.heap[ROOT].children;
    hide Detach;
    RootDetached(c1.heap, r, c.heap[ROOT]);
  }

  lemma {:induction false} RootOutLater(c: Client, c1: Client, v: VNode, at: Spot)
    requires Valid(c) && at.Later? && RootAt(c, c1, v, at) && Aside(c, c1, Ids(v), {})
    ensures Detach(c1.heap, c1.nodes[v.id]) == c1.heap && ROOT in c1.heap && c1.heap[ROOT] == c.heap[ROOT]
  {
    NodesBelowNext(c);
    hide Valid, Without;
  }

  lemma {:induction false} RootDetached(h: Heap, r: Ref, e: Elem)
    requires r in h && ROOT in h && r != ROOT && h[r].parent == Some(ROOT)
             && h[ROOT] == e.(children := e.children + [r])
    requires Without(e.children + [r], r) == e.children
    ensures Detach(h, r) == h[ROOT := e][r := h[r].(parent := None)]
  {
    hide Without;
  }

  lemma {:induction false} AsideOut(c: Client, c1: Client, c': Client, v: VNode, at: Spot)
    requires Valid(c) && RootAt(c, c1, v, at) && Aside(c, c1, Ids(v), SpotRefs(at)) && AtRootOrLater(at)
    requires c' == c1.(heap := c'.heap, nodes := c'.nodes) && c'.heap.Keys == c1.heap.Keys
    requires ROOT in c'.heap && c'.heap[ROOT] == c.heap[ROOT]
    requires forall q | q in c1.heap && q != c1.nodes[v.id] && q != ROOT :: c'.heap[q] == c1.heap[q]
    requires forall id | id in c'.nodes :: id in c1.nodes && c'.nodes[id] == c1.nodes[id]
    requires forall id | id in c1.nodes && id !in Ids(v) :: id in c'.nodes
    ensures Aside(c, c', Ids(v), {})
  {
    NodesBelowNext(c);
    hide Valid, Ids;
  }

  /** Registered nodes of `ids` hang nowhere. */
  ghost predicate Unhung(c: Client, ids: set<uint32>) {
    forall id | id in ids && id in c.nodes :: c.nodes[id] in c.heap && ParentOf(c.heap, c.nodes[id]) == None
  }

  lemma {:induction false} EdgeOf(v: VNode, id: uint32) returns (e: Deferred)
    requires id in IdsOf(VKids(v))
    ensures e in Links.Edges(v, Links.All) && e.node == id
    decreases v
  {
    e := EdgeAllOf(v.children, v.id, id);
  }

  lemma {:induction false} EdgeAllOf(vs: seq<VNode>, parent: uint32, id: uint32) returns (e: Deferred)
    requires id in IdsOf(vs)
    ensures e in Links.EdgesAll(vs, parent, Links.All) && e.node == id
    decreases vs
  {
    if id == vs[0].id {
      e := Deferred(id, parent);
    } else if id in Ids(vs[0]) {
      e := EdgeOf(vs[0], id);
    } else {
      e := EdgeAllOf(vs[1..], parent, id);
    }
  }

  /** What a removal of the standing tree does. */
  ghost predicate Dropped(c: Client, c1: Client, c': Client, v: VNode, inner: set<uint32>) {
    && Valid(c') && Aside(c, c', Ids(v), {}) && c'.deferred == c1.deferred
    && c'.heap.Keys == c1.heap.Keys
    && (forall q | q in c1.heap && q != RefOf(c1.nodes, v.id) && q != ROOT :: c'.heap[q] == c1.heap[q])
    && (forall id | id in c'.nodes :: id in c1.nodes && c'.nodes[id] == c1.nodes[id] && id != v.id && id !in inner)
  }

  /** A tree whose root stands at `at`, and below it only its own nodes, is removed. */
  lemma {:induction false} DropRoot(c: Client, c1: Client, v: VNode, at: Spot, inner: set<uint32>)
    requires Valid(c) && Valid(c1) && RootAt(c, c1, v, at) && Aside(c, c1, Ids(v), SpotRefs(at)) && AtRootOrLater(at)
    requires inner <= IdsBelow(c1.heap, c1.nodes[v.id]) <= Ids(v)
    ensures Dropped(c, c1, Apply(c1, RemoveNode(v.id)), v, inner)
    ensures forall id | id in c1.nodes && id != v.id && id !in IdsBelow(c1.heap, c1.nodes[v.id]) ::
              id in Apply(c1, RemoveNode(v.id)).nodes
  {
    var c' := Apply(c1, RemoveNode(v.id));
    assert v.id in Ids(v);
    hide RootAt, Aside, SpotRefs, AtRootOrLater, Apply, IdsBelow, Detach, Valid, Ids;
    RemovedFrom(c1, v.id, Ids(v), inner);
    hide Dropped;
    RootOut(c, c1, v, at);
    DroppedIs(c, c1, c', v, at, inner);
  }

  lemma {:induction false} DroppedIs(c: Client, c1: Client, c': Client, v: VNode, at: Spot, inner: set<uint32>)
    requires Valid(c) && Valid(c') && RootAt(c, c1, v, at) && Aside(c, c1, Ids(v), SpotRefs(at)) && AtRootOrLater(at)
    requires c' == c1.(heap := c'.heap, nodes := c'.nodes) && c'.heap.Keys == c1.heap.Keys
    requires ROOT in c'.heap && c'.heap[ROOT] == c.heap[ROOT]
    requires forall q | q in c1.heap && q != c1.nodes[v.id] && q != ROOT :: c'.heap[q] == c1.heap[q]
    requires c'.nodes.Keys <= c1.nodes.Keys - inner - {v.id}
    requires forall id | id in c'.nodes :: c'.nodes[id] == c1.nodes[id]
    requires forall id | id in c1.nodes && id !in Ids(v) :: id in c'.nodes
    ensures Dropped(c, c1, c', v, inner)
  {
    hide Valid, Aside;
    AsideOut(c, c1, c', v, at);
    hide Ids;
  }

  lemma {:induction false} InsertedParts(c: Client, c1: Client, v: VNode, at: Spot, ds: seq<Deferred>, k: Rows)
    requires Inserted(c, c1, v, at, ds, k)
    ensures Valid(c1) && v.id in c1.nodes && RefOf(c1.nodes, v.id) == c1.nodes[v.id]
    ensures Standing(c1, v, k) && RootAt(c, c1, v, at) && Aside(c, c1, Ids(v), SpotRefs(at)) && NoTexts(k, Elems(v))
    ensures c1.deferred == c.deferred + (RootMoves(v, at) + ds)
  {
    assert v.id in Ids(v);
    hide Aside, NoTexts;
  }

  lemma {:induction false} RemovedFrom(c: Client, id: uint32, ids: set<uint32>, inner: set<uint32>)
    requires Valid(c) && id in c.nodes && id in ids && inner <= IdsBelow(c.heap, c.nodes[id]) <= ids
    ensures var c' := Apply(c, RemoveNode(id));
            && Valid(c') && c' == c.(heap := c'.heap, nodes := c'.nodes) && c'.heap == Detach(c.heap, c.nodes[id])
            && c'.heap.Keys == c.heap.Keys && c'.nodes.Keys <= c.nodes.Keys - inner - {id}
            && (forall i | i in c'.nodes :: c'.nodes[i] == c.nodes[i])
            && (forall i | i in c.nodes && i !in ids :: i in c'.nodes)
            && (forall i | i in c.nodes && i != id && i !in IdsBelow(c.heap, c.nodes[id]) :: i in c'.nodes)
  {
    RootNotRoot(c, id);
    hide Valid, IdsBelow, Detach, Forest, Apply;
    DetachForest(c.heap, c.nodes[id]);
    RemoveIs(c, id);
    ValidRemoved(c, id);
  }

  lemma RemoveIs(c: Client, id: uint32)
    requires id in c.nodes
    ensures Apply(c, RemoveNode(id))
            == c.(heap := Detach(c.heap, c.nodes[id]), nodes := c.nodes - IdsBelow(c.heap, c.nodes[id]) - {id})
  {
    hide IdsBelow, Detach;
  }

  /** A tree created loose is gone, but the nodes below its root are still registered. */
  lemma {:induction false} GoneVisit(c: Client, c1: Client, v: VNode, at: Spot)
    requires Valid(c) && Proper(v) && Gone(c, v) && AtRootOrLater(at)
    requires Inserted(c, c1, v, at, Links.Edges(v, Links.All), map[])
    ensures var c' := Apply(c1, RemoveNode(v.id));
            && Dropped(c, c1, c', v, {}) && Half(c', v) && Unhung(c', Ids(v))
  {
    var c' := Apply(c1, RemoveNode(v.id));
    NothingBelow(c1, v) by { InsertedParts(c, c1, v, at, Links.Edges(v, Links.All), map[]); }
    InsertedParts(c, c1, v, at, Links.Edges(v, Links.All), map[]);
    StandingBelow(c1, v, map[]);
    DropRoot(c, c1, v, at, {});
    assert Ids(v) <= c1.existing by { AsideExisting(c, c1, Ids(v), SpotRefs(at)); }
    assert c'.existing == c1.existing by {
      AsideExisting(c, c1, Ids(v), SpotRefs(at));
      AsideExisting(c, c', Ids(v), {});
    }
    hide Inserted, Apply, Valid, Gone;
    DroppedHalf(c, c1, c', v);
  }

  lemma AsideExisting(c: Client, c': Client, ids: set<uint32>, x: set<Ref>)
    requires Aside(c, c', ids, x)
    ensures c'.existing == c.existing
  {
  }

  lemma {:induction false} NothingBelow(c: Client, v: VNode)
    requires Standing(c, v, map[])
    ensures v.id in c.nodes && IdsBelow(c.heap, RefOf(c.nodes, v.id)) == {}
  {
    var r := c.nodes[v.id];
    assert Kids(c.heap, r) == [] by {
      if v.VElem? {
        assert v.id in Elems(v);
      }
    }
    hide Standing;
    ClosureLeast(c.heap, {r}, {r});
    assert Closure(c.heap, {r}) == {r};
  }

  lemma {:induction false} DroppedHalf(c: Client, c1: Client, c': Client, v: VNode)
    requires Proper(v) && Standing(c1, v, map[]) && Dropped(c, c1, c', v, {})
    requires Ids(v) <= c'.existing && forall id | id in c1.nodes && id != v.id :: id in c'.nodes
    ensures Half(c', v) && Unhung(c', Ids(v))
  {
    assert Valid(c1) && v.id in c1.nodes;
    assert v.id !in IdsOf(VKids(v));
    KidIds(v);
    hide Aside;
    forall id | id in c1.nodes && id != v.id
      ensures id in c'.nodes && c'.nodes[id] == c1.nodes[id] && c'.nodes[id] in c'.heap
      ensures c'.heap[c'.nodes[id]] == c1.heap[c'.nodes[id]]
    {
      RegistryTells(c1, id, v.id);
      NodesBelowNext(c1);
    }
    hide Valid, Dropped;
    DroppedNamed(c1, c', v);
    DroppedEdges(c1, c', v);
    DroppedLists(c1, c', v);
    DroppedUnhung(c', v);
  }

  lemma {:induction false} DroppedUnhung(c: Client, v: VNode)
    requires Parents(c, Elems(v), Links.Edges(v, Links.All), map[]) && v.id !in c.nodes
    ensures Unhung(c, Ids(v))
  {
    hide Elems, Links.Edges;
    forall id | id in Ids(v) && id in c.nodes ensures c.nodes[id] in c.heap && ParentOf(c.heap, c.nodes[id]) == None {
      var e := EdgeOf(v, id);
    }
  }

  lemma {:induction false} DroppedNamed(c1: Client, c': Client, v: VNode)
    requires Named(c1.heap, c1.nodes, v) && v.id !in IdsOf(VKids(v))
    requires forall id | id in c1.nodes && id != v.id ::
               id in c'.nodes && c'.nodes[id] == c1.nodes[id] && c'.nodes[id] in c'.heap
               && (c'.nodes[id] in c1.heap ==> c'.heap[c'.nodes[id]] == c1.heap[c'.nodes[id]])
    ensures forall x | x in VKids(v) :: Named(c'.heap, c'.nodes, x)
  {
    forall x | x in VKids(v) ensures Named(c'.heap, c'.nodes, x) {
      Links.IdsInside(VKids(v), x);
      assert Named(c1.heap, c1.nodes, x);
      hide Named;
      NamedRelinked(c1, c', x, {});
    }
  }

  lemma {:induction false} DroppedEdges(c1: Client, c': Client, v: VNode)
    requires Parents(c1, Elems(v), Links.Edges(v, Links.All), map[]) && v.id !in IdsOf(VKids(v))
    requires forall id | id in c1.nodes && id != v.id ::
               id in c'.nodes && c'.nodes[id] == c1.nodes[id] && c'.nodes[id] in c'.heap
               && (c'.nodes[id] in c1.heap ==> c'.heap[c'.nodes[id]] == c1.heap[c'.nodes[id]])
    ensures Parents(c', Elems(v), Links.Edges(v, Links.All), map[])
  {
    hide Elems, Links.Edges, IdsOf;
    forall e | e in Links.Edges(v, Links.All)
      ensures e.parent in Elems(v) && e.node in c'.nodes && c'.nodes[e.node] in c'.heap
      ensures ParentOf(c'.heap, c'.nodes[e.node]) == None
    {
      Links.EdgeIds(v, Links.All, e);
    }
  }

  lemma {:induction false} DroppedLists(c1: Client, c': Client, v: VNode)
    requires Lists(c1, Elems(v), map[]) && v.id !in IdsOf(VKids(v))
    requires forall id | id in c1.nodes && id != v.id ::
               id in c'.nodes && c'.nodes[id] == c1.nodes[id] && c'.nodes[id] in c'.heap
               && (c'.nodes[id] in c1.heap ==> c'.heap[c'.nodes[id]] == c1.heap[c'.nodes[id]])
    ensures Lists(c', Inner(v), map[])
  {
    IdsOfParts(VKids(v));
    assert Inner(v) <= Elems(v) && v.id !in Inner(v);
    hide Elems, IdsOf, Inner;
    assert RefList(c'.nodes, []) == RefList(c1.nodes, []);
  }

  /** A tree whose elements had moved below its root is gone with all of them. */
  lemma {:induction false} HalfVisit(c: Client, c1: Client, v: VNode, at: Spot)
    requires Valid(c) && Proper(v) && Half(c, v) && AtRootOrLater(at)
    requires var k := Links.HangAll(map[], Links.Edges(v, Links.Elements));
             Inserted(c, c1, v, at, Links.Edges(v, Links.Texts), k)
    ensures var c' := Apply(c1, RemoveNode(v.id));
            && Dropped(c, c1, c', v, Inner(v)) && Gone(c', v) && Unhung(c', Ids(v))
  {
    var k := Links.HangAll(map[], Links.Edges(v, Links.Elements));
    var c' := Apply(c1, RemoveNode(v.id));
    InsertedParts(c, c1, v, at, Links.Edges(v, Links.Texts), k);
    hide Inserted;
    StandingBelow(c1, v, k);
    Links.EdgesListing(v, Links.Elements);
    Links.ElementsHung(v, map[], Links.Edges(v, Links.Elements));
    StandingSpine(c1, v, k, Elems(v));
    SpineProper(c1, v);
    DropRoot(c, c1, v, at, Inner(v));
    AsideExisting(c, c', Ids(v), {});
    hide Inserted, Apply, Links.Picked, Links.Listing, Spine, Links.HangAll;
    DroppedGone(c, c1, c', v, k);
  }

  lemma {:induction false} DroppedGone(c: Client, c1: Client, c': Client, v: VNode, k: Rows)
    requires Proper(v) && Standing(c1, v, k) && Dropped(c, c1, c', v, Inner(v)) && NoTexts(k, Elems(v))
    requires Ids(v) <= c'.existing
    ensures Gone(c', v) && Unhung(c', Ids(v))
  {
    assert Valid(c1) && v.id in c1.nodes;
    hide Aside, Elems, TextIds, Ids;
    NodesBelowNext(c1);
    assert forall id | id in c'.nodes :: id !in Solid(v);
    forall id | id in Ids(v) && id in c'.nodes
      ensures c'.nodes[id] in c'.heap && ParentOf(c'.heap, c'.nodes[id]) == None
    {
      RegistryTells(c1, id, v.id);
      assert c'.heap[c'.nodes[id]] == c1.heap[c1.nodes[id]];
      TextUnhung(c1, v, k, id);
    }
  }

  lemma {:induction false} TextUnhung(c: Client, v: VNode, k: Rows, id: uint32)
    requires Parents(c, Elems(v), Links.Edges(v, Links.All), k) && NoTexts(k, Elems(v)) && id in Ids(v)
             && id !in Solid(v)
    ensures id in c.nodes && ParentOf(c.heap, c.nodes[id]) == None
  {
    SolidParts(v);
    IdSplit(v, id);
    var e := EdgeOf(v, id);
    hide Elems, Ids, Links.Edges;
    assert e.node !in Links.Row(k, e.parent);
  }

  lemma IdSplit(v: VNode, id: uint32)
    requires id in Ids(v) && id != v.id
    ensures id in IdsOf(VKids(v))
  {
  }

  // ---------------------------------------------------------------- one visit

  /** What is put off below the root. */
  function Part(half: bool): Links.Which {
    if half then Links.Texts else Links.All
  }

  /** Inserted and removed again: the phase changes, nothing else does. */
  lemma {:induction false} Visit(c: Client, v: VNode, half: bool, parent: uint32, msgs: seq<Msg>, at: Spot)
    requires Valid(c) && Proper(v) && Unstyled(v) == v && Away(c, v, half) && parent !in Ids(v) && Goes(c, parent, at)
    requires IsInsertTree(msgs, v, parent) && AtRootOrLater(at)
    ensures var c' := Apply(ApplyAll(c, msgs), RemoveNode(v.id));
            && Valid(c') && Aside(c, c', Ids(v), {}) && Away(c', v, !half) && Unhung(c', Ids(v))
            && c'.deferred == c.deferred + (RootMoves(v, at) + Links.Edges(v, Part(half)))
  {
    var c1 := ApplyAll(c, msgs);
    var k: Rows := if half then Links.HangAll(map[], Links.Edges(v, Links.Elements)) else map[];
    hide Valid, Gone, Half, Inserted, Dropped, Goes, IsInsertTree, Apply, Proper, Unstyled, Links.Edges,
         Links.HangAll, Unhung, Aside, RootMoves;
    if half {
      HalfInserted(c, v, parent, msgs, at);
      HalfVisit(c, c1, v, at);
      DroppedParts(c, c1, Apply(c1, RemoveNode(v.id)), v, Inner(v));
    } else {
      GoneInserted(c, v, parent, msgs, at);
      GoneVisit(c, c1, v, at);
      DroppedParts(c, c1, Apply(c1, RemoveNode(v.id)), v, {});
    }
    InsertedParts(c, c1, v, at, Links.Edges(v, Part(half)), k);
  }

  lemma DroppedParts(c: Client, c1: Client, c': Client, v: VNode, inner: set<uint32>)
    requires Dropped(c, c1, c', v, inner)
    ensures Valid(c') && Aside(c, c', Ids(v), {}) && c'.deferred == c1.deferred
  {
  }

  /** Inserted for good: everything is registered, at least the elements are linked or all is put off. */
  lemma {:induction false} Returned(c: Client, v: VNode, half: bool, parent: uint32, msgs: seq<Msg>)
    returns (k: Rows)
    requires Valid(c) && Proper(v) && Unstyled(v) == v && Away(c, v, half) && parent !in Ids(v)
    requires Goes(c, parent, Later(parent)) && IsInsertTree(msgs, v, parent)
    ensures var c' := ApplyAll(c, msgs);
            && Standing(c', v, k) && RootAt(c, c', v, Later(parent)) && Aside(c, c', Ids(v), {})
            && c'.deferred == c.deferred + ([Deferred(v.id, parent)] + Links.Edges(v, Part(half)))
  {
    k := if half then Links.HangAll(map[], Links.Edges(v, Links.Elements)) else map[];
    hide Valid, Gone, Half, Inserted, Goes, IsInsertTree, Apply, Proper, Unstyled, Links.Edges, Links.HangAll, Aside,
         RootAt;
    if half {
      HalfInserted(c, v, parent, msgs, Later(parent));
    } else {
      GoneInserted(c, v, parent, msgs, Later(parent));
    }
    InsertedParts(c, ApplyAll(c, msgs), v, Later(parent), Links.Edges(v, Part(half)), k);
  }
}
