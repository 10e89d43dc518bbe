/**
 What a removed branch leaves in the client's registry. Removing a node forgets
 the ids of the elements below it; the ids of its texts stay registered. An
 insertion looks up the ids of elements only, so these leftovers do not matter:
 a branch whose elements are forgotten is built again like a new one.
 */
module Solids {
  import opened Seqs
  import opened Wire
  import opened Dom
  import opened Client
  import opened Trees
  import opened Emission
  import opened ForClient
  import ForSteps
  import ForOnPage

  function Elems(v: VNode): set<uint32>
    decreases v
  {
    match v
    case VText(_, _) => {}
    case VElem(id, _, _, _, children) => {id} + ElemsOf(children)
  }

  function ElemsOf(vs: seq<VNode>): set<uint32>
    decreases vs
  {
    if vs == [] then {} else Elems(vs[0]) + ElemsOf(vs[1..])
  }

  function TextIds(v: VNode): set<uint32>
    decreases v
  {
    match v
    case VText(id, _) => {id}
    case VElem(_, _, _, _, children) => TextIdsOf(children)
  }

  function TextIdsOf(vs: seq<VNode>): set<uint32>
    decreases vs
  {
    if vs == [] then {} else TextIds(vs[0]) + TextIdsOf(vs[1..])
  }

  /** The elements below the root. */
  function Inner(v: VNode): set<uint32> {
    ElemsOf(VKids(v))
  }

  /** The ids an insertion of `v` looks up: its root's and its elements'. */
  function Solid(v: VNode): set<uint32> {
    {v.id} + Inner(v)
  }

  lemma {:induction false} IdsParts(v: VNode)
    ensures Ids(v) == Elems(v) + TextIds(v)
    decreases v
  {
    if v.VElem? {
      IdsOfParts(v.children);
    }
  }

  lemma {:induction false} IdsOfParts(vs: seq<VNode>)
    ensures IdsOf(vs) == ElemsOf(vs) + TextIdsOf(vs)
    decreases vs
  {
    if vs != [] {
      IdsParts(vs[0]);
      IdsOfParts(vs[1..]);
    }
  }

  lemma {:induction false} PartsApart(v: VNode)
    requires Proper(v)
    ensures Elems(v) !! TextIds(v)
    decreases v
  {
    if v.VElem? {
      IdsOfParts(v.children);
      PartsOfApart(v.children);
    }
  }

  lemma {:induction false} PartsOfApart(vs: seq<VNode>)
    requires ProperAll(vs)
    ensures ElemsOf(vs) !! TextIdsOf(vs)
    decreases vs
  {
    if vs != [] {
      IdsParts(vs[0]);
      IdsOfParts(vs[1..]);
      PartsApart(vs[0]);
      PartsOfApart(vs[1..]);
    }
  }

  // ------------------------------------------------ what an insertion looks up

  /** The same state but for registrations of `nd` and snapshot entries of `ed`. */
  ghost predicate Alike(c: Client, d: Client, nd: set<uint32>, ed: set<uint32>) {
    && d == c.(nodes := d.nodes, existing := d.existing)
    && (forall id | id !in nd :: (id in c.nodes <==> id in d.nodes) && (id in c.nodes ==> d.nodes[id] == c.nodes[id]))
    && (forall id | id !in ed :: id in c.existing <==> id in d.existing)
  }

  lemma {:induction false} PlaceAlike(c: Client, d: Client, nd: set<uint32>, ed: set<uint32>, id: uint32, e: Elem,
                                      parent: uint32)
    requires Alike(c, d, nd, ed) && parent !in nd && parent !in ed
    ensures Alike(Place(Create(c, id, e), id, c.next, parent, 0), Place(Create(d, id, e), id, d.next, parent, 0),
                  nd - {id}, ed)
  {
    hide Append, InsertBefore;
  }

  /** The insertion of a tree does the same to both. */
  lemma {:induction false} TreeAlike(c: Client, d: Client, nd: set<uint32>, ed: set<uint32>, v: VNode, parent: uint32,
                                     msgs: seq<Msg>)
    requires Alike(c, d, nd, ed) && Elems(v) !! nd && Elems(v) !! ed && parent !in nd && parent !in ed
    requires Elems(v) !! c.nodes.Keys && IsInsertTree(msgs, v, parent) && Proper(v) && parent !in Ids(v)
    ensures Alike(ApplyAll(c, msgs), ApplyAll(d, msgs), nd - TextIds(v), ed)
    ensures forall id | id !in Ids(v) :: id in ApplyAll(c, msgs).nodes <==> id in c.nodes
    ensures ApplyAll(c, msgs).existing == c.existing
    decreases v
  {
    hide Alike, Place, FromPairs;
    ApplyCons(c, msgs);
    ApplyCons(d, msgs);
    var c1, d1 := Apply(c, msgs[0]), Apply(d, msgs[0]);
    match v
    case VText(id, text) =>
      assert msgs[1..] == [];
      PlaceAlike(c, d, nd, ed, id, NewText(text), parent);
      PlaceKeys(c, id, NewText(text), parent);
    case VElem(id, tag, attrs, _, children) =>
      AlikeKnows(c, d, nd, ed, id);
      PlaceAlike(c, d, nd, ed, id, NewElem(id, tag, attrs), parent);
      PlaceKeys(c, id, NewElem(id, tag, attrs), parent);
      AlikeNarrow(c1, d1, nd, ed, id);
      IdsOfParts(children);
      hide Apply;
      ForestAlike(c1, d1, nd, ed, children, id, msgs[1..]);
  }

  lemma AlikeKnows(c: Client, d: Client, nd: set<uint32>, ed: set<uint32>, id: uint32)
    requires Alike(c, d, nd, ed) && id !in nd
    ensures id in c.nodes <==> id in d.nodes
  {
  }

  lemma AlikeNarrow(c: Client, d: Client, nd: set<uint32>, ed: set<uint32>, id: uint32)
    requires Alike(c, d, nd - {id}, ed) && id !in nd
    ensures Alike(c, d, nd, ed)
  {
  }

  lemma {:induction false} PlaceKeys(c: Client, id: uint32, e: Elem, parent: uint32)
    ensures var c' := Place(Create(c, id, e), id, c.next, parent, 0);
            c'.nodes == c.nodes[id := c.next] && c'.existing == c.existing
  {
    hide Append, InsertBefore;
  }

  lemma {:induction false} ForestAlike(c: Client, d: Client, nd: set<uint32>, ed: set<uint32>, vs: seq<VNode>,
                                       parent: uint32, msgs: seq<Msg>)
    requires Alike(c, d, nd, ed) && ElemsOf(vs) !! nd && ElemsOf(vs) !! ed && parent !in nd && parent !in ed
    requires ElemsOf(vs) !! c.nodes.Keys && IsInsertForest(msgs, vs, parent) && ProperAll(vs) && parent !in IdsOf(vs)
    ensures Alike(ApplyAll(c, msgs), ApplyAll(d, msgs), nd - TextIdsOf(vs), ed)
    ensures forall id | id !in IdsOf(vs) :: id in ApplyAll(c, msgs).nodes <==> id in c.nodes
    ensures ApplyAll(c, msgs).existing == c.existing
    decreases vs
  {
    hide Alike, Apply, Ids, Elems, TextIds, IsInsertTree, Proper;
    if vs == [] {
      assert nd - {} == nd;
    } else {
      var front, rest := InsertSplit(msgs, vs, parent);
      hide IsInsertForest;
      ApplyAllSplit(c, front, rest);
      ApplyAllSplit(d, front, rest);
      TreeAlike(c, d, nd, ed, vs[0], parent, front);
      IdsParts(vs[0]);
      IdsOfParts(vs[1..]);
      ForestAlike(ApplyAll(c, front), ApplyAll(d, front), nd - TextIds(vs[0]), ed, vs[1..], parent, rest);
      assert nd - TextIds(vs[0]) - TextIdsOf(vs[1..]) == nd - TextIdsOf(vs);
    }
  }

  // -------------------------------------------------------- building it again

  /** `v` stands where it was put; ids and DOM nodes that are not its own are as before. */
  ghost predicate Rebuilt(c: Client, c': Client, v: VNode, at: Spot) {
    && Valid(c') && c'.depth == c.depth && c'.existing == c.existing && c.next <= c'.next
    && Renewed(c, c', Ids(v))
    && (forall r | r in c.heap :: r in c'.heap && (at == Below(r) || c'.heap[r] == c.heap[r]))
    && StandsAt(c, c', Unstyled(v), at)
  }

  /** `ids` are registered for new DOM nodes, all others are as before. */
  ghost predicate Renewed(c: Client, c': Client, ids: set<uint32>) {
    && (forall id | id !in ids ::
         (id in c'.nodes <==> id in c.nodes) && (id in c.nodes ==> c'.nodes[id] == c.nodes[id]))
    && (forall id | id in ids :: id in c'.nodes && c.next <= c'.nodes[id])
  }

  ghost predicate StandsAt(c: Client, c': Client, v: VNode, at: Spot) {
    && ShownAt(c', v, if at.Below? then Some(at.ref) else None)
    && match at
       case Below(p) =>
         p in c.heap && p in c'.heap && c'.deferred == c.deferred
         && c'.heap[p] == c.heap[p].(children := c.heap[p].children + [RefOf(c'.nodes, v.id)])
       case Later(q) => c'.deferred == c.deferred + [Deferred(v.id, q)]
  }

  /** The ids of its texts may be registered from an earlier showing: the tree is built all the same. */
  lemma {:induction false} ShowBuilds(c: Client, v: VNode, parent: uint32, msgs: seq<Msg>, at: Spot)
    requires Valid(c) && Proper(v) && 0 !in c.nodes && 0 !in c.existing
    requires Solid(v) !! c.nodes.Keys && Solid(v) !! c.existing && parent !in Ids(v) && Goes(c, parent, at)
    requires IsInsertTree(msgs, v, parent)
    ensures Rebuilt(c, ApplyAll(c, msgs), v, at)
  {
    var t := TextIds(v);
    var d := c.(nodes := c.nodes - t, existing := c.existing - t);
    IdsParts(v);
    PartsApart(v);
    ProperNonZero(v);
    SolidParts(v);
    ForgetValid(c, t);
    ForgetReady(c, d, v, parent, at);
    hide Valid, Goes, IsInsertTree, Alike, Rebuilt, Built, Unseen, Ids, Elems, TextIds, Solid, Proper, ApplyAll;
    InsertTreeBuilds(d, v, parent, msgs, at);
    TreeAlike(c, d, t, t, v, parent, msgs);
    assert t - t == {};
    BuiltAgain(c, d, ApplyAll(c, msgs), ApplyAll(d, msgs), v, at);
  }

  lemma {:induction false} ForgetReady(c: Client, d: Client, v: VNode, parent: uint32, at: Spot)
    requires d == c.(nodes := c.nodes - TextIds(v), existing := c.existing - TextIds(v))
    requires 0 !in c.nodes && 0 !in c.existing && 0 !in Ids(v) && Ids(v) == Solid(v) + TextIds(v)
    requires Solid(v) !! c.nodes.Keys && Solid(v) !! c.existing && parent !in Ids(v) && Goes(c, parent, at)
    ensures Goes(d, parent, at) && Unseen(d, Ids(v)) && Alike(c, d, TextIds(v), TextIds(v))
  {
  }

  lemma {:induction false} SolidParts(v: VNode)
    ensures Elems(v) <= Solid(v) && Solid(v) <= Ids(v)
    ensures Ids(v) == Solid(v) + TextIds(v)
  {
    IdsParts(v);
  }

  lemma {:induction false} ForgetValid(c: Client, t: set<uint32>)
    requires Valid(c)
    ensures Valid(c.(nodes := c.nodes - t, existing := c.existing - t))
  {
    hide Forest;
  }

  lemma {:induction false} BuiltAgain(c: Client, d: Client, c': Client, d': Client, v: VNode, at: Spot)
    requires Alike(c, d, TextIds(v), TextIds(v)) && Alike(c', d', {}, TextIds(v)) && Built(d, d', [Unstyled(v)], at)
    requires forall id | id !in Ids(v) :: id in c'.nodes <==> id in c.nodes
    requires c'.existing == c.existing && TextIds(v) <= Ids(v)
    ensures Rebuilt(c, c', v, at)
  {
    BuiltOne(d, d', Unstyled(v), at);
    hide Built, ShownAt, Valid, StandsAt, Ids, TextIds, Alike, Renewed;
    AlikeSame(c, d, TextIds(v), TextIds(v));
    AlikeSame(c', d', {}, TextIds(v));
    assert c'.nodes == d'.nodes by { AlikeAll(c', d', TextIds(v)); }
    ValidAlike(c', d');
    RegisteredAgain(c, d, c', d', v);
    PutAgain(c, d, c', d', v, at);
  }

  lemma AlikeAll(c: Client, d: Client, ed: set<uint32>)
    requires Alike(c, d, {}, ed)
    ensures c.nodes == d.nodes && c.heap == d.heap && c.next == d.next && c.depth == d.depth && c.deferred == d.deferred
  {
  }

  lemma AlikeSame(c: Client, d: Client, nd: set<uint32>, ed: set<uint32>)
    requires Alike(c, d, nd, ed)
    ensures c.heap == d.heap && c.next == d.next && c.depth == d.depth && c.deferred == d.deferred
  {
  }

  lemma {:induction false} RegisteredAgain(c: Client, d: Client, c': Client, d': Client, v: VNode)
    requires Alike(c, d, TextIds(v), TextIds(v)) && TextIds(v) <= Ids(v) && c'.nodes == d'.nodes
    requires d'.nodes.Keys == d.nodes.Keys + Ids(v) && forall id | id in d.nodes :: d'.nodes[id] == d.nodes[id]
    requires forall id | id in Ids(v) :: d.next <= d'.nodes[id]
    requires forall id | id !in Ids(v) :: id in c'.nodes <==> id in c.nodes
    ensures Renewed(c, c', Ids(v))
  {
  }

  lemma {:induction false} PutAgain(c: Client, d: Client, c': Client, d': Client, v: VNode, at: Spot)
    requires d.heap == c.heap && d'.heap == c'.heap && d.deferred == c.deferred && d'.deferred == c'.deferred
    requires c'.nodes == d'.nodes && StandsAt(d, d', Unstyled(v), at)
    ensures StandsAt(c, c', Unstyled(v), at)
  {
    ShownAlike(c', d', Unstyled(v), if at.Below? then Some(at.ref) else None);
    hide ShownAt;
  }

  lemma ValidAlike(c: Client, d: Client)
    requires Valid(d) && c.heap == d.heap && c.nodes == d.nodes && c.next == d.next
    ensures Valid(c)
  {
  }

  lemma ShownAlike(c: Client, d: Client, v: VNode, parent: Option<Ref>)
    requires ShownAt(d, v, parent) && c.heap == d.heap && c.nodes == d.nodes
    ensures ShownAt(c, v, parent)
  {
  }

  /** What it means that one tree has been built. */
  lemma {:induction false} BuiltOne(c: Client, c': Client, v: VNode, at: Spot)
    requires Built(c, c', [v], at)
    ensures Valid(c') && c'.depth == c.depth && c'.existing == c.existing && c.next <= c'.next
    ensures c'.nodes.Keys == c.nodes.Keys + Ids(v)
    ensures forall id | id in c.nodes :: c'.nodes[id] == c.nodes[id]
    ensures forall id | id in Ids(v) :: c.next <= c'.nodes[id]
    ensures forall r | r in c.heap :: r in c'.heap && (at == Below(r) || c'.heap[r] == c.heap[r])
    ensures StandsAt(c, c', v, at)
  {
    assert [v][1..] == [] && IdsOf([v]) == Ids(v);
    hide Valid, Placed, StandsAt, Ids;
    OneStands(c, c', v, at);
  }

  lemma {:induction false} OneStands(c: Client, c': Client, v: VNode, at: Spot)
    requires Placed(c, c', [v], at)
    ensures StandsAt(c, c', v, at)
  {
    assert [v][1..] == [];
    assert Refs(c'.nodes, [v]) == [RefOf(c'.nodes, v.id)] + Refs(c'.nodes, []);
    ShowsOne(c'.heap, c'.nodes, v, if at.Below? then Some(at.ref) else None);
    hide Shows;
    assert at.Later? ==> DeferAll([v], at.parent) == [Deferred(v.id, at.parent)] + DeferAll([], at.parent);
  }

  // ------------------------------------------------------------------ removals

  lemma {:induction false} RootNotRoot(c: Client, id: uint32)
    requires Valid(c) && id in c.nodes
    ensures Forest(c.heap) && c.nodes[id] != ROOT
  {
  }

  lemma {:induction false} KidsOld(c: Client, r: Ref)
    requires Valid(c) && c.next <= r
    ensures r !in Kids(c.heap, ROOT)
  {
    assert NodeOk(c.heap, ROOT);
  }

  lemma {:induction false} ValidRemoved(c: Client, id: uint32)
    requires Valid(c) && id in c.nodes && Forest(Detach(c.heap, c.nodes[id]))
             && Detach(c.heap, c.nodes[id]).Keys == c.heap.Keys
    ensures Valid(Apply(c, RemoveNode(id)))
  {
    hide Forest, IdsBelow, Detach;
  }

  lemma {:induction false} RemoveKeeps(c: Client, id: uint32, ids: set<uint32>)
    requires id in c.nodes && id in ids && IdsBelow(c.heap, c.nodes[id]) <= ids
    ensures var c' := Apply(c, RemoveNode(id));
            && c' == c.(heap := Detach(c.heap, c.nodes[id]), nodes := c'.nodes)
            && (forall i | i in c'.nodes :: i in c.nodes && c'.nodes[i] == c.nodes[i])
            && (forall i | i in c.nodes && i !in ids :: i in c'.nodes)
  {
    hide IdsBelow, Detach;
  }

  /** Removing a shown tree detaches its root and forgets at most its ids. */
  lemma {:induction false} RemovedFacts(c: Client, v: VNode)
    requires Valid(c) && Shows(c.heap, c.nodes, v)
    ensures v.id in c.nodes && c.nodes[v.id] in c.heap
    ensures var c' := Apply(c, RemoveNode(v.id));
            && Valid(c') && c' == c.(heap := Detach(c.heap, c.nodes[v.id]), nodes := c'.nodes)
            && (forall id | id in c'.nodes :: id in c.nodes && c'.nodes[id] == c.nodes[id])
            && (forall id | id in c.nodes && id !in Ids(v) :: id in c'.nodes)
  {
    ForOnPage.ShowsRoot(c, v);
    RootNotRoot(c, v.id);
    assert v.id in Ids(v);
    hide Shows, Valid;
    ForSteps.BelowTree(c, v);
    hide IdsBelow, Detach, Forest;
    DetachForest(c.heap, c.nodes[v.id]);
    ValidRemoved(c, v.id);
    RemoveKeeps(c, v.id, Ids(v));
  }
}
