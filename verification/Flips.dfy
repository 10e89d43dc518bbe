/**
 A container's flips within one batch. Between the first removal and the last
 insertion the container is empty; the branch shown at the start alternates
 between forgotten and half registered, all others are forgotten.
 */
module Flips {
  import opened Seqs
  import opened Wire
  import opened Dom
  import opened Client
  import opened Trees
  import opened Emission
  import opened ForClient
  import opened Solids
  import opened Hanging
  import opened Scatter
  import opened Skeleton
  import opened Returns
  import opened FlipStreams
  import ForSteps
  import ForChanges
  import ForOnPage
  import Links

  /** Branches other than the shown one: their roots and elements are unknown. */
  ghost predicate Forgotten(c: Client, s: Setting, d: Option<VNode>) {
    forall b | b in s.all && Some(b) != d :: Solid(b) !! c.nodes.Keys && Solid(b) !! c.existing
  }

  /** Once something of `v` has been put off, its registered nodes hang nowhere. */
  ghost predicate Waits(c: Client, v: VNode) {
    (exists e :: e in c.deferred && e.node in Ids(v) && e.node != v.id) ==> Unhung(c, Ids(v))
  }

  ghost predicate Empty(c: Client, s: Setting) {
    Holder(c, s) && Kids(c.heap, s.ref) == [] && 0 !in c.nodes && 0 !in c.existing
  }

  /** The branch shown when the batch began. */
  ghost predicate Shelved(c: Client, s: Setting, d: Option<VNode>, half: bool) {
    d.Some? ==> d.value in s.all && Away(c, Unstyled(d.value), half) && Waits(c, d.value)
  }

  ghost predicate Scene(c: Client, s: Setting, d: Option<VNode>, half: bool) {
    Empty(c, s) && Fair(s) && Forgotten(c, s, d) && Shelved(c, s, d, half)
  }

  // -------------------------------------------------- what a step leaves alone

  lemma {:induction false} AwayAside(c: Client, c': Client, v: VNode, half: bool, ids: set<uint32>, x: set<Ref>)
    requires Valid(c) && Aside(c, c', ids, x) && Away(c, v, half) && Ids(v) !! ids
    requires forall id | id in Ids(v) && id in c.nodes :: c.nodes[id] !in x
    ensures Away(c', v, half)
  {
    SolidParts(v);
    if half {
      hide Valid;
      HalfAside(c, c', v, ids, x) by { AsideTold(c, c', ids, x, Ids(v)); }
    } else {
      hide Valid;
    }
  }

  lemma {:induction false} AsideTold(c: Client, c': Client, ids: set<uint32>, x: set<Ref>, more: set<uint32>)
    requires Valid(c) && Aside(c, c', ids, x) && more !! ids
    requires forall id | id in more && id in c.nodes :: c.nodes[id] !in x
    ensures forall id | id in more && id in c.nodes ::
              id in c'.nodes && c'.nodes[id] == c.nodes[id] && c.nodes[id] in c'.heap
                && c'.heap[c.nodes[id]] == c.heap[c.nodes[id]]
    ensures forall id | id in more && id in c'.nodes :: id in c.nodes
  {
    hide Forest;
    forall id | id in more && id in c.nodes
      ensures id in c'.nodes && c'.nodes[id] == c.nodes[id] && c.nodes[id] in c'.heap
              && c'.heap[c.nodes[id]] == c.heap[c.nodes[id]]
    {
      assert c.nodes[id] !in Nodes(c, ids);
    }
  }

  lemma {:induction false} HalfAside(c: Client, c': Client, v: VNode, ids: set<uint32>, x: set<Ref>)
    requires Half(c, v) && c'.existing == c.existing && v.id in Ids(v)
    requires forall id | id in Ids(v) && id in c.nodes ::
               id in c'.nodes && c'.nodes[id] == c.nodes[id] && c.nodes[id] in c'.heap
               && (c.nodes[id] in c.heap ==> c'.heap[c.nodes[id]] == c.heap[c.nodes[id]])
    requires forall id | id in Ids(v) && id in c'.nodes :: id in c.nodes
    ensures Half(c', v)
  {
    KidIds(v);
    SolidParts(v);
    hide Ids;
    forall w | w in VKids(v) ensures Named(c'.heap, c'.nodes, w) {
      Links.IdsInside(VKids(v), w);
      assert Named(c.heap, c.nodes, w);
      hide Named;
      NamedRelinked(c, c', w, {});
    }
    hide Named;
    assert Lists(c', Inner(v), map[]) by {
      assert RefList(c'.nodes, []) == RefList(c.nodes, []);
    }
    forall e | e in Links.Edges(v, Links.All)
      ensures e.parent in Elems(v) && e.node in c'.nodes && c'.nodes[e.node] in c'.heap
      ensures ParentOf(c'.heap, c'.nodes[e.node]) == None
    {
      Links.EdgeIds(v, Links.All, e);
    }
  }

  lemma {:induction false} EmptyAside(c: Client, c': Client, s: Setting, v: VNode)
    requires Empty(c, s) && Fair(s) && v in s.all && Aside(c, c', Ids(v), {}) && Valid(c')
    ensures Empty(c', s)
  {
    NotHolder(c, s, v);
    MemberOf(s.all, v);
    assert Valid(c) && s.ref in c.heap && s.ref < c.next;
    hide Valid, Ids, Fair;
  }

  lemma {:induction false} ForgottenAside(c: Client, c': Client, s: Setting, d: Option<VNode>, v: VNode)
    requires Forgotten(c, s, d) && Fair(s) && v in s.all && Aside(c, c', Ids(v), {})
    requires Some(v) != d ==> Solid(v) !! c'.nodes.Keys
    ensures Forgotten(c', s, d)
  {
    forall b | b in s.all && Some(b) != d ensures Solid(b) !! c'.nodes.Keys && Solid(b) !! c'.existing {
      if b != v {
        Disjoint(s.all, b, v);
        SolidParts(b);
      }
    }
  }

  lemma {:induction false} ShelvedAside(c: Client, c': Client, s: Setting, d: Option<VNode>, half: bool, v: VNode)
    requires Valid(c) && Shelved(c, s, d, half) && Fair(s) && v in s.all && Some(v) != d && Aside(c, c', Ids(v), {})
    requires forall e | e in c'.deferred :: e in c.deferred || e.node == v.id
    ensures Shelved(c', s, d, half)
  {
    if d.Some? {
      var w := d.value;
      Disjoint(s.all, w, v);
      assert v.id in Ids(v);
      AwayAside(c, c', Unstyled(w), half, Ids(v), {});
      AsideTold(c, c', Ids(v), {}, Ids(w));
      hide Ids, Away, Aside;
    }
  }

  lemma {:induction false} AsideElsewhere(c: Client, c': Client, s: Setting, v: VNode)
    requires Fair(s) && v in s.all && Aside(c, c', Ids(v), {})
    ensures Elsewhere(c, c', s)
  {
    MemberOf(s.all, v);
    forall r | r in c.heap && r < c.next && r != s.ref && !Owned(c, s, r)
      ensures r in c'.heap && c'.heap[r] == c.heap[r]
    {
      assert r !in Nodes(c, Ids(v));
    }
  }

  // ------------------------------------------------------------- other branches

  /** Where an insertion below `parent` goes. */
  function SpotFor(s: Setting, parent: uint32): Spot {
    if parent == s.container then Later(s.container) else Below(ROOT)
  }

  lemma {:induction false} SpotGoes(c: Client, s: Setting, v: VNode, parent: uint32)
    requires Empty(c, s) && Fair(s) && v in s.all && (parent == s.container || parent == 0)
    ensures parent !in Ids(v) && Goes(c, parent, SpotFor(s, parent)) && AtRootOrLater(SpotFor(s, parent))
    ensures Valid(c) && Proper(v)
            && RootMoves(v, SpotFor(s, parent)) == if parent == s.container then [Deferred(v.id, parent)] else []
  {
    MemberOf(s.all, v);
    NotHolder(c, s, v);
    assert Forest(c.heap);
    hide Proper, Ids, Fair;
  }

  lemma {:induction false} RebuiltRoot(c: Client, c': Client, v: VNode, at: Spot)
    requires Valid(c) && Rebuilt(c, c', v, at)
    ensures RootAt(c, c', v, at) && Aside(c, c', Ids(v), SpotRefs(at)) && Shows(c'.heap, c'.nodes, Unstyled(v))
            && Valid(c')
    ensures c'.deferred == c.deferred + RootMoves(v, at)
  {
    assert v.id in Ids(v);
    hide Valid, Ids, Shows, Unstyled;
    RebuiltAside(c, c', v, at);
    hide Aside, SpotRefs, Renewed;
    ForChanges.ShownShows(c', Unstyled(v), if at.Below? then Some(at.ref) else None);
    ForOnPage.ShowsRoot(c', Unstyled(v));
    RenewedAt(c, c', Ids(v), v.id);
    hide ShownAt;
    assert c.deferred + [] == c.deferred;
  }

  lemma RenewedAt(c: Client, c': Client, ids: set<uint32>, id: uint32)
    requires Renewed(c, c', ids) && id in ids
    ensures id in c'.nodes && c.next <= c'.nodes[id]
  {
  }

  lemma {:induction false} RebuiltAside(c: Client, c': Client, v: VNode, at: Spot)
    requires Rebuilt(c, c', v, at)
    ensures Aside(c, c', Ids(v), SpotRefs(at))
  {
    hide Valid, Ids, StandsAt;
  }

  lemma {:induction false} InnerUnstyled(v: VNode)
    ensures Elems(Unstyled(v)) == Elems(v) && TextIds(Unstyled(v)) == TextIds(v)
    ensures Inner(Unstyled(v)) == Inner(v)
    decreases v
  {
    if v.VElem? {
      InnerUnstyledAll(v.children);
    }
  }

  lemma {:induction false} InnerUnstyledAll(vs: seq<VNode>)
    ensures ElemsOf(UnstyledAll(vs)) == ElemsOf(vs) && TextIdsOf(UnstyledAll(vs)) == TextIdsOf(vs)
    decreases vs
  {
    if vs != [] {
      InnerUnstyled(vs[0]);
      InnerUnstyledAll(vs[1..]);
      assert UnstyledAll(vs)[1..] == UnstyledAll(vs[1..]);
    }
  }

  /** A shown tree is removed: all its elements are forgotten. */
  lemma {:induction false} ShownBelow(c: Client, v: VNode)
    requires Valid(c) && Shows(c.heap, c.nodes, v)
    ensures v.id in c.nodes && Inner(v) - {v.id} <= IdsBelow(c.heap, c.nodes[v.id]) <= Ids(v)
  {
    ForOnPage.ShowsRoot(c, v);
    ForSteps.BelowTree(c, v);
    ShownSpine(c, v);
    SpineBelow(c, v);
  }

  /** A branch the client has forgotten is shown and hidden: the page is as before, and it is forgotten again. */
  lemma {:induction false} Discarded(c: Client, v: VNode, parent: uint32, msgs: seq<Msg>, at: Spot)
    requires Valid(c) && Proper(v) && 0 !in c.nodes && 0 !in c.existing && Solid(v) !! c.nodes.Keys
             && Solid(v) !! c.existing
    requires parent !in Ids(v) && Goes(c, parent, at) && AtRootOrLater(at) && IsInsertTree(msgs, v, parent)
    ensures var c' := Apply(ApplyAll(c, msgs), RemoveNode(v.id));
            && Valid(c') && Aside(c, c', Ids(v), {}) && Solid(v) !! c'.nodes.Keys
            && c'.deferred == c.deferred + RootMoves(v, at)
  {
    var c1 := ApplyAll(c, msgs);
    ShowBuilds(c, v, parent, msgs, at);
    RebuiltRoot(c, c1, v, at);
    assert c1.nodes[v.id] == c1.nodes[v.id];
    hide Valid, Rebuilt, Goes, IsInsertTree, ApplyAll, Apply, Aside, Shows, RootMoves, Proper;
    ShownBelow(c1, Unstyled(v));
    InnerUnstyled(v);
    hide Unstyled, Inner;
    var inner := Inner(v) - {v.id};
    DropRoot(c, c1, v, at, inner);
    DroppedParts(c, c1, Apply(c1, RemoveNode(v.id)), v, inner);
    DroppedSolid(c, c1, Apply(c1, RemoveNode(v.id)), v);
  }

  lemma DroppedSolid(c: Client, c1: Client, c': Client, v: VNode)
    requires Dropped(c, c1, c', v, Inner(v) - {v.id})
    ensures Solid(v) !! c'.nodes.Keys
  {
    assert forall id | id in c'.nodes :: id !in Solid(v);
  }

  // ------------------------------------------------------------ the whole stream

  /** The phase after one visit. */
  predicate Toggled(half: bool, d: Option<VNode>, b: Option<VNode>) {
    if b.Some? && b == d then !half else half
  }

  /** What showing one branch puts off. */
  function HeldOne(container: uint32, d: Option<VNode>, b: Option<VNode>, last: bool, half: bool): seq<Deferred> {
    if b.None? then []
    else (if last then [Deferred(b.value.id, container)] else [])
         + (if b == d then Links.Edges(Unstyled(b.value), Part(half)) else [])
  }

  /** What all of them put off. */
  function Held(container: uint32, d: Option<VNode>, bs: seq<Option<VNode>>, half: bool): seq<Deferred>
    requires bs != []
    decreases bs
  {
    HeldOne(container, d, bs[0], bs[0] == Last(bs), half)
    + if |bs| == 1 then [] else Held(container, d, bs[1..], Toggled(half, d, bs[0]))
  }

  /** The phase in which the last one is shown. */
  predicate Before(d: Option<VNode>, bs: seq<Option<VNode>>, half: bool)
    requires bs != []
    decreases bs
  {
    if |bs| == 1 then half else Before(d, bs[1..], Toggled(half, d, bs[0]))
  }

  lemma {:induction false} InsertUnstyled(msgs: seq<Msg>, v: VNode, parent: uint32)
    requires IsInsertTree(msgs, v, parent)
    ensures IsInsertTree(msgs, Unstyled(v), parent) && Unstyled(Unstyled(v)) == Unstyled(v)
    decreases v
  {
    if v.VElem? {
      InsertUnstyledAll(msgs[1..], v.children, v.id);
    }
  }

  lemma {:induction false} InsertUnstyledAll(msgs: seq<Msg>, vs: seq<VNode>, parent: uint32)
    requires IsInsertForest(msgs, vs, parent)
    ensures IsInsertForest(msgs, UnstyledAll(vs), parent) && UnstyledAll(UnstyledAll(vs)) == UnstyledAll(vs)
    decreases vs
  {
    if vs != [] {
      var k :| 0 <= k <= |msgs| && IsInsertTree(msgs[..k], vs[0], parent) && IsInsertForest(msgs[k..], vs[1..], parent);
      InsertUnstyled(msgs[..k], vs[0], parent);
      InsertUnstyledAll(msgs[k..], vs[1..], parent);
      assert UnstyledAll(vs)[1..] == UnstyledAll(vs[1..]);
    }
  }

  /** Another branch comes and goes. */
  lemma {:induction false} OtherVisit(c: Client, s: Setting, d: Option<VNode>, half: bool, v: VNode, parent: uint32,
                                      msgs: seq<Msg>)
    requires Scene(c, s, d, half) && v in s.all && Some(v) != d && (parent == s.container || parent == 0)
    requires IsInsertTree(msgs, v, parent)
    ensures var c' := Apply(ApplyAll(c, msgs), RemoveNode(v.id));
            && Scene(c', s, d, half) && Elsewhere(c, c', s)
            && c'.deferred == c.deferred + if parent == s.container then [Deferred(v.id, parent)] else []
  {
    var c' := Apply(ApplyAll(c, msgs), RemoveNode(v.id));
    hide Apply, ApplyAll, IsInsertTree, Scene, Elsewhere, Aside, Solid, Valid, Ids;
    OtherGoes(c, s, d, half, v, parent, msgs);
    SceneBeside(c, c', s, d, half, v);
  }

  /** The scene after something of another branch alone has changed. */
  lemma {:induction false} SceneBeside(c: Client, c': Client, s: Setting, d: Option<VNode>, half: bool, v: VNode)
    requires Valid(c) && Valid(c') && Scene(c, s, d, half) && v in s.all && Some(v) != d && Aside(c, c', Ids(v), {})
    requires Solid(v) !! c'.nodes.Keys && forall e | e in c'.deferred :: e in c.deferred || e.node == v.id
    ensures Scene(c', s, d, half) && Elsewhere(c, c', s)
  {
    hide Valid, Fair, Forgotten, Shelved, Aside, Elsewhere, Empty;
    EmptyAside(c, c', s, v);
    ForgottenAside(c, c', s, d, v);
    ShelvedAside(c, c', s, d, half, v);
    AsideElsewhere(c, c', s, v);
  }

  lemma {:induction false} OtherGoes(c: Client, s: Setting, d: Option<VNode>, half: bool, v: VNode, parent: uint32,
                                     msgs: seq<Msg>)
    requires Scene(c, s, d, half) && v in s.all && Some(v) != d && (parent == s.container || parent == 0)
    requires IsInsertTree(msgs, v, parent)
    ensures var c' := Apply(ApplyAll(c, msgs), RemoveNode(v.id));
            && Valid(c) && Valid(c') && Aside(c, c', Ids(v), {}) && Solid(v) !! c'.nodes.Keys
            && c'.deferred == c.deferred + if parent == s.container then [Deferred(v.id, parent)] else []
  {
    SpotGoes(c, s, v, parent);
    ForgottenOne(c, s, d, v);
    assert 0 !in c.nodes && 0 !in c.existing;
    hide Valid, Scene, Goes, IsInsertTree, Apply, Aside, Solid, Proper, RootMoves, ApplyAll, SpotFor, AtRootOrLater;
    Discarded(c, v, parent, msgs, SpotFor(s, parent));
  }

  lemma ForgottenOne(c: Client, s: Setting, d: Option<VNode>, v: VNode)
    requires Forgotten(c, s, d) && v in s.all && Some(v) != d
    ensures Solid(v) !! c.nodes.Keys && Solid(v) !! c.existing
  {
  }

  /** The branch shown at the start comes and goes. */
  lemma {:induction false} OwnVisit(c: Client, s: Setting, half: bool, v: VNode, parent: uint32, msgs: seq<Msg>)
    requires Scene(c, s, Some(v), half) && (parent == s.container || parent == 0) && IsInsertTree(msgs, v, parent)
    ensures var c' := Apply(ApplyAll(c, msgs), RemoveNode(v.id));
            && Scene(c', s, Some(v), !half) && Elsewhere(c, c', s)
            && c'.deferred == c.deferred + HeldOne(s.container, Some(v), Some(v), parent == s.container, half)
  {
    var c' := Apply(ApplyAll(c, msgs), RemoveNode(v.id));
    var u := Unstyled(v);
    SpotGoes(c, s, v, parent);
    assert Away(c, u, half);
    InsertUnstyled(msgs, v, parent);
    UnstyledProper(v);
    hide Valid, Fair, Forgotten, Shelved, Goes, IsInsertTree, Apply, Aside, Solid, Proper, Elsewhere, Unstyled, Away,
         Empty, Links.Edges, Unhung;
    assert RootMoves(u, SpotFor(s, parent)) == RootMoves(v, SpotFor(s, parent));
    hide RootMoves;
    Visit(c, u, half, parent, msgs, SpotFor(s, parent));
    EmptyAside(c, c', s, v);
    ForgottenAside(c, c', s, Some(v), v);
    AsideElsewhere(c, c', s, v);
    ShelvedAgain(c', s, v, !half);
  }

  lemma ShelvedAgain(c: Client, s: Setting, v: VNode, half: bool)
    requires v in s.all && Away(c, Unstyled(v), half) && Unhung(c, Ids(v))
    ensures Shelved(c, s, Some(v), half)
  {
  }

  lemma ContainerNotZero(c: Client, s: Setting)
    requires Empty(c, s)
    ensures s.container != 0
  {
  }

  /** One branch that does not stay. */
  lemma {:induction false} OneVisit(c: Client, s: Setting, d: Option<VNode>, half: bool, bs: seq<Option<VNode>>,
                                    msgs: seq<Msg>)
    requires Scene(c, s, d, half) && bs != [] && (bs[0].Some? ==> bs[0].value in s.all)
    requires IsShow(msgs, bs[0], ParentAtFlush(s.container, bs))
    ensures var c' := ApplyAll(ApplyAll(c, msgs), Drop(bs[0]));
            && Scene(c', s, d, Toggled(half, d, bs[0])) && Elsewhere(c, c', s)
            && c'.deferred == c.deferred + HeldOne(s.container, d, bs[0], bs[0] == Last(bs), half)
  {
    var b, parent := bs[0], ParentAtFlush(s.container, bs);
    ContainerNotZero(c, s);
    hide Scene, Elsewhere, IsInsertTree, Apply, ApplyAll, Links.Edges, Unstyled, HeldOne;
    if b.None? {
      NothingApplied(c, msgs);
      ForOnPage.ElsewhereNone(c, s);
      HeldNone(s.container, d, b == Last(bs), half);
      assert c.deferred + [] == c.deferred;
    } else {
      OneApplied(ApplyAll(c, msgs), RemoveNode(b.value.id));
      if b == d {
        OwnVisit(c, s, half, b.value, parent, msgs);
      } else {
        OtherVisit(c, s, d, half, b.value, parent, msgs);
        HeldOther(s.container, d, b, b == Last(bs), half);
      }
    }
  }

  lemma NothingApplied(c: Client, msgs: seq<Msg>)
    ensures msgs == [] ==> ApplyAll(c, msgs) == c && ApplyAll(ApplyAll(c, msgs), []) == c
  {
  }

  lemma OneApplied(c: Client, m: Msg)
    ensures ApplyAll(c, [m]) == Apply(c, m)
  {
    hide Apply;
    ApplyCons(c, [m]);
  }

  lemma HeldNone(container: uint32, d: Option<VNode>, last: bool, half: bool)
    ensures HeldOne(container, d, None, last, half) == []
  {
  }

  lemma HeldOther(container: uint32, d: Option<VNode>, b: Option<VNode>, last: bool, half: bool)
    requires b.Some? && b != d
    ensures HeldOne(container, d, b, last, half) == if last then [Deferred(b.value.id, container)] else []
  {
  }

  /** After the last branch has been inserted; `half` is the phase before that. */
  ghost predicate Ended(c: Client, s: Setting, d: Option<VNode>, last: Option<VNode>, half: bool) {
    && Empty(c, s) && Fair(s)
    && (forall b | b in s.all && Some(b) != d && Some(b) != last :: Solid(b) !! c.nodes.Keys)
    && (last.Some? ==> last.value in s.all && Came(c, last.value, last == d))
    && (last != d ==> Shelved(c, s, d, half))
  }

  /** The last branch, not attached yet. */
  ghost predicate Came(c: Client, v: VNode, back: bool) {
    if back then exists k :: Standing(c, Unstyled(v), k) && ParentOf(c.heap, RefOf(c.nodes, v.id)) == None
    else ShownAt(c, Unstyled(v), None)
  }

  lemma {:induction false} LastOther(c: Client, s: Setting, d: Option<VNode>, half: bool, v: VNode, msgs: seq<Msg>)
    requires Scene(c, s, d, half) && v in s.all && Some(v) != d && IsInsertTree(msgs, v, s.container)
    ensures var c' := ApplyAll(c, msgs);
            && Ended(c', s, d, Some(v), half) && Elsewhere(c, c', s)
            && c'.deferred == c.deferred + [Deferred(v.id, s.container)]
  {
    var c' := ApplyAll(c, msgs);
    hide Fair, Forgotten, Shelved, IsInsertTree, Apply, Aside, Elsewhere, Empty, Came;
    LastBuilt(c, s, d, half, v, msgs);
    hide ApplyAll;
    EmptyAside(c, c', s, v);
    ShelvedAside(c, c', s, d, half, v);
    AsideElsewhere(c, c', s, v);
    OthersForgotten(c, c', s, d, v);
  }

  lemma {:induction false} LastBuilt(c: Client, s: Setting, d: Option<VNode>, half: bool, v: VNode, msgs: seq<Msg>)
    requires Scene(c, s, d, half) && v in s.all && Some(v) != d && IsInsertTree(msgs, v, s.container)
    ensures var c' := ApplyAll(c, msgs);
            && Valid(c) && Valid(c') && Aside(c, c', Ids(v), {}) && Came(c', v, false)
            && c'.deferred == c.deferred + [Deferred(v.id, s.container)]
  {
    var c', at := ApplyAll(c, msgs), Later(s.container);
    SpotGoes(c, s, v, s.container);
    assert Solid(v) !! c.nodes.Keys && Solid(v) !! c.existing && 0 !in c.nodes && 0 !in c.existing;
    assert RootMoves(v, at) == [Deferred(v.id, s.container)] && SpotRefs(at) == {};
    hide Valid, Goes, IsInsertTree, Apply, Aside, Solid, Proper, Scene, Rebuilt, RootMoves, RootAt, Shows, Unstyled,
         Ids, Came, ApplyAll, SpotRefs;
    ShowBuilds(c, v, s.container, msgs, at);
    RebuiltRoot(c, c', v, at);
    CameFresh(c, c', v, s.container);
  }

  lemma CameFresh(c: Client, c': Client, v: VNode, q: uint32)
    requires Rebuilt(c, c', v, Later(q))
    ensures Came(c', v, false)
  {
  }

  lemma {:induction false} OthersForgotten(c: Client, c': Client, s: Setting, d: Option<VNode>, v: VNode)
    requires Forgotten(c, s, d) && Fair(s) && v in s.all && Aside(c, c', Ids(v), {})
    ensures forall b | b in s.all && Some(b) != d && b != v :: Solid(b) !! c'.nodes.Keys
  {
    forall b | b in s.all && Some(b) != d && b != v ensures Solid(b) !! c'.nodes.Keys {
      Disjoint(s.all, b, v);
      SolidParts(b);
    }
  }

  lemma {:induction false} LastOwn(c: Client, s: Setting, half: bool, v: VNode, msgs: seq<Msg>)
    requires Scene(c, s, Some(v), half) && IsInsertTree(msgs, v, s.container)
    ensures var c' := ApplyAll(c, msgs);
            && Ended(c', s, Some(v), Some(v), half) && Elsewhere(c, c', s)
            && c'.deferred == c.deferred + HeldOne(s.container, Some(v), Some(v), true, half)
  {
    var c', u := ApplyAll(c, msgs), Unstyled(v);
    SpotGoes(c, s, v, s.container);
    assert Away(c, u, half);
    InsertUnstyled(msgs, v, s.container);
    UnstyledProper(v);
    hide Valid, Fair, Forgotten, Shelved, Goes, IsInsertTree, Apply, Aside, Solid, Proper, Elsewhere, Unstyled, Away,
         Empty, Links.Edges;
    var k := Returned(c, u, half, s.container, msgs);
    assert Came(c', v, true) by { CameBack(c, c', v, s.container, k); }
    hide RootAt, Came;
    StandingValid(c', u, k);
    hide Standing;
    EmptyAside(c, c', s, v);
    AsideElsewhere(c, c', s, v);
    OthersForgotten(c, c', s, Some(v), v);
  }

  lemma StandingValid(c: Client, v: VNode, k: Rows)
    requires Standing(c, v, k)
    ensures Valid(c)
  {
  }

  lemma CameBack(c: Client, c': Client, v: VNode, q: uint32, k: Rows)
    requires Standing(c', Unstyled(v), k) && RootAt(c, c', Unstyled(v), Later(q))
    ensures Came(c', v, true)
  {
    hide Standing;
  }

  /** The last branch stays. */
  lemma {:induction false} LastVisit(c: Client, s: Setting, d: Option<VNode>, half: bool, b: Option<VNode>,
                                     msgs: seq<Msg>)
    requires Scene(c, s, d, half) && (b.Some? ==> b.value in s.all) && IsShow(msgs, b, s.container)
    ensures var c' := ApplyAll(c, msgs);
            && Ended(c', s, d, b, half) && Elsewhere(c, c', s)
            && c'.deferred == c.deferred + HeldOne(s.container, d, b, true, half)
  {
    if b.None? {
      ForOnPage.ElsewhereNone(c, s);
      assert c.deferred + [] == c.deferred;
    } else {
      hide Scene, Elsewhere, IsInsertTree, Apply, Links.Edges, Unstyled, Ended, HeldOne;
      if b == d {
        LastOwn(c, s, half, b.value, msgs);
      } else {
        LastOther(c, s, d, half, b.value, msgs);
        HeldOther(s.container, d, b, true, half);
      }
    }
  }

  /** From the emptied container to the last branch. */
  lemma {:induction false} AllVisits(c: Client, s: Setting, d: Option<VNode>, half: bool, bs: seq<Option<VNode>>,
                                     msgs: seq<Msg>)
    requires Scene(c, s, d, half) && bs != [] && FlipsFrom(msgs, s.container, bs)
    requires forall b | b in bs && b.Some? :: b.value in s.all
    ensures var c' := ApplyAll(c, msgs);
            && Ended(c', s, d, Last(bs), Before(d, bs, half)) && Elsewhere(c, c', s)
            && c'.deferred == c.deferred + Held(s.container, d, bs, half)
    decreases bs
  {
    hide Scene, Elsewhere, Ended, IsShow, Apply, HeldOne, Toggled;
    assert bs[0] in bs;
    var front, rest := ShowSplit(msgs, s.container, bs);
    hide FlipsFrom;
    if |bs| == 1 {
      assert front + [] == front;
      LastVisit(c, s, d, half, bs[0], front);
      assert Held(s.container, d, bs, half) == HeldOne(s.container, d, bs[0], true, half) + [];
    } else {
      var more := StreamSplit(rest, s.container, bs[0], bs[1..]);
      hide FlipStream, Drop;
      OneVisit(c, s, d, half, bs, front);
      ApplyAllSplit(c, front, rest);
      ApplyAllSplit(ApplyAll(c, front), Drop(bs[0]), more);
      var c1 := ApplyAll(ApplyAll(c, front), Drop(bs[0]));
      AllVisits(c1, s, d, Toggled(half, d, bs[0]), bs[1..], more);
      assert Last(bs) == Last(bs[1..]);
      ElsewhereThen(c, c1, ApplyAll(c, msgs), s);
      Regroup(c.deferred, HeldOne(s.container, d, bs[0], bs[0] == Last(bs), half),
              Held(s.container, d, bs[1..], Toggled(half, d, bs[0])));
    }
  }
}
