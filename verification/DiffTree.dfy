/**
 A whole Diff on the client.
 */
module DiffTree {
  import opened Seqs
  import opened Wire
  import opened Dom
  import opened Client
  import opened Trees
  import opened Emission
  import opened Dirty
  import DirtyRuns
  import opened Diffs
  import opened ForClient
  import ForSteps
  import ForOnPage
  import Solids
  import opened DiffClient

  /** `w` is what the client shows where the server had `old_`. */
  ghost predicate Holds(c: Client, w: VNode, old_: VNode, parent: Option<Ref>) {
    ShownAt(c, w, parent) && Like(w, old_) && Proper(old_)
  }

  lemma {:induction false} HoldsRoot(c: Client, w: VNode, old_: VNode, parent: Option<Ref>)
    requires Holds(c, w, old_, parent)
    ensures w.id == old_.id && w.id in c.nodes && c.nodes[w.id] in c.heap && c.heap[c.nodes[w.id]].parent == parent
    ensures Ids(w) == Ids(old_) && Proper(w) && w.id in Ids(w)
  {
    LikeIds(w, old_);
  }

  // ----------------------------------------------------------------- text nodes

  lemma {:induction false} TextDiff(c: Client, w: VNode, old_: VNode, next: VNode, parent: Option<Ref>, msgs: seq<Msg>)
    requires AtOnce(c) && Holds(c, w, old_, parent) && old_.VText? && Compatible(old_, next) && IsDiff(msgs, old_, next)
    ensures var c' := ApplyAll(c, msgs);
            AtOnce(c') && Holds(c', next, next, parent) && Within(c, c', Ids(old_)) && c'.nodes == c.nodes
  {
    HoldsRoot(c, w, old_, parent);
    if msgs == [] {
      assert w == next;
      WithinSelf(c, Ids(old_));
    } else {
      TextRelabelled(c, w, old_, next, parent);
      ApplyCons(c, msgs);
      hide Apply, ApplyAll, Within, AtOnce, Holds, SetText;
    }
  }

  lemma WithinSelf(c: Client, ids: set<uint32>)
    ensures Within(c, c, ids)
  {
  }

  lemma {:induction false} TextRelabelled(c: Client, w: VNode, old_: VNode, next: VNode, parent: Option<Ref>)
    requires AtOnce(c) && Holds(c, w, old_, parent) && old_.VText? && next.VText? && next.id == old_.id
    ensures var c' := Apply(c, UpdateText(old_.id, next.text));
            AtOnce(c') && Holds(c', next, next, parent) && Within(c, c', Ids(old_)) && c'.nodes == c.nodes
  {
    HoldsRoot(c, w, old_, parent);
    var e := c.heap[c.nodes[w.id]];
    var e' := e.(text := next.text);
    DirtyRuns.TextApplied(c, w.id, next.text);
    hide SetText;
    RelabelAtOnce(c, w.id, e');
    RelabelWithin(c, w.id, e');
    TextShown(c, w.id, next, e', parent);
    hide AtOnce, Within, Relabelled, ShownAt, Shows;
  }

  lemma TextShown(c: Client, id: uint32, next: VNode, e: Elem, parent: Option<Ref>)
    requires id in c.nodes && next.VText? && next.id == id && Labelled(e, next) && e.children == []
             && e.parent == parent
    ensures ShownAt(Relabelled(c, id, e), next, parent)
  {
  }

  // --------------------------------------------------------- an element's own part

  /** Its attributes and styles change, its children do not. */
  lemma {:induction false} OwnStep(c: Client, w: VNode, old_: VNode, next: VNode, parent: Option<Ref>, msgs: seq<Msg>)
    returns (w1: VNode)
    requires AtOnce(c) && Holds(c, w, old_, parent) && old_.VElem? && Compatible(old_, next)
             && IsOwnDiff(msgs, old_, next)
    ensures var c1 := ApplyAll(c, msgs);
            && AtOnce(c1) && ShownAt(c1, w1, parent) && Within(c, c1, {old_.id}) && c1.nodes == c.nodes
            && w1.VElem? && w.VElem? && w1 == w.(attrs := w1.attrs, styles := w1.styles)
            && w1.id == old_.id && w1.tag == old_.tag && SameEntries(w1.attrs, next.attrs)
              && SameEntries(w1.styles, next.styles)
  {
    HoldsEntries(c, w, old_, parent);
    NextElem(old_, next);
    NextStyles(old_, next);
    hide ApplyAll, IsOwnDiff, SameEntries, Compatible, Holds, Labelled, Proper, AtOnce, KeepsStyles, Valid;
    var r := c.nodes[w.id];
    var e' := OwnDone(c, old_, next, msgs);
    w1 := w.(attrs := e'.attrs, styles := e'.styles);
    RelabelAtOnce(c, w.id, e');
    AtOnceValid(c);
    RelabelShows(c, w, w1, e', parent);
    RelabelWithin(c, w.id, e');
  }

  lemma RelabelWithin(c: Client, id: uint32, e: Elem)
    requires id in c.nodes && c.nodes[id] in c.heap
    ensures Within(c, Relabelled(c, id, e), {id})
  {
    assert c.nodes[id] in Nodes(c, {id});
  }

  lemma NextStyles(old_: VNode, next: VNode)
    requires old_.VElem? && next.VElem? && Compatible(old_, next)
    ensures KeepsStyles(old_.styles, next.styles)
  {
  }

  lemma {:induction false} HoldsEntries(c: Client, w: VNode, old_: VNode, parent: Option<Ref>)
    requires Holds(c, w, old_, parent) && old_.VElem?
    ensures w.VElem? && w.id == old_.id && w.tag == old_.tag && w.id in c.nodes && c.nodes[w.id] in c.heap
    ensures SameEntries(c.heap[c.nodes[w.id]].attrs, old_.attrs)
            && SameEntries(c.heap[c.nodes[w.id]].styles, old_.styles)
    ensures ShownAt(c, w, parent) && Proper(w)
  {
    HoldsRoot(c, w, old_, parent);
  }

  lemma {:induction false} RelabelAtOnce(c: Client, id: uint32, e: Elem)
    requires AtOnce(c) && id in c.nodes && SameShape(At(c.heap, c.nodes[id]), e)
    ensures AtOnce(Relabelled(c, id, e))
  {
    AlterForest(c.heap, c.nodes[id], e);
  }

  lemma {:induction false} RelabelShows(c: Client, w: VNode, w1: VNode, e: Elem, parent: Option<Ref>)
    requires Valid(c) && ShownAt(c, w, parent) && Proper(w) && w.VElem? && w.id in c.nodes
    requires w1 == w.(attrs := e.attrs, styles := e.styles)
    requires e == c.heap[c.nodes[w.id]].(attrs := e.attrs, styles := e.styles)
    ensures ShownAt(Relabelled(c, w.id, e), w1, parent)
  {
    Injective(c);
    ShownParts(c, w, parent);
    hide Valid, ShowsAll, ProperAll, IdsOf;
    var c1 := Relabelled(c, w.id, e);
    var r := c.nodes[w.id];
    forall id | id in IdsOf(w.children) && id in c.nodes ensures c.nodes[id] != r {
      assert id != w.id;
    }
    ShowsAllKept(c.heap, c.nodes, c1.heap, c1.nodes, w.children, Some(r));
    hide Refs;
    assert Labelled(c1.heap[r], w1);
  }

  lemma {:induction false} ShownParts(c: Client, w: VNode, parent: Option<Ref>)
    requires ShownAt(c, w, parent) && Proper(w) && w.VElem?
    ensures w.id in c.nodes && c.nodes[w.id] in c.heap && c.heap[c.nodes[w.id]].parent == parent
    ensures Labelled(c.heap[c.nodes[w.id]], w) && c.heap[c.nodes[w.id]].children == Refs(c.nodes, w.children)
    ensures ShowsAll(c.heap, c.nodes, w.children, Some(c.nodes[w.id]))
    ensures w.id !in IdsOf(w.children) && ProperAll(w.children)
  {
  }

  // ------------------------------------------------------------ the children

  /** The part of the container's children still to be compared. */
  ghost predicate Row(c: Client, id: uint32, before: seq<Ref>, ws: seq<VNode>) {
    && id in c.nodes && c.nodes[id] in c.heap
    && Kids(c.heap, c.nodes[id]) == before + Refs(c.nodes, ws)
    && ShowsAll(c.heap, c.nodes, ws, Some(c.nodes[id]))
  }

  /** The ids one comparison of child lists may touch. */
  function Touched(olds: seq<VNode>, nexts: seq<VNode>): set<uint32> {
    IdsOf(olds) + IdsOf(nexts)
  }

  ghost predicate Ready(c: Client, id: uint32, before: seq<Ref>, ws: seq<VNode>, olds: seq<VNode>, nexts: seq<VNode>) {
    && AtOnce(c) && Row(c, id, before, ws) && LikeAll(ws, olds)
    && ProperAll(olds) && ProperAll(nexts) && CompatibleAll(olds, nexts)
    && NewAmong(olds, nexts) !! c.nodes.Keys && id !in Touched(olds, nexts)
  }

  /** The node registered under `id` has changed in nothing but its children. */
  ghost predicate OnlyKids(c: Client, c': Client, id: uint32) {
    && id in c.nodes && c.nodes[id] in c.heap && id in c'.nodes && c'.nodes[id] == c.nodes[id] && c.nodes[id] in c'.heap
    && c'.heap[c.nodes[id]] == c.heap[c.nodes[id]].(children := Kids(c'.heap, c.nodes[id]))
  }

  lemma OnlyKidsThen(c: Client, c1: Client, c2: Client, id: uint32)
    requires OnlyKids(c, c1, id) && OnlyKids(c1, c2, id)
    ensures OnlyKids(c, c2, id)
  {
  }

  lemma SubsetThen(a: set<uint32>, b: set<uint32>, c: set<uint32>, x: set<uint32>, y: set<uint32>, z: set<uint32>)
    requires b <= a + x && c <= b + y && x + y <= z
    ensures c <= a + z
  {
    forall k | k in c ensures k in a + z {
      assert k in b || k in y;
    }
  }

  /** The children are the next ones now; the container has changed in nothing but its children. */
  ghost predicate Finished(c: Client, c': Client, id: uint32, before: seq<Ref>, ws': seq<VNode>, olds: seq<VNode>,
                           nexts: seq<VNode>) {
    && AtOnce(c') && Row(c', id, before, ws') && LikeAll(ws', nexts)
    && Within(c, c', {id} + Touched(olds, nexts)) && OnlyKids(c, c', id)
    && c'.nodes.Keys <= c.nodes.Keys + NewAmong(olds, nexts)
  }

  lemma {:induction false} FinishedNone(c: Client, id: uint32, before: seq<Ref>)
    requires Ready(c, id, before, [], [], [])
    ensures Finished(c, c, id, before, [], [], [])
  {
  }

  /** A child taken out of the container's list. */
  ghost predicate Dropped(c: Client, c1: Client, p: Ref, r: Ref, ids: set<uint32>, rest: seq<Ref>) {
    && AtOnce(c1) && c1 == c.(heap := c1.heap, nodes := c1.nodes)
    && (forall id | id in c1.nodes :: id in c.nodes && c1.nodes[id] == c.nodes[id])
    && (forall id | id in c.nodes && id !in ids :: id in c1.nodes)
    && p in c.heap && r in c.heap && p != r
    && c1.heap == c.heap[p := c.heap[p].(children := rest)][r := c.heap[r].(parent := None)]
  }

  lemma {:induction false} DropEffect(c: Client, id: uint32, before: seq<Ref>, ws: seq<VNode>, old_: VNode)
    requires AtOnce(c) && Row(c, id, before, ws) && ws != [] && Like(ws[0], old_) && id !in Ids(old_)
    ensures var r := RefOf(c.nodes, old_.id);
            && r in Nodes(c, Ids(old_))
            && Dropped(c, Apply(c, RemoveNode(old_.id)), c.nodes[id], r, Ids(old_), before + Refs(c.nodes, ws[1..]))
  {
    var w, p := ws[0], c.nodes[id];
    LikeIds(w, old_);
    assert w.id in Ids(w);
    ShowsHead(c, ws, p);
    Injective(c);
    hide Shows, Valid, Like, Apply, ShowsAll, Ids;
    Solids.RemovedFacts(c, w);
    var r := c.nodes[w.id];
    assert Kids(c.heap, p) == before + ([r] + Refs(c.nodes, ws[1..]));
    FirstOut(c, p, before, r, Refs(c.nodes, ws[1..]));
    DetachTwo(c.heap, p, r);
  }

  lemma ShowsHead(c: Client, ws: seq<VNode>, p: Ref)
    requires ws != [] && ShowsAll(c.heap, c.nodes, ws, Some(p))
    ensures Shows(c.heap, c.nodes, ws[0]) && ws[0].id in c.nodes && c.nodes[ws[0].id] in c.heap
    ensures c.heap[c.nodes[ws[0].id]].parent == Some(p) && ShowsAll(c.heap, c.nodes, ws[1..], Some(p))
  {
  }

  lemma Injective(c: Client)
    requires Valid(c)
    ensures forall i, j | i in c.nodes && j in c.nodes && c.nodes[i] == c.nodes[j] :: i == j
    ensures forall i | i in c.nodes :: c.nodes[i] in c.heap
  {
  }

  lemma {:induction false} DropWithin(c: Client, c1: Client, id: uint32, r: Ref, ids: set<uint32>, rest: seq<Ref>)
    requires id in c.nodes && Dropped(c, c1, c.nodes[id], r, ids, rest) && r in Nodes(c, ids) && id !in ids
    ensures Within(c, c1, {id} + ids) && c1.nodes.Keys <= c.nodes.Keys
    ensures var p := c.nodes[id];
            p in c.heap && id in c1.nodes && c1.nodes[id] == p && p in c1.heap && Kids(c1.heap, p) == rest
            && c1.heap[p] == c.heap[p].(children := rest)
  {
    hide AtOnce;
    assert c.nodes[id] in Nodes(c, {id} + ids);
    assert forall x | x in Nodes(c, ids) :: x in Nodes(c, {id} + ids);
  }

  /** The first child taken away. */
  lemma {:induction false} DropFirst(c: Client, id: uint32, before: seq<Ref>, ws: seq<VNode>, olds: seq<VNode>)
    requires Ready(c, id, before, ws, olds, []) && olds != []
    ensures var c1 := Apply(c, RemoveNode(olds[0].id));
            && Ready(c1, id, before, ws[1..], olds[1..], [])
            && Within(c, c1, {id} + Ids(olds[0])) && c1.nodes.Keys <= c.nodes.Keys
            && id in c.nodes && c.nodes[id] in c.heap && id in c1.nodes && c1.nodes[id] == c.nodes[id]
              && c.nodes[id] in c1.heap
            && c1.heap[c.nodes[id]] == c.heap[c.nodes[id]].(children := Kids(c1.heap, c.nodes[id]))
  {
    var c1, p := Apply(c, RemoveNode(olds[0].id)), c.nodes[id];
    var r, rest := RefOf(c.nodes, olds[0].id), before + Refs(c.nodes, ws[1..]);
    var ids := Ids(olds[0]);
    LikeIdsAll(ws[1..], olds[1..]);
    ShowsHead(c, ws, p);
    assert Valid(c);
    hide Like, Proper, Apply, Ids, Refs, Kids, Shows, Valid, CompatibleAll;
    DropEffect(c, id, before, ws, olds[0]);
    DropWithin(c, c1, id, r, ids, rest);
    hide Within, Nodes, RefOf;
    StaysApart(c, c1, {id} + ids, ws[1..], Some(p));
    hide ShowsAll, IdsOf;
    DropReady(c1, id, before, ws[1..], olds[1..]);
  }

  lemma {:induction false} DropReady(c1: Client, id: uint32, before: seq<Ref>, ws: seq<VNode>, olds: seq<VNode>)
    requires AtOnce(c1) && Row(c1, id, before, ws) && LikeAll(ws, olds) && ProperAll(olds) && id !in IdsOf(olds)
    ensures Ready(c1, id, before, ws, olds, [])
  {
    hide AtOnce, Row, LikeAll;
    assert IdsOf([]) == {};
  }

  lemma {:induction false} FirstOut(c: Client, p: Ref, before: seq<Ref>, r: Ref, after: seq<Ref>)
    requires Valid(c) && p in c.heap && Kids(c.heap, p) == before + ([r] + after)
    ensures Without(Kids(c.heap, p), r) == before + after
  {
    assert NodeOk(c.heap, p);
    var cs := Kids(c.heap, p);
    var i := |before|;
    assert cs[i] == r && cs[..i] == before && cs[i + 1..] == after;
    WithoutAt(cs, i);
  }

  lemma {:induction false} DetachTwo(h: Heap, p: Ref, r: Ref)
    requires p in h && r in h && h[r].parent == Some(p) && p != r
    ensures Detach(h, r) == h[p := h[p].(children := Without(h[p].children, r))][r := h[r].(parent := None)]
  {
    hide Without;
  }

  /** A new child behind the others. */
  lemma {:induction false} InsertFirst(c: Client, id: uint32, before: seq<Ref>, nexts: seq<VNode>, msgs: seq<Msg>)
    requires Ready(c, id, before, [], [], nexts) && nexts != [] && IsInsertTree(msgs, nexts[0], id)
    ensures var v, c1, p := nexts[0], ApplyAll(c, msgs), c.nodes[id];
            && v.id in c1.nodes
            && Ready(c1, id, before + [c1.nodes[v.id]], [], [], nexts[1..]) && ShowsAll(c1.heap, c1.nodes, [v], Some(p))
            && Within(c, c1, {id} + Ids(v)) && c1.nodes.Keys <= c.nodes.Keys + Ids(v)
            && p in c.heap && p in c1.heap && id in c1.nodes && c1.nodes[id] == p
            && c1.heap[p] == c.heap[p].(children := Kids(c1.heap, p))
  {
    var v, c1, p := nexts[0], ApplyAll(c, msgs), c.nodes[id];
    ProperNonZero(v);
    assert Unstyled(v) == v && v in nexts;
    assert v.id in Ids(v);
    InsertGoes(c, id);
    assert Unseen(c, Ids(v));
    assert Valid(c) && Kids(c.heap, p) == before;
    hide IsInsertTree, Goes, Valid, Unseen, Proper, ApplyAll, Built;
    InsertTreeBuilds(c, v, id, msgs, Below(p));
    BuiltLast(c, c1, id, v);
    hide Ids, Unstyled;
    InsertReady(c, c1, id, before, nexts);
  }

  lemma InsertGoes(c: Client, id: uint32)
    requires AtOnce(c) && id in c.nodes && c.nodes[id] in c.heap
    ensures Goes(c, id, Below(c.nodes[id]))
  {
  }

  lemma {:induction false} BuiltLast(c: Client, c1: Client, id: uint32, v: VNode)
    requires AtOnce(c) && id in c.nodes && c.nodes[id] in c.heap && Built(c, c1, [v], Below(c.nodes[id]))
    requires Ids(v) !! c.nodes.Keys && 0 !in Ids(v)
    ensures var p := c.nodes[id];
            && AtOnce(c1) && v.id in c1.nodes && ShowsAll(c1.heap, c1.nodes, [v], Some(p))
            && Within(c, c1, {id} + Ids(v)) && c1.nodes.Keys <= c.nodes.Keys + Ids(v)
            && p in c1.heap && id in c1.nodes && c1.nodes[id] == p
            && Kids(c1.heap, p) == Kids(c.heap, p) + [c1.nodes[v.id]]
            && c1.heap[p] == c.heap[p].(children := Kids(c1.heap, p))
  {
    var p := c.nodes[id];
    hide *;
    SingleIds(v);
    BuiltSteps(c, c1, v, p);
    LastPlaced(c, c1, v, p);
    BuiltWithin(c, c1, id, v);
    StillAtOnce(c, c1, id, v);
  }

  lemma SingleIds(v: VNode)
    ensures IdsOf([v]) == Ids(v)
  {
    assert [v][1..] == [];
  }

  lemma BuiltSteps(c: Client, c1: Client, v: VNode, p: Ref)
    requires Built(c, c1, [v], Below(p))
    ensures Valid(c1) && Extends(c, c1, Below(p)) && Registers(c, c1, [v]) && Placed(c, c1, [v], Below(p))
    ensures c1.deferred == c.deferred
  {
    hide Valid, Extends, Registers, Refs, ShowsAll;
  }

  lemma {:induction false} LastPlaced(c: Client, c1: Client, v: VNode, p: Ref)
    requires Placed(c, c1, [v], Below(p))
    ensures p in c.heap && p in c1.heap && v.id in c1.nodes && ShowsAll(c1.heap, c1.nodes, [v], Some(p))
    ensures Kids(c1.heap, p) == Kids(c.heap, p) + [c1.nodes[v.id]]
    ensures c1.heap[p] == c.heap[p].(children := Kids(c1.heap, p))
  {
    hide ShowsAll, Shows;
    ForSteps.KidShown(c1.heap, c1.nodes, [v], Some(p), v);
    ForOnPage.ShowsRoot(c1, v);
    assert Refs(c1.nodes, [v]) == [c1.nodes[v.id]];
  }

  lemma StillAtOnce(c: Client, c1: Client, id: uint32, v: VNode)
    requires AtOnce(c) && id in c.nodes && Valid(c1) && Extends(c, c1, Below(c.nodes[id]))
    requires Registers(c, c1, [v]) && IdsOf([v]) == Ids(v) && 0 !in Ids(v)
    ensures AtOnce(c1) && id in c1.nodes && c1.nodes[id] == c.nodes[id]
  {
    hide Valid, Ids, IdsOf;
  }

  lemma {:induction false} BuiltWithin(c: Client, c1: Client, id: uint32, v: VNode)
    requires id in c.nodes && Extends(c, c1, Below(c.nodes[id])) && Registers(c, c1, [v]) && IdsOf([v]) == Ids(v)
    requires Ids(v) !! c.nodes.Keys && c1.deferred == c.deferred
    ensures Within(c, c1, {id} + Ids(v)) && c1.nodes.Keys <= c.nodes.Keys + Ids(v)
  {
    hide Ids, IdsOf;
    assert c.nodes[id] in Nodes(c, {id} + Ids(v));
  }

  lemma {:induction false} InsertReady(c: Client, c1: Client, id: uint32, before: seq<Ref>, nexts: seq<VNode>)
    requires Ready(c, id, before, [], [], nexts) && nexts != [] && AtOnce(c1)
    requires var v, p := nexts[0], c.nodes[id];
             && v.id in c1.nodes && p in c1.heap && id in c1.nodes && c1.nodes[id] == p
             && Kids(c1.heap, p) == before + [c1.nodes[v.id]] && c1.nodes.Keys <= c.nodes.Keys + Ids(v)
    ensures Ready(c1, id, before + [c1.nodes[nexts[0].id]], [], [], nexts[1..])
  {
    hide AtOnce, Proper;
    var b := before + [c1.nodes[nexts[0].id]];
    assert b + Refs(c1.nodes, []) == b;
    assert NewAmong([], nexts) == IdsOf(nexts) && NewAmong([], nexts[1..]) == IdsOf(nexts[1..]);
    assert forall k | k in c1.nodes :: k in c.nodes || k in Ids(nexts[0]);
  }

  // --------------------------------------------------------------- the recursion

  /** A matched child. */
  lemma {:induction false} MatchReady(c: Client, c1: Client, id: uint32, before: seq<Ref>, ws: seq<VNode>,
                                      olds: seq<VNode>, nexts: seq<VNode>)
    requires Ready(c, id, before, ws, olds, nexts) && olds != [] && nexts != [] && AtOnce(c1)
    requires Within(c, c1, Ids(olds[0]) + Ids(nexts[0])) && c1.nodes.Keys <= c.nodes.Keys + NewIn(olds[0], nexts[0])
    requires olds[0].id in c1.nodes && c1.nodes[olds[0].id] == RefOf(c.nodes, olds[0].id)
    ensures Ready(c1, id, before + [c1.nodes[olds[0].id]], ws[1..], olds[1..], nexts[1..]) && OnlyKids(c, c1, id)
  {
    hide Like, Proper, Compatible, Ids, IdsOf, NewIn, Within, Row, AtOnce, ShowsAll, Refs;
    MatchRow(c, c1, id, before, ws, olds, nexts);
    MatchNew(c, c1, id, before, ws, olds, nexts);
    MatchRest(id, ws, olds, nexts);
  }

  lemma MatchRest(id: uint32, ws: seq<VNode>, olds: seq<VNode>, nexts: seq<VNode>)
    requires ws != [] && olds != [] && nexts != [] && LikeAll(ws, olds) && ProperAll(olds) && ProperAll(nexts)
    requires CompatibleAll(olds, nexts) && id !in Touched(olds, nexts)
    ensures LikeAll(ws[1..], olds[1..]) && ProperAll(olds[1..]) && ProperAll(nexts[1..])
            && CompatibleAll(olds[1..], nexts[1..])
    ensures id !in Touched(olds[1..], nexts[1..])
  {
    hide Like, Proper, Compatible;
  }

  lemma {:induction false} MatchNew(c: Client, c1: Client, id: uint32, before: seq<Ref>, ws: seq<VNode>,
                                    olds: seq<VNode>, nexts: seq<VNode>)
    requires Ready(c, id, before, ws, olds, nexts) && olds != [] && nexts != []
    requires c1.nodes.Keys <= c.nodes.Keys + NewIn(olds[0], nexts[0])
    ensures NewAmong(olds[1..], nexts[1..]) !! c1.nodes.Keys
  {
    MatchApart(c, id, before, ws, olds, nexts);
    hide Like, Proper, Compatible, Ids, IdsOf, NewIn, AtOnce, Row, LikeAll, ProperAll, CompatibleAll;
    assert NewAmong(olds, nexts) == NewIn(olds[0], nexts[0]) + NewAmong(olds[1..], nexts[1..]);
    assert forall k | k in c1.nodes :: k in c.nodes || k in NewIn(olds[0], nexts[0]);
  }

  lemma {:induction false} MatchRow(c: Client, c1: Client, id: uint32, before: seq<Ref>, ws: seq<VNode>,
                                    olds: seq<VNode>, nexts: seq<VNode>)
    requires Ready(c, id, before, ws, olds, nexts) && olds != [] && nexts != []
    requires Within(c, c1, Ids(olds[0]) + Ids(nexts[0]))
    requires olds[0].id in c1.nodes && c1.nodes[olds[0].id] == RefOf(c.nodes, olds[0].id)
    ensures Row(c1, id, before + [c1.nodes[olds[0].id]], ws[1..])
    ensures id in c.nodes && id in c1.nodes && c1.nodes[id] == c.nodes[id]
    ensures c.nodes[id] in c.heap && c.nodes[id] in c1.heap && c1.heap[c.nodes[id]] == c.heap[c.nodes[id]]
  {
    LikeIds(ws[0], olds[0]);
    MatchApart(c, id, before, ws, olds, nexts);
    AtOnceValid(c);
    hide Valid, Like, Proper, Compatible, Ids, IdsOf, NewIn, Within, ShowsAll, ProperAll, CompatibleAll, LikeAll,
         NewAmong;
    MatchKept(c, c1, id, before, ws, olds, nexts);
    NodeApart(c, c1, Ids(olds[0]) + Ids(nexts[0]), id);
    RefsCons(c.nodes, ws[0], ws[1..]);
    assert [ws[0]] + ws[1..] == ws;
    hide Refs;
    Regroup(before, [c1.nodes[olds[0].id]], Refs(c.nodes, ws[1..]));
  }

  /** The other children are still shown. */
  lemma {:induction false} MatchKept(c: Client, c1: Client, id: uint32, before: seq<Ref>, ws: seq<VNode>,
                                     olds: seq<VNode>, nexts: seq<VNode>)
    requires Ready(c, id, before, ws, olds, nexts) && olds != [] && nexts != []
    requires Within(c, c1, Ids(olds[0]) + Ids(nexts[0]))
    ensures ShowsAll(c1.heap, c1.nodes, ws[1..], Some(c.nodes[id])) && Refs(c1.nodes, ws[1..]) == Refs(c.nodes, ws[1..])
  {
    MatchApart(c, id, before, ws, olds, nexts);
    LikeIdsAll(ws[1..], olds[1..]);
    ShowsHead(c, ws, c.nodes[id]);
    AtOnceValid(c);
    hide Valid, Like, Proper, Compatible, Ids, IdsOf, NewIn, Within, ShowsAll, CompatibleAll, LikeAll, NewAmong, Refs;
    StaysApart(c, c1, Ids(olds[0]) + Ids(nexts[0]), ws[1..], Some(c.nodes[id]));
  }

  /** Ids of the first pair occur nowhere else. */
  lemma {:induction false} MatchApart(c: Client, id: uint32, before: seq<Ref>, ws: seq<VNode>, olds: seq<VNode>,
                                      nexts: seq<VNode>)
    requires Ready(c, id, before, ws, olds, nexts) && olds != [] && nexts != []
    ensures var ids := Ids(olds[0]) + Ids(nexts[0]);
            && id !in ids && IdsOf(olds[1..]) !! ids && IdsOf(nexts[1..]) !! Ids(nexts[0])
            && NewIn(olds[0], nexts[0]) !! NewAmong(olds[1..], nexts[1..]) && IdsOf(ws[1..]) == IdsOf(olds[1..])
            && IdsOf(olds[1..]) <= c.nodes.Keys
  {
    NextIds(olds[0], nexts[0]);
    NextIdsAll(olds[1..], nexts[1..]);
    LikeIdsAll(ws[1..], olds[1..]);
    ShownKnown(c, ws[1..], Some(c.nodes[id]));
    hide AtOnce, Like, Proper, Compatible, ShowsAll, LikeAll;
  }

  lemma {:induction false} ShownKnown(c: Client, ws: seq<VNode>, parent: Option<Ref>)
    requires ShowsAll(c.heap, c.nodes, ws, parent)
    ensures IdsOf(ws) <= c.nodes.Keys
  {
    forall id | id in IdsOf(ws) ensures id in c.nodes {
      ForSteps.ForestKids(c.heap, c.nodes, ws, parent, id);
    }
  }

  /** The first stage of a comparison: `c1` differs from `c` by the head only, and the container by its children. */
  ghost predicate Stage(c: Client, c1: Client, id: uint32, ids: set<uint32>, added: set<uint32>) {
    Within(c, c1, {id} + ids) && c1.nodes.Keys <= c.nodes.Keys + added && OnlyKids(c, c1, id)
  }

  /** A head that is gone. */
  lemma {:induction false} FinishedSkip(c: Client, c1: Client, c2: Client, id: uint32, before: seq<Ref>, ws: seq<VNode>,
                                        olds: seq<VNode>, ids: set<uint32>, olds': seq<VNode>)
    requires Valid(c) && Stage(c, c1, id, ids, {}) && Finished(c1, c2, id, before, ws, olds', [])
    requires ids + IdsOf(olds') <= IdsOf(olds)
    ensures Finished(c, c2, id, before, ws, olds, [])
  {
    hide AtOnce, Valid, IdsOf, Row, LikeAll, Within, OnlyKids;
    WithinThen(c, c1, c2, {id} + ids, {id} + Touched(olds', []), {id} + Touched(olds, []));
    OnlyKidsThen(c, c1, c2, id);
    assert NewAmong(olds', []) == {} && NewAmong(olds, []) == {};
    SubsetThen(c.nodes.Keys, c1.nodes.Keys, c2.nodes.Keys, {}, {}, {});
  }

  /** A head that stays, or is new. */
  lemma {:induction false} FinishedCons(c: Client, c1: Client, c2: Client, id: uint32, before: seq<Ref>, w: VNode,
                                        ws: seq<VNode>,
                                        olds: seq<VNode>, nexts: seq<VNode>, ids: set<uint32>, added: set<uint32>,
                                        olds': seq<VNode>)
    requires Valid(c) && Valid(c1) && Stage(c, c1, id, ids, added) && nexts != [] && w.id in c1.nodes
    requires Finished(c1, c2, id, before + [c1.nodes[w.id]], ws, olds', nexts[1..])
    requires ShowsAll(c1.heap, c1.nodes, [w], Some(c1.nodes[id])) && Like(w, nexts[0]) && ProperAll([w])
    requires Ids(w) !! {id} + Touched(olds', nexts[1..])
    requires ids + Touched(olds', nexts[1..]) <= Touched(olds, nexts)
    requires added + NewAmong(olds', nexts[1..]) <= NewAmong(olds, nexts)
    ensures Finished(c, c2, id, before, [w] + ws, olds, nexts)
  {
    hide AtOnce, Valid, LikeAll, Within, Touched, ShowsAll, ProperAll, Like, NewAmong, Row, OnlyKids, Ids;
    ConsWithin(c, c1, c2, id, ids, added, Touched(olds', nexts[1..]), NewAmong(olds', nexts[1..]),
               Touched(olds, nexts), NewAmong(olds, nexts));
    ConsShown(c, c1, c2, id, before, w, ws, Touched(olds', nexts[1..]));
    ConsLike(w, ws, nexts);
  }

  lemma {:induction false} ConsWithin(c: Client, c1: Client, c2: Client, id: uint32, ids: set<uint32>,
                                      added: set<uint32>,
                                      more: set<uint32>, later: set<uint32>, all: set<uint32>, new_: set<uint32>)
    requires Valid(c) && Stage(c, c1, id, ids, added)
    requires Within(c1, c2, {id} + more) && OnlyKids(c1, c2, id) && c2.nodes.Keys <= c1.nodes.Keys + later
    requires ids + more <= all && added + later <= new_
    ensures Within(c, c2, {id} + all) && OnlyKids(c, c2, id) && c2.nodes.Keys <= c.nodes.Keys + new_
  {
    hide Within, OnlyKids, Valid;
    WithinThen(c, c1, c2, {id} + ids, {id} + more, {id} + all);
    OnlyKidsThen(c, c1, c2, id);
    SubsetThen(c.nodes.Keys, c1.nodes.Keys, c2.nodes.Keys, added, later, new_);
  }

  lemma {:induction false} ConsShown(c: Client, c1: Client, c2: Client, id: uint32, before: seq<Ref>, w: VNode,
                                     ws: seq<VNode>,
                                     more: set<uint32>)
    requires Valid(c1) && Within(c1, c2, {id} + more) && OnlyKids(c, c1, id) && OnlyKids(c1, c2, id) && w.id in c1.nodes
    requires ShowsAll(c1.heap, c1.nodes, [w], Some(c1.nodes[id])) && ProperAll([w]) && Ids(w) !! {id} + more
    requires Row(c2, id, before + [c1.nodes[w.id]], ws)
    ensures Row(c2, id, before, [w] + ws)
  {
    assert [w][1..] == [] && IdsOf([w]) == Ids(w);
    hide Valid, IdsOf, Ids, Within, ShowsAll, ProperAll, Row;
    StaysApart(c1, c2, {id} + more, [w], Some(c1.nodes[id]));
    ConsRow(c1, c2, id, before, w, ws);
  }

  lemma {:induction false} ConsLike(w: VNode, ws: seq<VNode>, nexts: seq<VNode>)
    requires nexts != [] && Like(w, nexts[0]) && LikeAll(ws, nexts[1..])
    ensures LikeAll([w] + ws, nexts)
  {
    hide Like;
    assert ([w] + ws)[1..] == ws;
  }

  lemma {:induction false} ConsRow(c1: Client, c2: Client, id: uint32, before: seq<Ref>, w: VNode, ws: seq<VNode>)
    requires id in c1.nodes && w.id in c1.nodes && id in c2.nodes && c2.nodes[id] == c1.nodes[id]
    requires Row(c2, id, before + [c1.nodes[w.id]], ws)
    requires ShowsAll(c2.heap, c2.nodes, [w], Some(c2.nodes[id])) && Refs(c2.nodes, [w]) == Refs(c1.nodes, [w])
    ensures Row(c2, id, before, [w] + ws)
  {
    RefsCons(c2.nodes, w, ws);
    RefsOne(c1.nodes, w);
    RefsOne(c2.nodes, w);
    ShowsCons(c2, w, ws, Some(c2.nodes[id]));
    hide ShowsAll, Refs, RefOf;
    Regroup(before, [c1.nodes[w.id]], Refs(c2.nodes, ws));
  }

  lemma RefsOne(nodes: map<uint32, Ref>, w: VNode)
    ensures Refs(nodes, [w]) == [RefOf(nodes, w.id)]
  {
    assert [w][1..] == [];
  }

  lemma RefsCons(nodes: map<uint32, Ref>, w: VNode, ws: seq<VNode>)
    ensures Refs(nodes, [w] + ws) == [RefOf(nodes, w.id)] + Refs(nodes, ws)
  {
    assert ([w] + ws)[1..] == ws;
  }

  lemma ShowsCons(c: Client, w: VNode, ws: seq<VNode>, parent: Option<Ref>)
    requires ShowsAll(c.heap, c.nodes, [w], parent) && ShowsAll(c.heap, c.nodes, ws, parent)
    ensures ShowsAll(c.heap, c.nodes, [w] + ws, parent)
  {
    hide Shows;
    assert ([w] + ws)[1..] == ws;
  }

  lemma {:induction false} DropStage(c: Client, id: uint32, before: seq<Ref>, ws: seq<VNode>, olds: seq<VNode>)
    requires Ready(c, id, before, ws, olds, []) && olds != []
    ensures var c1 := Apply(c, RemoveNode(olds[0].id));
            Ready(c1, id, before, ws[1..], olds[1..], []) && Stage(c, c1, id, Ids(olds[0]), {}) && Valid(c)
  {
    DropFirst(c, id, before, ws, olds);
    assert Valid(c);
    hide Ready, Within, Apply;
  }

  lemma {:induction false} InsertStage(c: Client, id: uint32, before: seq<Ref>, nexts: seq<VNode>, msgs: seq<Msg>)
    requires Ready(c, id, before, [], [], nexts) && nexts != [] && IsInsertTree(msgs, nexts[0], id)
    ensures var v, c1 := nexts[0], ApplyAll(c, msgs);
            && v.id in c1.nodes && Ready(c1, id, before + [c1.nodes[v.id]], [], [], nexts[1..])
            && Stage(c, c1, id, Ids(v), Ids(v)) && ShowsAll(c1.heap, c1.nodes, [v], Some(c1.nodes[id]))
            && Valid(c) && Valid(c1) && ProperAll([v]) && Ids(v) !! {id} + Touched([], nexts[1..])
  {
    InsertFirst(c, id, before, nexts, msgs);
    ProperOne(nexts[0]);
    assert IdsOf([]) == {};
    assert Valid(c) && Valid(ApplyAll(c, msgs));
    hide Within, ApplyAll, IsInsertTree, AtOnce, Row, Proper;
  }

  /** The comparison of two child lists, from some position on. */
  lemma {:induction false} ChildrenDone(c: Client, id: uint32, before: seq<Ref>, ws: seq<VNode>, olds: seq<VNode>,
                                        nexts: seq<VNode>, msgs: seq<Msg>) returns (ws': seq<VNode>)
    requires Ready(c, id, before, ws, olds, nexts) && IsDiffAll(msgs, olds, nexts, id)
    ensures Finished(c, ApplyAll(c, msgs), id, before, ws', olds, nexts)
    decreases olds, |nexts|, 1
  {
    if olds == [] && nexts == [] {
      LikeEmpty(ws);
      FinishedNone(c, id, before);
      ws' := [];
    } else if nexts == [] {
      ws' := DropThen(c, id, before, ws, olds, msgs);
    } else if olds == [] {
      LikeEmpty(ws);
      ws' := InsertThen(c, id, before, olds, nexts, msgs);
    } else {
      ws' := MatchThen(c, id, before, ws, olds, nexts, msgs);
    }
  }

  lemma LikeEmpty(ws: seq<VNode>)
    ensures LikeAll(ws, []) ==> ws == []
  {
  }

  lemma {:induction false} DropThen(c: Client, id: uint32, before: seq<Ref>, ws: seq<VNode>, olds: seq<VNode>,
                                    msgs: seq<Msg>)
    returns (ws': seq<VNode>)
    requires Ready(c, id, before, ws, olds, []) && IsDiffAll(msgs, olds, [], id) && olds != []
    ensures Finished(c, ApplyAll(c, msgs), id, before, ws', olds, [])
    decreases olds, 0, 0
  {
    assert ws != [];
    hide Ready, Finished, Stage, Apply;
    DropStage(c, id, before, ws, olds);
    var c1 := Apply(c, msgs[0]);
    ws' := ChildrenDone(c1, id, before, ws[1..], olds[1..], [], msgs[1..]);
    hide IsDiffAll;
    ApplyCons(c, msgs);
    FinishedSkip(c, c1, ApplyAll(c, msgs), id, before, ws', olds, Ids(olds[0]), olds[1..]);
  }

  lemma {:induction false} InsertThen(c: Client, id: uint32, before: seq<Ref>, olds: seq<VNode>, nexts: seq<VNode>,
                                      msgs: seq<Msg>) returns (ws': seq<VNode>)
    requires olds == [] && Ready(c, id, before, [], [], nexts) && IsDiffAll(msgs, [], nexts, id) && nexts != []
    ensures Finished(c, ApplyAll(c, msgs), id, before, ws', [], nexts)
    decreases olds, |nexts|, 0
  {
    hide Ready, Finished, Stage, Apply, IsInsertTree, ApplyAll;
    var k :| 0 <= k <= |msgs| && IsInsertTree(msgs[..k], nexts[0], id) && IsDiffAll(msgs[k..], [], nexts[1..], id);
    assert msgs == msgs[..k] + msgs[k..];
    ApplyAllSplit(c, msgs[..k], msgs[k..]);
    InsertStage(c, id, before, nexts, msgs[..k]);
    var v, c1 := nexts[0], ApplyAll(c, msgs[..k]);
    var rest := ChildrenDone(c1, id, before + [c1.nodes[v.id]], [], [], nexts[1..], msgs[k..]);
    hide IsDiffAll;
    LikeSelf(v);
    InsertSets(nexts);
    FinishedCons(c, c1, ApplyAll(c, msgs), id, before, v, rest, [], nexts, Ids(v), Ids(v), []);
    ws' := [v] + rest;
  }

  lemma InsertSets(nexts: seq<VNode>)
    requires nexts != []
    ensures Ids(nexts[0]) + Touched([], nexts[1..]) <= Touched([], nexts)
    ensures Ids(nexts[0]) + NewAmong([], nexts[1..]) <= NewAmong([], nexts)
  {
    assert IdsOf(nexts) == Ids(nexts[0]) + IdsOf(nexts[1..]);
  }

  lemma {:induction false} MatchThen(c: Client, id: uint32, before: seq<Ref>, ws: seq<VNode>, olds: seq<VNode>,
                                     nexts: seq<VNode>, msgs: seq<Msg>) returns (ws': seq<VNode>)
    requires Ready(c, id, before, ws, olds, nexts) && IsDiffAll(msgs, olds, nexts, id) && olds != [] && nexts != []
    ensures Finished(c, ApplyAll(c, msgs), id, before, ws', olds, nexts)
    decreases olds, |nexts|, 0
  {
    hide Ready, Finished, Stage, Apply, ApplyAll, Holds, AtOnce, Within, Compatible, NewIn, Proper;
    var front, tail := MatchSplit(olds, nexts, id, msgs);
    ApplyAllSplit(c, front, tail);
    hide IsDiff, IsDiffAll;
    HeadReady(c, id, before, ws, olds, nexts);
    var c1 := ApplyAll(c, front);
    var w := TreeDone(c, ws[0], olds[0], nexts[0], Some(c.nodes[id]), front);
    MatchStage(c, c1, id, before, ws, olds, nexts, w);
    var rest := ChildrenDone(c1, id, before + [c1.nodes[w.id]], ws[1..], olds[1..], nexts[1..], tail);
    MatchSets(olds, nexts);
    FinishedCons(c, c1, ApplyAll(c, msgs), id, before, w, rest, olds, nexts, Ids(olds[0]) + Ids(nexts[0]),
                 NewIn(olds[0], nexts[0]), olds[1..]);
    ws' := [w] + rest;
  }

  lemma {:induction false} MatchSplit(olds: seq<VNode>, nexts: seq<VNode>, id: uint32, msgs: seq<Msg>)
    returns (front: seq<Msg>, tail: seq<Msg>)
    requires IsDiffAll(msgs, olds, nexts, id) && olds != [] && nexts != []
    ensures msgs == front + tail && IsDiff(front, olds[0], nexts[0]) && IsDiffAll(tail, olds[1..], nexts[1..], id)
  {
    hide IsDiff;
    var k :| 0 <= k <= |msgs| && IsDiff(msgs[..k], olds[0], nexts[0])
      && IsDiffAll(msgs[k..], olds[1..], nexts[1..], id);
    front, tail := msgs[..k], msgs[k..];
  }

  lemma {:induction false} ElemSplit(old_: VNode, next: VNode, msgs: seq<Msg>) returns (own: seq<Msg>, below: seq<Msg>)
    requires old_.VElem? && next.VElem? && IsDiff(msgs, old_, next)
    ensures msgs == own + below && IsOwnDiff(own, old_, next) && IsDiffAll(below, old_.children, next.children, next.id)
  {
    hide IsOwnDiff, IsDiffAll;
    var k :| 0 <= k <= |msgs| && IsOwnDiff(msgs[..k], old_, next)
      && IsDiffAll(msgs[k..], old_.children, next.children, next.id);
    own, below := msgs[..k], msgs[k..];
  }

  lemma MatchSets(olds: seq<VNode>, nexts: seq<VNode>)
    requires olds != [] && nexts != []
    ensures Ids(olds[0]) + Ids(nexts[0]) + Touched(olds[1..], nexts[1..]) <= Touched(olds, nexts)
    ensures NewIn(olds[0], nexts[0]) + NewAmong(olds[1..], nexts[1..]) <= NewAmong(olds, nexts)
  {
    hide Ids, NewIn;
  }

  lemma {:induction false} HeadReady(c: Client, id: uint32, before: seq<Ref>, ws: seq<VNode>, olds: seq<VNode>,
                                     nexts: seq<VNode>)
    requires Ready(c, id, before, ws, olds, nexts) && olds != [] && nexts != []
    ensures AtOnce(c) && Valid(c) && ws != [] && id in c.nodes && Holds(c, ws[0], olds[0], Some(c.nodes[id]))
    ensures Proper(nexts[0]) && Compatible(olds[0], nexts[0]) && NewIn(olds[0], nexts[0]) !! c.nodes.Keys
  {
    ShowsHead(c, ws, c.nodes[id]);
    hide Valid, Shows, Like, Proper, Compatible, Ids, NewIn;
  }

  /** After the first pair the rest is ready, and the first stays apart from it. */
  lemma {:induction false} MatchStage(c: Client, c1: Client, id: uint32, before: seq<Ref>, ws: seq<VNode>,
                                      olds: seq<VNode>, nexts: seq<VNode>, w: VNode)
    requires Ready(c, id, before, ws, olds, nexts) && olds != [] && nexts != [] && AtOnce(c1) && id in c.nodes
    requires Holds(c1, w, nexts[0], Some(c.nodes[id])) && Within(c, c1, Ids(olds[0]) + Ids(nexts[0]))
    requires c1.nodes.Keys <= c.nodes.Keys + NewIn(olds[0], nexts[0])
    requires olds[0].id in c1.nodes && c1.nodes[olds[0].id] == RefOf(c.nodes, olds[0].id) && w.id == olds[0].id
    ensures Ready(c1, id, before + [c1.nodes[w.id]], ws[1..], olds[1..], nexts[1..]) && Valid(c1)
    ensures Stage(c, c1, id, Ids(olds[0]) + Ids(nexts[0]), NewIn(olds[0], nexts[0])) && w.id in c1.nodes
    ensures ShowsAll(c1.heap, c1.nodes, [w], Some(c1.nodes[id])) && Like(w, nexts[0]) && ProperAll([w])
    ensures Ids(w) !! {id} + Touched(olds[1..], nexts[1..])
  {
    AtOnceValid(c1);
    hide Valid, Shows, ShowsAll, Like, Proper, Compatible, NewIn, NewAmong, Ids, IdsOf, AtOnce, Within, ProperAll;
    MatchReady(c, c1, id, before, ws, olds, nexts);
    HeadShown(c1, w, nexts[0], Some(c.nodes[id]));
    HeadApart(c, id, before, ws, olds, nexts, w);
    hide Ready, Holds;
    WithinMore(c, c1, Ids(olds[0]) + Ids(nexts[0]), {id} + (Ids(olds[0]) + Ids(nexts[0])));
  }

  lemma AtOnceValid(c: Client)
    requires AtOnce(c)
    ensures Valid(c)
  {
    hide Valid;
  }

  lemma {:induction false} HeadShown(c1: Client, w: VNode, next: VNode, parent: Option<Ref>)
    requires Holds(c1, w, next, parent)
    ensures ShowsAll(c1.heap, c1.nodes, [w], parent) && Like(w, next) && ProperAll([w]) && w.id in c1.nodes
  {
    HoldsRoot(c1, w, next, parent);
    hide Shows, Like, Proper;
    ProperOne(w);
    ShowsOne(c1.heap, c1.nodes, w, parent);
  }

  lemma {:induction false} HeadApart(c: Client, id: uint32, before: seq<Ref>, ws: seq<VNode>, olds: seq<VNode>,
                                     nexts: seq<VNode>, w: VNode)
    requires Ready(c, id, before, ws, olds, nexts) && olds != [] && nexts != [] && Like(w, nexts[0])
    ensures Ids(w) !! {id} + Touched(olds[1..], nexts[1..])
  {
    MatchApart(c, id, before, ws, olds, nexts);
    LikeIds(w, nexts[0]);
    hide Ready, Like, Ids, IdsOf, NewIn, NewAmong;
  }

  lemma {:induction false} WithinMore(c: Client, c1: Client, ids: set<uint32>, all: set<uint32>)
    requires Within(c, c1, ids) && ids <= all
    ensures Within(c, c1, all)
  {
    assert forall r | r in Nodes(c, ids) :: r in Nodes(c, all);
  }

  /**
   A Diff of compatible trees, on a client that shows the old one and attaches at
   once: it shows the next one, and nothing else has changed.
   */
  lemma {:induction false} TreeDone(c: Client, w: VNode, old_: VNode, next: VNode, parent: Option<Ref>, msgs: seq<Msg>)
    returns (w': VNode)
    requires AtOnce(c) && Holds(c, w, old_, parent) && Proper(next) && Compatible(old_, next)
    requires NewIn(old_, next) !! c.nodes.Keys && IsDiff(msgs, old_, next)
    ensures var c' := ApplyAll(c, msgs);
            && AtOnce(c') && Holds(c', w', next, parent) && w'.id == old_.id
            && Within(c, c', Ids(old_) + Ids(next)) && c'.nodes.Keys <= c.nodes.Keys + NewIn(old_, next)
            && old_.id in c'.nodes && c'.nodes[old_.id] == RefOf(c.nodes, old_.id)
    decreases old_
  {
    if old_.VText? {
      w' := next;
      TextDone(c, w, old_, next, parent, msgs);
    } else {
      hide ApplyAll, Holds, AtOnce, Within, NewIn, Proper, Compatible, IsOwnDiff, Finished, Ready, Valid, Ids, RefOf;
      NextElem(old_, next);
      var own, below := ElemSplit(old_, next, msgs);
      ApplyAllSplit(c, own, below);
      hide IsDiffAll, IsDiff;
      var w1 := OwnStep(c, w, old_, next, parent, own);
      var c1 := ApplyAll(c, own);
      ChildrenReady(c, c1, w, w1, old_, next, parent);
      var ws := ChildrenDone(c1, next.id, [], w1.children, old_.children, next.children, below);
      w' := w1.(children := ws);
      AtOnceValid(c);
      TreeAssembled(c, c1, ApplyAll(c, msgs), w1, ws, old_, next, parent);
    }
  }

  lemma NextElem(old_: VNode, next: VNode)
    requires old_.VElem? && Compatible(old_, next)
    ensures next.VElem? && next.id == old_.id && next.tag == old_.tag
  {
  }

  lemma {:induction false} TextDone(c: Client, w: VNode, old_: VNode, next: VNode, parent: Option<Ref>, msgs: seq<Msg>)
    requires AtOnce(c) && Holds(c, w, old_, parent) && old_.VText? && Compatible(old_, next) && IsDiff(msgs, old_, next)
    ensures var c' := ApplyAll(c, msgs);
            && AtOnce(c') && Holds(c', next, next, parent) && next.id == old_.id
            && Within(c, c', Ids(old_) + Ids(next)) && c'.nodes.Keys <= c.nodes.Keys + NewIn(old_, next)
            && old_.id in c'.nodes && c'.nodes[old_.id] == RefOf(c.nodes, old_.id)
  {
    HoldsRoot(c, w, old_, parent);
    TextDiff(c, w, old_, next, parent, msgs);
    hide ApplyAll, Holds, AtOnce, Within;
    WithinMore(c, ApplyAll(c, msgs), Ids(old_), Ids(old_) + Ids(next));
  }

  lemma {:induction false} ChildrenReady(c: Client, c1: Client, w: VNode, w1: VNode, old_: VNode, next: VNode,
                                         parent: Option<Ref>)
    requires AtOnce(c1) && ShownAt(c1, w1, parent) && Holds(c, w, old_, parent) && Proper(next)
             && Compatible(old_, next)
    requires old_.VElem? && w.VElem? && w1.VElem? && w1 == w.(attrs := w1.attrs, styles := w1.styles)
    requires NewIn(old_, next) !! c.nodes.Keys && c1.nodes == c.nodes
    ensures next.VElem? && Ready(c1, next.id, [], w1.children, old_.children, next.children)
  {
    hide AtOnce, LikeAll, ProperAll, CompatibleAll, ShowsAll, IdsOf, NewAmong;
    assert [] + Refs(c1.nodes, w1.children) == Refs(c1.nodes, w1.children);
  }

  lemma {:induction false} TreeAssembled(c: Client, c1: Client, c2: Client, w1: VNode, ws: seq<VNode>, old_: VNode,
                                         next: VNode,
                                         parent: Option<Ref>)
    requires Valid(c) && Within(c, c1, {old_.id}) && c1.nodes == c.nodes && ShownAt(c1, w1, parent)
    requires old_.VElem? && next.VElem? && w1.VElem? && w1.id == old_.id == next.id && w1.tag == next.tag
    requires SameEntries(w1.attrs, next.attrs) && SameEntries(w1.styles, next.styles) && Proper(next)
    requires Finished(c1, c2, next.id, [], ws, old_.children, next.children)
    ensures var w' := w1.(children := ws);
            && AtOnce(c2) && Holds(c2, w', next, parent)
            && Within(c, c2, Ids(old_) + Ids(next)) && c2.nodes.Keys <= c.nodes.Keys + NewIn(old_, next)
            && old_.id in c2.nodes && c2.nodes[old_.id] == RefOf(c.nodes, old_.id)
  {
    hide Valid, AtOnce, Within, SameEntries, Proper, IdsOf, NewAmong, ShowsAll, LikeAll, OnlyKids, Row;
    WithinThen(c, c1, c2, {old_.id}, {next.id} + Touched(old_.children, next.children), Ids(old_) + Ids(next));
    RootKept(c1, c2, w1, ws, parent);
    LikeElem(w1, ws, next);
  }

  lemma {:induction false} LikeElem(w1: VNode, ws: seq<VNode>, next: VNode)
    requires w1.VElem? && next.VElem? && w1.id == next.id && w1.tag == next.tag
    requires SameEntries(w1.attrs, next.attrs) && SameEntries(w1.styles, next.styles) && LikeAll(ws, next.children)
    ensures Like(w1.(children := ws), next)
  {
    hide SameEntries, LikeAll;
  }

  lemma {:induction false} RootKept(c1: Client, c2: Client, w1: VNode, ws: seq<VNode>, parent: Option<Ref>)
    requires w1.VElem? && ShownAt(c1, w1, parent) && OnlyKids(c1, c2, w1.id) && Row(c2, w1.id, [], ws)
    ensures ShownAt(c2, w1.(children := ws), parent) && c2.nodes[w1.id] == RefOf(c1.nodes, w1.id)
  {
    RootLabelled(c1, w1, parent);
    hide ShowsAll;
    var p := c1.nodes[w1.id];
    assert [] + Refs(c2.nodes, ws) == Refs(c2.nodes, ws);
    hide Refs;
    assert Labelled(c2.heap[p], w1.(children := ws));
  }

  lemma RootLabelled(c: Client, w: VNode, parent: Option<Ref>)
    requires ShownAt(c, w, parent) && w.VElem?
    ensures w.id in c.nodes && c.nodes[w.id] in c.heap && c.heap[c.nodes[w.id]].parent == parent
    ensures Labelled(c.heap[c.nodes[w.id]], w)
  {
  }
}
