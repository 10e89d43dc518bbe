/**
 Inserting a tree once more when its elements below the root are still
 registered: each of them moves at once below its parent, and the texts are
 created anew and put off.
 */
module Skeleton {
  import opened Seqs
  import opened Wire
  import opened Dom
  import opened Client
  import opened Trees
  import opened Emission
  import opened ForClient
  import opened Solids
  import opened Hanging
  import opened Scatter
  import Links

  /** What is inserted: all nodes, the elements, and all attachments. */
  datatype Plan = Plan(all: set<uint32>, elems: set<uint32>, es: seq<Deferred>)

  ghost predicate Sound(p: Plan) {
    p.elems <= p.all && Simple(p.es) && forall e | e in p.es :: e.node in p.all
  }

  ghost predicate NoTexts(k: Rows, elems: set<uint32>) {
    forall x, y | x in elems && y in Links.Row(k, x) :: y in elems
  }

  /** The state in between. */
  ghost predicate Growing(c: Client, p: Plan, k: Rows) {
    Valid(c) && c.depth > 0 && p.elems <= c.existing && Linked(c, p.elems, p.es, k) && NoTexts(k, p.elems)
  }

  /** What has changed: texts are new, elements may have moved. */
  ghost predicate Grown(c: Client, c': Client, p: Plan, texts: set<uint32>, ds: seq<Deferred>) {
    && Aside(c, c', p.all, {}) && Relinked(c, c', c.nodes.Keys - texts, p.elems) && c'.deferred == c.deferred + ds
    && ParentsKept(c, c', p, texts)
  }

  /** Only what is attached by the plan gets another parent. */
  ghost predicate ParentsKept(c: Client, c': Client, p: Plan, texts: set<uint32>) {
    forall id | id in c.nodes && id !in texts && (forall e | e in p.es :: e.node != id) ::
      id in c'.nodes && c'.nodes[id] == c.nodes[id] && ParentOf(c'.heap, c.nodes[id]) == ParentOf(c.heap, c.nodes[id])
  }

  lemma {:induction false} GrownNone(c: Client, p: Plan)
    ensures Grown(c, c, p, {}, [])
  {
  }

  lemma {:induction false} GrownThen(c: Client, c1: Client, c2: Client, p: Plan, a: set<uint32>, b: set<uint32>,
                                     ds: seq<Deferred>, fs: seq<Deferred>)
    requires Grown(c, c1, p, a, ds) && Grown(c1, c2, p, b, fs)
    ensures Grown(c, c2, p, a + b, ds + fs)
  {
    AsideThen(c, c1, c2, p.all, {});
    hide Aside;
    RelinkedThen(c, c1, c2, a, b, p.elems);
  }

  lemma {:induction false} RelinkedThen(c: Client, c1: Client, c2: Client, a: set<uint32>, b: set<uint32>,
                                        elems: set<uint32>)
    requires Relinked(c, c1, c.nodes.Keys - a, elems) && Relinked(c1, c2, c1.nodes.Keys - b, elems)
    ensures Relinked(c, c2, c.nodes.Keys - (a + b), elems)
  {
  }

  lemma {:induction false} MoveIsHung(c: Client, e: Deferred, tag: Str, attrs: seq<(Str, Str)>)
    requires e.node in c.nodes && e.parent in c.nodes
    ensures Apply(c, InsertNode(e.node, e.parent, 0, tag, attrs)) == Hung(c, e)
  {
    DetachTwice(c.heap, c.nodes[e.node]);
    hide Detach;
  }

  lemma DetachTwice(h: Heap, r: Ref)
    ensures Detach(Detach(h, r), r) == Detach(h, r)
  {
  }

  /** A registered element moves below its parent. */
  lemma {:induction false} ElementMoves(c: Client, p: Plan, k: Rows, e: Deferred, tag: Str, attrs: seq<(Str, Str)>)
    requires Growing(c, p, k) && Sound(p) && e in p.es && e.node in p.elems
    ensures var c' := Apply(c, InsertNode(e.node, e.parent, 0, tag, attrs));
            Growing(c', p, Links.Hang(k, e)) && Grown(c, c', p, {}, [])
  {
    assert e.parent in p.elems && e.node in c.nodes && e.parent in c.nodes;
    MoveIsHung(c, e, tag, attrs);
    hide Growing, Grown, Sound, Apply, Hung;
    HungGrowing(c, p, k, e);
    HungGrown(c, p, k, e);
  }

  lemma {:induction false} HungGrowing(c: Client, p: Plan, k: Rows, e: Deferred)
    requires Growing(c, p, k) && Sound(p) && e in p.es && e.node in p.elems
    ensures Growing(Hung(c, e), p, Links.Hang(k, e))
  {
    assert e.parent in p.elems;
    HangStep(c, p.elems, p.es, k, e);
    HungSame(c, e);
    NoTextsMoved(k, p.elems, e);
    hide Valid, Linked, Hung, NoTexts, Links.Hang, Sound;
  }

  lemma {:induction false} HungGrown(c: Client, p: Plan, k: Rows, e: Deferred)
    requires Growing(c, p, k) && Sound(p) && e in p.es
    ensures Grown(c, Hung(c, e), p, {}, [])
  {
    HangRelinks(c, p.elems, p.es, k, e, c.nodes.Keys - {});
    HungAside(c, p, k, e);
    HungSame(c, e);
    HungParents(c, p, k, e);
    hide Valid, Linked, Aside, Relinked, Hung, Sound, ParentsKept, Growing;
    assert c.deferred + [] == c.deferred;
  }

  lemma {:induction false} HungParents(c: Client, p: Plan, k: Rows, e: Deferred)
    requires Valid(c) && Linked(c, p.elems, p.es, k) && Sound(p) && e in p.es
    ensures ParentsKept(c, Hung(c, e), p, {})
  {
    HungAt(c, p.elems, p.es, k, e);
    forall id | id in c.nodes && id != e.node ensures RefOf(c.nodes, id) != RefOf(c.nodes, e.node) {
      RegistryTells(c, id, e.node);
    }
    hide Valid, Linked, Hung, Sound;
  }

  lemma HungSame(c: Client, e: Deferred)
    ensures Hung(c, e) == c.(heap := Hung(c, e).heap)
  {
    hide Append;
  }

  lemma {:induction false} NoTextsMoved(k: Rows, elems: set<uint32>, e: Deferred)
    requires NoTexts(k, elems) && e.node in elems && e.parent in elems
    ensures NoTexts(Links.Hang(k, e), elems)
  {
    forall x, y | x in elems && y in Links.Row(Links.Hang(k, e), x) ensures y in elems {
    }
  }

  lemma {:induction false} HungAside(c: Client, p: Plan, k: Rows, e: Deferred)
    requires Valid(c) && Linked(c, p.elems, p.es, k) && Sound(p) && e in p.es
    ensures Aside(c, Hung(c, e), p.all, {})
  {
    HungIs(c, p.elems, p.es, k, e);
    assert e.parent in p.elems;
    hide Valid, Linked, Hung, Simple;
    assert RefOf(c.nodes, e.parent) in Nodes(c, p.all) && RefOf(c.nodes, e.node) in Nodes(c, p.all);
  }

  /** A text is created again. */
  lemma {:induction false} TextAgain(c: Client, p: Plan, k: Rows, id: uint32, parent: uint32, text: Str)
    requires Growing(c, p, k) && id !in p.elems && id in p.all && parent in p.elems
    ensures var c' := Apply(c, InsertText(id, parent, text));
            && Growing(c', p, k) && Grown(c, c', p, {id}, [Deferred(id, parent)])
            && Named(c'.heap, c'.nodes, VText(id, text))
  {
    var v, c' := VText(id, text), Apply(c, InsertText(id, parent, text));
    TextPutOff(c, p, k, id, parent, text);
    assert Valid(c);
    hide Apply, Growing, Scattered, Labelled, Grown, Valid;
    LooseText(c', v);
    TextGrown(c, c', p, id, [Deferred(id, parent)]);
    TextGrowing(c, c', p, k, id, [Deferred(id, parent)]);
  }

  lemma LooseText(c: Client, v: VNode)
    requires v.VText? && Loose(c.heap, c.nodes, v)
    ensures Named(c.heap, c.nodes, v) && v.id in c.nodes && c.nodes[v.id] in c.heap
            && c.heap[c.nodes[v.id]].parent == None
  {
  }

  lemma {:induction false} TextPutOff(c: Client, p: Plan, k: Rows, id: uint32, parent: uint32, text: Str)
    requires Growing(c, p, k) && parent in p.elems
    ensures var c' := Apply(c, InsertText(id, parent, text));
            Scattered(c, c', {id}, [Deferred(id, parent)]) && Loose(c'.heap, c'.nodes, VText(id, text))
  {
    LabelText(id, text);
    assert Valid(c) && c.depth > 0 && parent in c.existing;
    TextIsPlaced(c, id, parent, text);
    hide Labelled, Valid, Growing, Place, Create, Scattered, Loose, Apply;
    OnePutOff(c, VText(id, text), NewText(text), parent);
  }

  lemma TextIsPlaced(c: Client, id: uint32, parent: uint32, text: Str)
    ensures Apply(c, InsertText(id, parent, text)) == Place(Create(c, id, NewText(text)), id, c.next, parent, 0)
  {
    hide Place, Create;
  }

  lemma {:induction false} TextGrowing(c: Client, c': Client, p: Plan, k: Rows, id: uint32, ds: seq<Deferred>)
    requires Growing(c, p, k) && Scattered(c, c', {id}, ds) && id !in p.elems
    requires id in c'.nodes && c'.nodes[id] in c'.heap && c'.heap[c'.nodes[id]].parent == None
    ensures Growing(c', p, k)
  {
    hide Valid, Linked, NoTexts;
    TextLinked(c, c', p, k, id);
  }

  lemma {:induction false} TextGrown(c: Client, c': Client, p: Plan, id: uint32, ds: seq<Deferred>)
    requires Valid(c) && Scattered(c, c', {id}, ds) && id in p.all
    ensures Grown(c, c', p, {id}, ds)
  {
    NodesBelowNext(c);
    hide Valid;
  }

  lemma {:induction false} TextLinked(c: Client, c': Client, p: Plan, k: Rows, id: uint32)
    requires Linked(c, p.elems, p.es, k) && NoTexts(k, p.elems) && id !in p.elems
    requires forall r | r in c.heap :: r in c'.heap && c'.heap[r] == c.heap[r]
    requires forall i | i != id :: (i in c'.nodes <==> i in c.nodes) && (i in c.nodes ==> c'.nodes[i] == c.nodes[i])
    requires id in c'.nodes && c'.nodes[id] in c'.heap && c'.heap[c'.nodes[id]].parent == None
    ensures Linked(c', p.elems, p.es, k)
  {
    forall x | x in p.elems ensures RefList(c'.nodes, Links.Row(k, x)) == RefList(c.nodes, Links.Row(k, x)) {
    }
    hide Links.Within, Distinct;
    assert Parents(c', p.elems, p.es, k) by {
      forall e | e in p.es
        ensures && e.parent in p.elems && e.node in c'.nodes && c'.nodes[e.node] in c'.heap
                && ParentOf(c'.heap, c'.nodes[e.node])
                   == if e.node in Links.Row(k, e.parent) then Some(RefOf(c'.nodes, e.parent)) else None
      {
      }
    }
  }

  // ------------------------------------------------------------- a whole tree

  /** The edges of a tree are planned. */
  ghost predicate Planned(v: VNode, p: Plan) {
    && Elems(v) <= p.elems && TextIds(v) <= p.all && TextIds(v) !! p.elems
    && forall e | e in Links.Edges(v, Links.All) :: e in p.es
  }

  function Moves(v: VNode, parent: uint32, w: Links.Which): seq<Deferred> {
    (if Links.Takes(w, v) then [Deferred(v.id, parent)] else []) + Links.Edges(v, w)
  }

  lemma {:induction false} HangAllSplit(k: Rows, a: seq<Deferred>, b: seq<Deferred>)
    ensures Links.HangAll(k, a + b) == Links.HangAll(Links.HangAll(k, a), b)
    decreases a
  {
    if a == [] {
      assert a + b == b;
    } else {
      assert (a + b)[1..] == a[1..] + b;
      HangAllSplit(Links.Hang(k, a[0]), a[1..], b);
    }
  }

  lemma {:induction false} NamedKept(c: Client, c': Client, p: Plan, texts: set<uint32>, ds: seq<Deferred>, v: VNode)
    requires Named(c.heap, c.nodes, v) && Grown(c, c', p, texts, ds) && Ids(v) !! texts && TextIds(v) !! p.elems
    ensures Named(c'.heap, c'.nodes, v)
  {
    hide Aside, Named;
    assert Relinked(c, c', Ids(v), p.elems);
    NamedRelinked(c, c', v, p.elems);
  }

  lemma {:induction false} TreeGrows(c: Client, p: Plan, k: Rows, v: VNode, parent: uint32, msgs: seq<Msg>)
    requires Growing(c, p, k) && Sound(p) && Proper(v) && Unstyled(v) == v && IsInsertTree(msgs, v, parent)
    requires Planned(v, p) && parent in p.elems && Deferred(v.id, parent) in p.es && Named(c.heap, c.nodes, v)
    ensures var c' := ApplyAll(c, msgs);
            && Growing(c', p, Links.HangAll(k, Moves(v, parent, Links.Elements)))
            && Grown(c, c', p, TextIds(v), Moves(v, parent, Links.Texts))
            && Named(c'.heap, c'.nodes, v)
    decreases v
  {
    hide Growing, Grown, Sound, Apply, Planned;
    ApplyCons(c, msgs);
    var c1, c' := Apply(c, msgs[0]), ApplyAll(c, msgs);
    match v
    case VText(id, text) =>
      PlannedText(v, p);
      TextAgain(c, p, k, id, parent, text);
      assert msgs[1..] == [];
      assert Moves(v, parent, Links.Texts) == [Deferred(id, parent)] && Moves(v, parent, Links.Elements) == [];
    case VElem(id, tag, attrs, styles, children) =>
      var e := Deferred(id, parent);
      PlannedElem(v, p);
      ElementMoves(c, p, k, e, tag, msgs[0].attrs);
      var k1 := Links.Hang(k, e);
      forall x | x in children ensures Named(c1.heap, c1.nodes, x) {
        PlannedKid(v, p, x);
        NamedKept(c, c1, p, {}, [], x);
      }
      Children(v);
      ForestGrows(c1, p, k1, children, id, msgs[1..]);
      MovesElem(v, parent, k);
      GrownThen(c, c1, c', p, {}, TextIdsOf(children), [], Links.EdgesAll(children, id, Links.Texts));
      assert {} + TextIdsOf(children) == TextIds(v);
      hide Named;
      RootNamed(c, c', p, v);
  }

  lemma {:induction false} Children(v: VNode)
    requires v.VElem? && Proper(v) && Unstyled(v) == v
    ensures ProperAll(v.children) && UnstyledAll(v.children) == v.children && v.id !in IdsOf(v.children)
  {
  }

  lemma {:induction false} RootNamed(c: Client, c': Client, p: Plan, v: VNode)
    requires v.VElem? && Proper(v) && Named(c.heap, c.nodes, v)
    requires Grown(c, c', p, TextIds(v), Links.EdgesAll(v.children, v.id, Links.Texts))
    requires forall x | x in v.children :: Named(c'.heap, c'.nodes, x)
    ensures Named(c'.heap, c'.nodes, v)
  {
    PartsApart(v);
    hide Aside;
    assert v.id in Elems(v);
  }

  lemma {:induction false} MovesElem(v: VNode, parent: uint32, k: Rows)
    requires v.VElem?
    ensures Moves(v, parent, Links.Texts) == Links.EdgesAll(v.children, v.id, Links.Texts)
    ensures [] + Links.EdgesAll(v.children, v.id, Links.Texts) == Links.EdgesAll(v.children, v.id, Links.Texts)
    ensures Links.HangAll(k, Moves(v, parent, Links.Elements))
            == Links.HangAll(Links.Hang(k, Deferred(v.id, parent)), Links.EdgesAll(v.children, v.id, Links.Elements))
  {
    var es := Links.EdgesAll(v.children, v.id, Links.Elements);
    assert ([Deferred(v.id, parent)] + es)[1..] == es;
  }

  lemma PlannedText(v: VNode, p: Plan)
    requires v.VText? && Planned(v, p)
    ensures v.id !in p.elems && v.id in p.all
  {
    assert v.id in TextIds(v);
  }

  lemma {:induction false} PlannedElem(v: VNode, p: Plan)
    requires v.VElem? && Planned(v, p)
    ensures v.id in p.elems && PlannedAll(v.children, v.id, p)
  {
    assert v.id in Elems(v);
  }

  ghost predicate PlannedAll(vs: seq<VNode>, parent: uint32, p: Plan) {
    && ElemsOf(vs) <= p.elems && TextIdsOf(vs) <= p.all && TextIdsOf(vs) !! p.elems
    && forall e | e in Links.EdgesAll(vs, parent, Links.All) :: e in p.es
  }

  lemma {:induction false} PlannedKid(v: VNode, p: Plan, x: VNode)
    requires v.VElem? && Planned(v, p) && x in v.children
    ensures TextIds(x) !! p.elems
  {
    TextsInside(v.children, x);
  }

  lemma {:induction false} ForestGrows(c: Client, p: Plan, k: Rows, vs: seq<VNode>, parent: uint32, msgs: seq<Msg>)
    requires Growing(c, p, k) && Sound(p) && ProperAll(vs) && UnstyledAll(vs) == vs && IsInsertForest(msgs, vs, parent)
    requires PlannedAll(vs, parent, p) && parent in p.elems && forall x | x in vs :: Named(c.heap, c.nodes, x)
    ensures var c' := ApplyAll(c, msgs);
            && Growing(c', p, Links.HangAll(k, Links.EdgesAll(vs, parent, Links.Elements)))
            && Grown(c, c', p, TextIdsOf(vs), Links.EdgesAll(vs, parent, Links.Texts))
            && forall x | x in vs :: Named(c'.heap, c'.nodes, x)
    decreases vs
  {
    hide Growing, Grown, Sound, Apply, Named, IsInsertTree, Proper, Planned;
    if vs == [] {
      GrownNone(c, p);
    } else {
      var v, rest := vs[0], vs[1..];
      assert Unstyled(v) == v && UnstyledAll(vs)[1..] == UnstyledAll(rest);
      PlannedSplit(vs, parent, p);
      var front, back := InsertSplit(msgs, vs, parent);
      hide IsInsertForest, PlannedAll;
      ApplyAllSplit(c, front, back);
      TreeGrows(c, p, k, v, parent, front);
      var c1, c2 := ApplyAll(c, front), ApplyAll(c, msgs);
      var k1 := Links.HangAll(k, Moves(v, parent, Links.Elements));
      forall x | x in rest ensures Named(c1.heap, c1.nodes, x) {
        PlannedRest(v, rest, parent, p, x);
        NamedKept(c, c1, p, TextIds(v), Moves(v, parent, Links.Texts), x);
      }
      ForestGrows(c1, p, k1, rest, parent, back);
      EdgesParts(vs, parent);
      HangAllSplit(k, Moves(v, parent, Links.Elements), Links.EdgesAll(rest, parent, Links.Elements));
      GrownThen(c, c1, c2, p, TextIds(v), TextIdsOf(rest), Moves(v, parent, Links.Texts),
                Links.EdgesAll(rest, parent, Links.Texts));
      PlannedFirst(vs, parent, p);
      NamedKept(c1, c2, p, TextIdsOf(rest), Links.EdgesAll(rest, parent, Links.Texts), v);
    }
  }

  lemma {:induction false} EdgesParts(vs: seq<VNode>, parent: uint32)
    requires vs != []
    ensures forall w: Links.Which ::
              Links.EdgesAll(vs, parent, w) == Moves(vs[0], parent, w) + Links.EdgesAll(vs[1..], parent, w)
  {
  }

  lemma {:induction false} PlannedSplit(vs: seq<VNode>, parent: uint32, p: Plan)
    requires vs != [] && PlannedAll(vs, parent, p)
    ensures Planned(vs[0], p) && Deferred(vs[0].id, parent) in p.es && PlannedAll(vs[1..], parent, p)
  {
    var es := Links.EdgesAll(vs, parent, Links.All);
    assert es == [Deferred(vs[0].id, parent)] + Links.Edges(vs[0], Links.All) + Links.EdgesAll(vs[1..], parent,
           Links.All);
    assert Deferred(vs[0].id, parent) in es;
    assert forall e | e in Links.Edges(vs[0], Links.All) :: e in es;
    assert forall e | e in Links.EdgesAll(vs[1..], parent, Links.All) :: e in es;
  }

  lemma {:induction false} PlannedRest(v: VNode, rest: seq<VNode>, parent: uint32, p: Plan, x: VNode)
    requires ProperAll([v] + rest) && PlannedAll(rest, parent, p) && x in rest
    ensures Ids(x) !! TextIds(v) && TextIds(x) !! p.elems
  {
    assert ([v] + rest)[1..] == rest;
    Links.IdsInside(rest, x);
    TextsInside(rest, x);
    IdsParts(v);
  }

  lemma {:induction false} PlannedFirst(vs: seq<VNode>, parent: uint32, p: Plan)
    requires vs != [] && ProperAll(vs) && PlannedAll(vs, parent, p)
    ensures Ids(vs[0]) !! TextIdsOf(vs[1..]) && TextIds(vs[0]) !! p.elems
  {
    IdsOfParts(vs[1..]);
  }
}
