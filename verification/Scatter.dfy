/**
 Inserting a tree again within the batch in which it was removed. Its ids are in
 the batch's snapshot, so no node is attached on the spot: elements that were
 forgotten are created and put off, elements that are still registered move at
 once, and texts are always created anew and put off.
 */
module Scatter {
  import opened Seqs
  import opened Wire
  import opened Dom
  import opened Client
  import opened Trees
  import opened Emission
  import opened ForClient
  import opened Solids
  import opened Hanging
  import Links

  /** Outside the nodes registered for `ids`, and `x`, nothing has changed. */
  ghost predicate Aside(c: Client, c': Client, ids: set<uint32>, x: set<Ref>) {
    && c'.depth == c.depth && c'.existing == c.existing && c.next <= c'.next
    && (forall id | id !in ids ::
         (id in c'.nodes <==> id in c.nodes) && (id in c.nodes ==> c'.nodes[id] == c.nodes[id]))
    && (forall id | id in ids && id in c'.nodes ::
         (id in c.nodes && c'.nodes[id] == c.nodes[id]) || c.next <= c'.nodes[id])
    && (forall r | r in c.heap && r < c.next && r !in x && r !in Nodes(c, ids) ::
         r in c'.heap && c'.heap[r] == c.heap[r])
  }

  lemma {:induction false} AsideNone(c: Client, ids: set<uint32>, x: set<Ref>)
    ensures Aside(c, c, ids, x)
  {
  }

  lemma {:induction false} AsideThen(c: Client, c1: Client, c2: Client, ids: set<uint32>, x: set<Ref>)
    requires Aside(c, c1, ids, x) && Aside(c1, c2, ids, x)
    ensures Aside(c, c2, ids, x)
  {
    forall r | r in c.heap && r < c.next && r !in x && r !in Nodes(c, ids) ensures r in c2.heap
           && c2.heap[r] == c.heap[r] {
      assert r !in Nodes(c1, ids);
    }
  }

  lemma {:induction false} AsideMore(c: Client, c': Client, ids: set<uint32>, more: set<uint32>, x: set<Ref>,
                                     y: set<Ref>)
    requires Aside(c, c', ids, x) && ids <= more && x <= y
    ensures Aside(c, c', more, y)
  {
    assert Nodes(c, ids) <= Nodes(c, more);
  }

  // -------------------------------------------------- everything is forgotten

  /** Registered, labelled, without parent and children, and so are all nodes below. */
  ghost predicate Loose(h: Heap, nodes: map<uint32, Ref>, v: VNode)
    decreases v
  {
    && v.id in nodes && nodes[v.id] in h && Labelled(h[nodes[v.id]], v)
    && h[nodes[v.id]].children == [] && h[nodes[v.id]].parent == None
    && (v.VElem? ==> forall x | x in v.children :: Loose(h, nodes, x))
  }

  /** The nodes `ids` were created loose and put off as `es` says. */
  ghost predicate Scattered(c: Client, c': Client, ids: set<uint32>, es: seq<Deferred>) {
    && Valid(c') && c'.depth == c.depth && c'.existing == c.existing && c.next <= c'.next
    && Renewed(c, c', ids)
    && (forall r | r in c.heap :: r in c'.heap && c'.heap[r] == c.heap[r])
    && c'.deferred == c.deferred + es
  }

  lemma {:induction false} LooseKept(c: Client, c': Client, v: VNode, ids: set<uint32>, es: seq<Deferred>)
    requires Loose(c.heap, c.nodes, v) && Scattered(c, c', ids, es) && Ids(v) !! ids
    ensures Loose(c'.heap, c'.nodes, v)
    decreases v
  {
    assert v.id in Ids(v);
    hide Valid, Labelled;
    if v.VElem? {
      forall x | x in v.children ensures Loose(c'.heap, c'.nodes, x) {
        Links.IdsInside(v.children, x);
        LooseKept(c, c', x, ids, es);
      }
    }
  }

  lemma {:induction false} ScatteredThen(c: Client, c1: Client, c2: Client, a: set<uint32>, b: set<uint32>,
                                         es: seq<Deferred>, fs: seq<Deferred>)
    requires Scattered(c, c1, a, es) && Scattered(c1, c2, b, fs)
    ensures Scattered(c, c2, a + b, es + fs)
  {
    hide Valid;
  }

  lemma {:induction false} CreateAgain(c: Client, id: uint32, e: Elem)
    requires Valid(c) && e.parent.None? && e.children == []
    ensures Valid(Create(c, id, e))
  {
    var h := c.heap[c.next := e];
    forall p | p in h ensures NodeOk(h, p) {
      if p != c.next {
        assert NodeOk(c.heap, p);
      }
    }
  }

  /** One node below a parent of the snapshot. */
  lemma {:induction false} OnePutOff(c: Client, v: VNode, e: Elem, parent: uint32)
    requires Valid(c) && c.depth > 0 && parent in c.existing && VKids(v) == []
    requires Labelled(e, v) && e.parent.None? && e.children == []
    ensures var c' := Place(Create(c, v.id, e), v.id, c.next, parent, 0);
            Scattered(c, c', {v.id}, [Deferred(v.id, parent)]) && Loose(c'.heap, c'.nodes, v)
  {
    CreateAgain(c, v.id, e);
    NodesBelowNext(c);
    ValidDeferred(Create(c, v.id, e), [Deferred(v.id, parent)]);
    hide Valid, Labelled;
    var c' := Place(Create(c, v.id, e), v.id, c.next, parent, 0);
    assert c' == Create(c, v.id, e).(deferred := c.deferred + [Deferred(v.id, parent)]);
    hide Place;
    PutOffScattered(c, v.id, e, [Deferred(v.id, parent)]);
  }

  lemma PutOffScattered(c: Client, id: uint32, e: Elem, ds: seq<Deferred>)
    requires (forall r | r in c.heap :: r < c.next) && Valid(Create(c, id, e).(deferred := c.deferred + ds))
    ensures Scattered(c, Create(c, id, e).(deferred := c.deferred + ds), {id}, ds)
  {
    hide Valid;
  }

  lemma ValidDeferred(c: Client, ds: seq<Deferred>)
    requires Valid(c)
    ensures Valid(c.(deferred := c.deferred + ds))
  {
  }

  /** A forgotten tree comes back: all its nodes are created and put off in preorder. */
  lemma {:induction false} TreeScatters(c: Client, v: VNode, parent: uint32, msgs: seq<Msg>)
    requires Valid(c) && c.depth > 0 && Proper(v) && Unstyled(v) == v && IsInsertTree(msgs, v, parent)
    requires parent in c.existing && Elems(v) <= c.existing && Elems(v) !! c.nodes.Keys
    ensures var c' := ApplyAll(c, msgs);
            Scattered(c, c', Ids(v), [Deferred(v.id, parent)] + Links.Edges(v, Links.All))
              && Loose(c'.heap, c'.nodes, v)
    decreases v
  {
    hide Valid, Place, Create, Scattered, Labelled;
    ApplyCons(c, msgs);
    var c1 := Apply(c, msgs[0]);
    match v
    case VText(id, text) =>
      LabelText(id, text);
      OnePutOff(c, v, NewText(text), parent);
      assert msgs[1..] == [];
      assert [Deferred(id, parent)] + [] == [Deferred(id, parent)];
    case VElem(id, tag, attrs, styles, children) =>
      var bare := VElem(id, tag, attrs, map[], []);
      LabelElem(id, tag, attrs);
      OnePutOff(c, bare, NewElem(id, tag, attrs), parent);
      ScatteredFacts(c, c1, {id}, [Deferred(id, parent)]);
      IdsOfParts(children);
      hide Loose, Apply;
      ForestScatters(c1, children, id, msgs[1..]);
      ScatteredThen(c, c1, ApplyAll(c, msgs), {id}, IdsOf(children), [Deferred(id, parent)], Links.EdgesAll(children,
        id, Links.All));
      BareLoose(c1, ApplyAll(c, msgs), v, bare, IdsOf(children), Links.EdgesAll(children, id, Links.All));
  }

  lemma LabelText(id: uint32, text: Str)
    ensures Labelled(NewText(text), VText(id, text))
  {
  }

  lemma LabelElem(id: uint32, tag: Str, attrs: map<Str, Str>)
    requires tag != TEXT_TAG
    ensures Labelled(NewElem(id, tag, attrs), VElem(id, tag, attrs, map[], []))
  {
  }

  lemma {:induction false} ScatteredFacts(c: Client, c': Client, ids: set<uint32>, es: seq<Deferred>)
    requires Scattered(c, c', ids, es)
    ensures Valid(c') && c'.depth == c.depth && c'.existing == c.existing
    ensures forall id | id !in ids :: id in c'.nodes <==> id in c.nodes
  {
  }

  lemma {:induction false} BareLoose(c: Client, c': Client, v: VNode, bare: VNode, ids: set<uint32>, es: seq<Deferred>)
    requires v.VElem? && bare == VElem(v.id, v.tag, v.attrs, map[], []) && v.styles == map[]
    requires Loose(c.heap, c.nodes, bare) && Scattered(c, c', ids, es) && v.id !in ids
    requires forall x | x in v.children :: Loose(c'.heap, c'.nodes, x)
    ensures Loose(c'.heap, c'.nodes, v)
  {
    LooseKept(c, c', bare, ids, es);
  }

  lemma {:induction false} ForestScatters(c: Client, vs: seq<VNode>, parent: uint32, msgs: seq<Msg>)
    requires Valid(c) && c.depth > 0 && ProperAll(vs) && UnstyledAll(vs) == vs && IsInsertForest(msgs, vs, parent)
    requires parent in c.existing && ElemsOf(vs) <= c.existing && ElemsOf(vs) !! c.nodes.Keys
    ensures var c' := ApplyAll(c, msgs);
            && Scattered(c, c', IdsOf(vs), Links.EdgesAll(vs, parent, Links.All))
            && forall x | x in vs :: Loose(c'.heap, c'.nodes, x)
    decreases vs
  {
    hide Valid, Scattered, Loose, Apply, IsInsertTree, Proper;
    if vs == [] {
      ScatteredNone(c);
    } else {
      assert Unstyled(vs[0]) == vs[0] && UnstyledAll(vs)[1..] == UnstyledAll(vs[1..]);
      var front, rest := InsertSplit(msgs, vs, parent);
      hide IsInsertForest;
      ApplyAllSplit(c, front, rest);
      TreeScatters(c, vs[0], parent, front);
      var c1, c2 := ApplyAll(c, front), ApplyAll(c, msgs);
      var es := [Deferred(vs[0].id, parent)] + Links.Edges(vs[0], Links.All);
      ScatteredFacts(c, c1, Ids(vs[0]), es);
      IdsOfParts(vs[1..]);
      ForestScatters(c1, vs[1..], parent, rest);
      ScatteredThen(c, c1, c2, Ids(vs[0]), IdsOf(vs[1..]), es, Links.EdgesAll(vs[1..], parent, Links.All));
      LooseKept(c1, c2, vs[0], IdsOf(vs[1..]), Links.EdgesAll(vs[1..], parent, Links.All));
    }
  }

  lemma {:induction false} ScatteredNone(c: Client)
    requires Valid(c)
    ensures Scattered(c, c, {}, [])
  {
  }
}
