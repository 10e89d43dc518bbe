/**
 Child lists of ids on the client's page: attaching one node is one step of the
 list model, and complete lists of well labelled nodes show the tree.
 */
module Hanging {
  import opened Seqs
  import opened Wire
  import opened Dom
  import opened Client
  import opened Trees
  import opened Solids
  import Links

  type Rows = Links.Rows

  function RefList(nodes: map<uint32, Ref>, ids: seq<uint32>): seq<Ref> {
    seq(|ids|, i requires 0 <= i < |ids| => RefOf(nodes, ids[i]))
  }

  /** The children of the DOM nodes of `elems` are `k`. */
  ghost predicate Lists(c: Client, elems: set<uint32>, k: Rows) {
    forall x | x in elems ::
      x in c.nodes && c.nodes[x] in c.heap && Kids(c.heap, c.nodes[x]) == RefList(c.nodes, Links.Row(k, x))
  }

  /** Every node of `es` is attached to its parent or, if it is not on its list, not at all. */
  ghost predicate Parents(c: Client, elems: set<uint32>, es: seq<Deferred>, k: Rows) {
    forall e | e in es ::
      && e.parent in elems && e.node in c.nodes && c.nodes[e.node] in c.heap
      && ParentOf(c.heap, c.nodes[e.node])
         == if e.node in Links.Row(k, e.parent) then Some(RefOf(c.nodes, e.parent)) else None
  }

  ghost predicate Linked(c: Client, elems: set<uint32>, es: seq<Deferred>, k: Rows) {
    Lists(c, elems, k) && Links.Within(elems, k, es) && Parents(c, elems, es, k)
  }

  /** Nobody has two parents or is its own. */
  ghost predicate Simple(es: seq<Deferred>) {
    && (forall e, f | e in es && f in es && e.node == f.node :: e.parent == f.parent)
    && (forall e | e in es :: e.node != e.parent)
  }

  // ------------------------------------------------------------- one attachment

  /** Attaching a node to the parent it has, or to its first. */
  lemma {:induction false} AppendAgain(h: Heap, p: Ref, r: Ref)
    requires Forest(h) && p in h && r in h && p != r && (h[r].parent.None? || h[r].parent == Some(p))
    ensures Append(h, p, r)
            == h[p := h[p].(children := Without(h[p].children, r) + [r])][r := h[r].(parent := Some(p))]
  {
    assert NodeOk(h, p);
    if h[r].parent.None? {
      WithoutAbsent(h[p].children, r);
    }
    hide Forest;
  }

  function Hung(c: Client, e: Deferred): Client {
    c.(heap := Append(c.heap, RefOf(c.nodes, e.parent), RefOf(c.nodes, e.node)))
  }

  lemma SettleHangs(c: Client, e: Deferred)
    requires e.node in c.nodes && e.parent in c.nodes
    ensures Settle(c, e) == Hung(c, e)
  {
  }

  lemma {:induction false} HungIs(c: Client, elems: set<uint32>, es: seq<Deferred>, k: Rows, e: Deferred)
    requires Valid(c) && Lists(c, elems, k) && Parents(c, elems, es, k) && Simple(es) && e in es
    ensures var p, r := RefOf(c.nodes, e.parent), RefOf(c.nodes, e.node);
            && e.node in c.nodes && e.parent in c.nodes && p in c.heap && r in c.heap && p != r && r != ROOT
            && Hung(c, e) == c.(heap := c.heap[p := c.heap[p].(children := Without(c.heap[p].children, r) + [r])]
                                              [r := c.heap[r].(parent := Some(p))])
            && Valid(Hung(c, e))
  {
    var p, r := RefOf(c.nodes, e.parent), RefOf(c.nodes, e.node);
    assert Forest(c.heap);
    AppendAgain(c.heap, p, r);
    AppendForest(c.heap, p, r);
    hide Forest, Append;
  }

  lemma {:induction false} HungAt(c: Client, elems: set<uint32>, es: seq<Deferred>, k: Rows, e: Deferred)
    requires Valid(c) && Lists(c, elems, k) && Parents(c, elems, es, k) && Simple(es) && e in es
    ensures var p, r, h := RefOf(c.nodes, e.parent), RefOf(c.nodes, e.node), Hung(c, e).heap;
            && Hung(c, e).nodes == c.nodes && h.Keys == c.heap.Keys
            && (forall q :: Kids(h, q) == if q == p then Without(Kids(c.heap, p), r) + [r] else Kids(c.heap, q))
            && (forall q :: ParentOf(h, q) == if q == r then Some(p) else ParentOf(c.heap, q))
  {
    HungIs(c, elems, es, k, e);
    hide Hung, Valid, Lists, Parents, Simple, Without;
    var p, r := RefOf(c.nodes, e.parent), RefOf(c.nodes, e.node);
    TwoChanged(c.heap, Hung(c, e).heap, p, r, Without(c.heap[p].children, r) + [r]);
  }

  lemma {:induction false} TwoChanged(h: Heap, h': Heap, p: Ref, r: Ref, kids: seq<Ref>)
    requires p in h && r in h && p != r
    requires h' == h[p := h[p].(children := kids)][r := h[r].(parent := Some(p))]
    ensures h'.Keys == h.Keys
    ensures forall q :: Kids(h', q) == if q == p then kids else Kids(h, q)
    ensures forall q :: ParentOf(h', q) == if q == r then Some(p) else ParentOf(h, q)
  {
  }

  lemma {:induction false} RefListWithout(nodes: map<uint32, Ref>, ids: seq<uint32>, id: uint32)
    requires forall x | x in ids && x != id :: RefOf(nodes, x) != RefOf(nodes, id)
    ensures RefList(nodes, Without(ids, id)) == Without(RefList(nodes, ids), RefOf(nodes, id))
    decreases ids
  {
    if ids != [] {
      assert RefList(nodes, ids)[1..] == RefList(nodes, ids[1..]);
      RefListWithout(nodes, ids[1..], id);
      if ids[0] != id {
        assert ids[0] in ids;
        assert Without(ids, id) == [ids[0]] + Without(ids[1..], id);
        assert RefList(nodes, Without(ids, id)) == [RefOf(nodes, ids[0])] + RefList(nodes, Without(ids[1..], id));
      }
    }
  }

  lemma {:induction false} RegistryTells(c: Client, i: uint32, j: uint32)
    requires Valid(c) && i in c.nodes && j in c.nodes && i != j
    ensures RefOf(c.nodes, i) != RefOf(c.nodes, j)
  {
  }

  lemma {:induction false} HangLists(c: Client, elems: set<uint32>, es: seq<Deferred>, k: Rows, e: Deferred)
    requires Valid(c) && Linked(c, elems, es, k) && Simple(es) && e in es
    ensures Lists(Hung(c, e), elems, Links.Hang(k, e))
  {
    HungAt(c, elems, es, k, e);
    var p, r := RefOf(c.nodes, e.parent), RefOf(c.nodes, e.node);
    var row := Links.Row(k, e.parent);
    assert e.parent in elems;
    forall x | x in row && x != e.node ensures RefOf(c.nodes, x) != r {
      assert Deferred(x, e.parent) in es;
      RegistryTells(c, x, e.node);
    }
    RefListWithout(c.nodes, row, e.node);
    hide Valid, Links.Within, Parents, Simple, Hung;
    RefListOne(c.nodes, Without(row, e.node), e.node);
    forall x | x in elems && x != e.parent ensures RefOf(c.nodes, x) != p {
      RegistryTells(c, x, e.parent);
    }
  }

  lemma RefListOne(nodes: map<uint32, Ref>, ids: seq<uint32>, id: uint32)
    ensures RefList(nodes, ids + [id]) == RefList(nodes, ids) + [RefOf(nodes, id)]
  {
  }

  lemma {:induction false} HangWithin(elems: set<uint32>, es: seq<Deferred>, k: Rows, e: Deferred)
    requires Links.Within(elems, k, es) && e in es && e.parent in elems
    ensures Links.Within(elems, Links.Hang(k, e), es)
  {
    var row := Links.Row(k, e.parent);
    WithoutDistinct(row, e.node);
    Links.AppendDistinct(Without(row, e.node), e.node);
    hide Distinct;
    forall x | x in elems
      ensures Distinct(Links.Row(Links.Hang(k, e), x))
      ensures forall y | y in Links.Row(Links.Hang(k, e), x) :: Deferred(y, x) in es
    {
    }
  }

  lemma {:induction false} HangParents(c: Client, elems: set<uint32>, es: seq<Deferred>, k: Rows, e: Deferred)
    requires Valid(c) && Linked(c, elems, es, k) && Simple(es) && e in es
    ensures Parents(Hung(c, e), elems, es, Links.Hang(k, e))
  {
    HungAt(c, elems, es, k, e);
    forall f | f in es && f.node != e.node ensures RefOf(c.nodes, f.node) != RefOf(c.nodes, e.node) {
      RegistryTells(c, f.node, e.node);
    }
    hide Valid, Links.Within, Lists, Hung;
  }

  lemma {:induction false} HangStep(c: Client, elems: set<uint32>, es: seq<Deferred>, k: Rows, e: Deferred)
    requires Valid(c) && Linked(c, elems, es, k) && Simple(es) && e in es
    ensures Valid(Hung(c, e)) && Linked(Hung(c, e), elems, es, Links.Hang(k, e))
  {
    HungIs(c, elems, es, k, e);
    HangLists(c, elems, es, k, e);
    HangParents(c, elems, es, k, e);
    HangWithin(elems, es, k, e) by { assert e.parent in elems; }
    hide Valid, Lists, Parents, Links.Within, Hung;
  }

  // -------------------------------------------------------------------- labels

  /** Every node of the tree is registered and has its label, wherever it hangs. */
  ghost predicate Named(h: Heap, nodes: map<uint32, Ref>, v: VNode)
    decreases v
  {
    && v.id in nodes && nodes[v.id] in h && Labelled(h[nodes[v.id]], v)
    && (v.VText? ==> h[nodes[v.id]].children == [])
    && (v.VElem? ==> forall x | x in v.children :: Named(h, nodes, x))
  }

  /** Nothing but parents, and the children of `elems`, has changed at the nodes `ids`. */
  ghost predicate Relinked(c: Client, c': Client, ids: set<uint32>, elems: set<uint32>) {
    forall id | id in ids && id in c.nodes && c.nodes[id] in c.heap ::
      && id in c'.nodes && c'.nodes[id] == c.nodes[id] && c.nodes[id] in c'.heap
      && c'.heap[c.nodes[id]]
         == c.heap[c.nodes[id]].(parent := c'.heap[c.nodes[id]].parent, children := c'.heap[c.nodes[id]].children)
      && (id !in elems ==> c'.heap[c.nodes[id]].children == c.heap[c.nodes[id]].children)
  }

  lemma {:induction false} NamedRelinked(c: Client, c': Client, v: VNode, elems: set<uint32>)
    requires Named(c.heap, c.nodes, v) && Relinked(c, c', Ids(v), elems) && elems !! TextIds(v)
    ensures Named(c'.heap, c'.nodes, v)
    decreases v
  {
    assert v.id in Ids(v);
    if v.VElem? {
      forall x | x in v.children ensures Named(c'.heap, c'.nodes, x) {
        Links.IdsInside(v.children, x);
        TextsInside(v.children, x);
        NamedRelinked(c, c', x, elems);
      }
    }
  }

  lemma {:induction false} TextsInside(vs: seq<VNode>, v: VNode)
    requires v in vs
    ensures TextIds(v) <= TextIdsOf(vs)
    decreases vs
  {
    if vs[0] != v {
      TextsInside(vs[1..], v);
    }
  }

  lemma {:induction false} HangRelinks(c: Client, elems: set<uint32>, es: seq<Deferred>, k: Rows, e: Deferred,
                                       ids: set<uint32>)
    requires Valid(c) && Lists(c, elems, k) && Parents(c, elems, es, k) && Simple(es) && e in es
    ensures Relinked(c, Hung(c, e), ids, elems)
  {
    HungIs(c, elems, es, k, e);
    assert e.parent in elems;
    forall id | id in ids && id in c.nodes && id != e.parent ensures c.nodes[id] != RefOf(c.nodes, e.parent) {
      RegistryTells(c, id, e.parent);
    }
    hide Valid, Lists, Parents, Simple, Hung;
  }

  // ----------------------------------------------------------- the tree shows

  /** Complete lists of labelled nodes show the tree. */
  lemma {:induction false} Showing(c: Client, v: VNode, elems: set<uint32>, es: seq<Deferred>, k: Rows)
    requires Named(c.heap, c.nodes, v) && Linked(c, elems, es, k) && Elems(v) <= elems && Links.Picked(v, k, Links.All)
    ensures Shows(c.heap, c.nodes, v)
    decreases v
  {
    if v.VElem? {
      Links.PickAll(v.children);
      RootRefs(c.nodes, v.children);
      assert v.id in Elems(v) && Kids(c.heap, c.nodes[v.id]) == RefList(c.nodes, Links.Row(k, v.id));
      hide Labelled, Linked;
      forall x | x in v.children ensures Elems(x) <= elems && x.id in Links.Row(k, v.id) {
        Links.InnerElems(v, x);
        InRootIds(v.children, x);
      }
      ShowingAll(c, v.id, v.children, elems, es, k);
    }
  }

  lemma {:induction false} InRootIds(vs: seq<VNode>, v: VNode)
    requires v in vs
    ensures v.id in Links.RootIds(vs)
    decreases vs
  {
    if vs[0] != v {
      InRootIds(vs[1..], v);
    }
  }

  lemma {:induction false} RootRefs(nodes: map<uint32, Ref>, vs: seq<VNode>)
    ensures RefList(nodes, Links.RootIds(vs)) == Refs(nodes, vs)
    decreases vs
  {
    if vs != [] {
      RootRefs(nodes, vs[1..]);
      var r := Links.RootIds(vs[1..]);
      assert RefList(nodes, [vs[0].id] + r) == [RefOf(nodes, vs[0].id)] + RefList(nodes, r);
    }
  }

  lemma {:induction false} ShowingAll(c: Client, parent: uint32, vs: seq<VNode>, elems: set<uint32>,
                                      es: seq<Deferred>, k: Rows)
    requires parent in elems && parent in c.nodes && Linked(c, elems, es, k)
    requires forall x | x in vs :: x.id in Links.Row(k, parent) && Elems(x) <= elems
    requires forall x | x in vs :: Named(c.heap, c.nodes, x) && Links.Picked(x, k, Links.All)
    ensures ShowsAll(c.heap, c.nodes, vs, Some(c.nodes[parent]))
    decreases vs
  {
    if vs != [] {
      assert vs[0] in vs;
      Showing(c, vs[0], elems, es, k);
      KidParent(c, parent, vs[0].id, elems, es, k);
      hide Linked, Named, Links.Picked, Shows;
      ShowingAll(c, parent, vs[1..], elems, es, k);
    }
  }

  lemma {:induction false} KidParent(c: Client, parent: uint32, id: uint32, elems: set<uint32>, es: seq<Deferred>,
                                     k: Rows)
    requires parent in elems && parent in c.nodes && Linked(c, elems, es, k) && id in Links.Row(k, parent)
    ensures id in c.nodes && c.nodes[id] in c.heap && c.heap[c.nodes[id]].parent == Some(c.nodes[parent])
  {
    assert Deferred(id, parent) in es;
  }
}
