/**
 The server's virtual nodes (pkg/dom/node.go), what it means for the client to
 show one, and what building one costs the rest of the page: nothing.
 */
module Trees {
  import opened Seqs
  import opened Wire
  import opened Dom
  import opened Client

  datatype VNode =
    | VText(id: uint32, text: Str)
    | VElem(id: uint32, tag: Str, attrs: map<Str, Str>, styles: map<Str, Str>, children: seq<VNode>)

  function Ids(v: VNode): set<uint32>
    decreases v
  {
    match v
    case VText(id, _) => {id}
    case VElem(id, _, _, _, children) => {id} + IdsOf(children)
  }

  function IdsOf(vs: seq<VNode>): set<uint32>
    decreases vs
  {
    if vs == [] then {} else Ids(vs[0]) + IdsOf(vs[1..])
  }

  /** Every id occurs once, is not 0, and no element passes for a text node. */
  ghost predicate Proper(v: VNode)
    decreases v
  {
    && v.id != 0
    && (v.VElem? ==> v.tag != TEXT_TAG && v.id !in IdsOf(v.children) && ProperAll(v.children))
  }

  ghost predicate ProperAll(vs: seq<VNode>)
    decreases vs
  {
    vs == [] || (Proper(vs[0]) && Ids(vs[0]) !! IdsOf(vs[1..]) && ProperAll(vs[1..]))
  }

  lemma {:induction false} ProperNonZero(v: VNode)
    requires Proper(v)
    ensures 0 !in Ids(v)
    decreases v
  {
    if v.VElem? {
      ProperAllNonZero(v.children);
    }
  }

  lemma {:induction false} ProperAllNonZero(vs: seq<VNode>)
    requires ProperAll(vs)
    ensures 0 !in IdsOf(vs)
    decreases vs
  {
    if vs != [] {
      ProperNonZero(vs[0]);
      ProperAllNonZero(vs[1..]);
    }
  }

  function RefOf(nodes: map<uint32, Ref>, id: uint32): Ref {
    if id in nodes then nodes[id] else ROOT
  }

  /** The DOM nodes registered for the given virtual nodes. */
  function Refs(nodes: map<uint32, Ref>, vs: seq<VNode>): (r: seq<Ref>)
    ensures |r| == |vs|
    ensures forall i | 0 <= i < |vs| :: r[i] == RefOf(nodes, vs[i].id)
  {
    if vs == [] then [] else [RefOf(nodes, vs[0].id)] + Refs(nodes, vs[1..])
  }

  /** The node itself, without its place and children. */
  ghost predicate Labelled(e: Elem, v: VNode) {
    match v
    case VText(_, text) => e.tag == TEXT_TAG && e.text == text && e.bwId.None?
    case VElem(id, tag, attrs, styles, _) =>
      e.tag == tag && e.attrs == attrs && e.styles == styles && e.bwId == Some(id)
  }

  function VKids(v: VNode): seq<VNode> {
    if v.VElem? then v.children else []
  }

  /** The client shows `v`: the registered node has its label, and its children show those of `v`, in order. */
  ghost predicate Shows(h: Heap, nodes: map<uint32, Ref>, v: VNode)
    decreases v
  {
    && v.id in nodes && nodes[v.id] in h
    && Labelled(h[nodes[v.id]], v)
    && h[nodes[v.id]].children == Refs(nodes, VKids(v))
    && (v.VElem? ==> ShowsAll(h, nodes, v.children, Some(nodes[v.id])))
  }

  /** The client shows every `v`, attached where `parent` says. */
  ghost predicate ShowsAll(h: Heap, nodes: map<uint32, Ref>, vs: seq<VNode>, parent: Option<Ref>)
    decreases vs
  {
    vs == [] ||
    (Shows(h, nodes, vs[0]) && h[nodes[vs[0].id]].parent == parent && ShowsAll(h, nodes, vs[1..], parent))
  }

  /** What is shown depends only on the nodes registered under the tree's own ids. */
  lemma {:induction false} ShowsKept(h: Heap, nodes: map<uint32, Ref>, h': Heap, nodes': map<uint32, Ref>, v: VNode)
    requires Shows(h, nodes, v)
    requires forall id | id in Ids(v) && id in nodes :: id in nodes' && nodes'[id] == nodes[id]
    requires forall id | id in Ids(v) && id in nodes && nodes[id] in h ::
               nodes[id] in h' && (h'[nodes[id]] == h[nodes[id]]
                                   || (id == v.id && h'[nodes[id]] == h[nodes[id]].(parent := h'[nodes[id]].parent)))
    requires Proper(v)
    ensures Shows(h', nodes', v)
    decreases v
  {
    assert v.id in Ids(v);
    if v.VElem? {
      ShowsAllKept(h, nodes, h', nodes', v.children, Some(nodes[v.id]));
    }
  }

  lemma {:induction false} ShowsAllKept(h: Heap, nodes: map<uint32, Ref>, h': Heap, nodes': map<uint32, Ref>,
                                        vs: seq<VNode>, parent: Option<Ref>)
    requires ShowsAll(h, nodes, vs, parent)
    requires forall id | id in IdsOf(vs) && id in nodes :: id in nodes' && nodes'[id] == nodes[id]
    requires forall id | id in IdsOf(vs) && id in nodes && nodes[id] in h ::
               nodes[id] in h' && h'[nodes[id]] == h[nodes[id]]
    requires ProperAll(vs)
    ensures ShowsAll(h', nodes', vs, parent) && Refs(nodes', vs) == Refs(nodes, vs)
    decreases vs
  {
    if vs != [] {
      assert vs[0].id in Ids(vs[0]);
      ShowsKept(h, nodes, h', nodes', vs[0]);
      ShowsAllKept(h, nodes, h', nodes', vs[1..], parent);
    }
  }

  // ------------------------------------------------------------------ building

  /** Where new nodes go: below a DOM node at once, or below a registered id when the batch ends. */
  datatype Spot = Below(ref: Ref) | Later(parent: uint32)

  function DeferAll(vs: seq<VNode>, parent: uint32): seq<Deferred> {
    if vs == [] then [] else [Deferred(vs[0].id, parent)] + DeferAll(vs[1..], parent)
  }

  /** Nothing that was there before changes, apart from the children of `ref` in `Below(ref)`. */
  ghost predicate Extends(c: Client, c': Client, at: Spot) {
    && c'.depth == c.depth && c'.existing == c.existing && c.next <= c'.next
    && (forall id | id in c.nodes :: id in c'.nodes && c'.nodes[id] == c.nodes[id])
    && (forall r | r in c.heap :: r in c'.heap && (at == Below(r) || c'.heap[r] == c.heap[r]))
  }

  /** The registry has gained the ids of `vs`, all for new DOM nodes. */
  ghost predicate Registers(c: Client, c': Client, vs: seq<VNode>) {
    && c'.nodes.Keys == c.nodes.Keys + IdsOf(vs)
    && (forall id | id in IdsOf(vs) && id in c'.nodes :: c.next <= c'.nodes[id])
  }

  /** `vs` stand where they were put, after what was there. */
  ghost predicate Placed(c: Client, c': Client, vs: seq<VNode>, at: Spot) {
    match at
    case Below(p) =>
      && p in c.heap && p in c'.heap
      && c'.heap[p] == c.heap[p].(children := c.heap[p].children + Refs(c'.nodes, vs))
      && c'.deferred == c.deferred
      && ShowsAll(c'.heap, c'.nodes, vs, Some(p))
    case Later(parent) =>
      && c'.deferred == c.deferred + DeferAll(vs, parent)
      && ShowsAll(c'.heap, c'.nodes, vs, None)
  }

  /** `c'` is `c` with the trees `vs` built at `at` and nothing else touched. */
  ghost predicate Built(c: Client, c': Client, vs: seq<VNode>, at: Spot) {
    Valid(c') && Extends(c, c', at) && Registers(c, c', vs) && Placed(c, c', vs, at)
  }

  lemma {:induction false} BuiltNone(c: Client, at: Spot)
    requires Valid(c) && (at.Below? ==> at.ref in c.heap)
    ensures Built(c, c, [], at)
  {
  }

  /** Registered trees sit in the heap. */
  lemma {:induction false} NodesBelowNext(c: Client)
    requires Valid(c)
    ensures forall id | id in c.nodes :: c.nodes[id] in c.heap && c.nodes[id] < c.next && c.nodes[id] != ROOT
    ensures forall r | r in c.heap :: r < c.next
    ensures ROOT in c.heap && ROOT < c.next
  {
  }

  /** A tree built earlier is not disturbed by building more beside it. */
  lemma {:induction false} ShownBeside(c: Client, c1: Client, c2: Client, vs: seq<VNode>, parent: Option<Ref>, at: Spot)
    requires Valid(c) && Valid(c1) && Extends(c1, c2, at) && Registers(c, c1, vs)
    requires ShowsAll(c1.heap, c1.nodes, vs, parent) && ProperAll(vs)
    requires at.Below? ==> at.ref in c.heap
    ensures ShowsAll(c2.heap, c2.nodes, vs, parent)
    ensures Refs(c2.nodes, vs) == Refs(c1.nodes, vs)
  {
    NodesBelowNext(c);
    NodesBelowNext(c1);
    hide Valid, ShowsAll;
    assert forall id | id in IdsOf(vs) && id in c1.nodes :: c.next <= c1.nodes[id];
    ShowsAllKept(c1.heap, c1.nodes, c2.heap, c2.nodes, vs, parent);
  }

  lemma {:induction false} ExtendsSeq(c: Client, c1: Client, c2: Client, at: Spot)
    requires Extends(c, c1, at) && Extends(c1, c2, at)
    ensures Extends(c, c2, at)
  {
  }

  lemma {:induction false} ConsFacts(v: VNode, rest: seq<VNode>)
    ensures IdsOf([v]) == Ids(v) && IdsOf([v] + rest) == Ids(v) + IdsOf(rest)
    ensures ([v] + rest)[1..] == rest
    ensures forall nodes: map<uint32, Ref> :: Refs(nodes, [v] + rest) == Refs(nodes, [v]) + Refs(nodes, rest)
    ensures forall p: uint32 :: DeferAll([v] + rest, p) == DeferAll([v], p) + DeferAll(rest, p)
  {
    assert ([v] + rest)[1..] == rest && [v][1..] == [];
  }

  lemma {:induction false} RegistersSeq(c: Client, c1: Client, c2: Client, v: VNode, rest: seq<VNode>, at: Spot)
    requires Registers(c, c1, [v]) && Registers(c1, c2, rest) && Extends(c, c1, at) && Extends(c1, c2, at)
    ensures Registers(c, c2, [v] + rest)
  {
    ConsFacts(v, rest);
    hide IdsOf, Ids;
    forall id | id in IdsOf([v] + rest) && id in c2.nodes ensures c.next <= c2.nodes[id] {
      assert id in IdsOf([v]) ==> id in c1.nodes;
    }
  }

  lemma {:induction false} PlacedSeq(c: Client, c1: Client, c2: Client, v: VNode, rest: seq<VNode>, at: Spot)
    requires Placed(c, c1, [v], at) && Placed(c1, c2, rest, at)
    requires ShowsAll(c2.heap, c2.nodes, [v], if at.Below? then Some(at.ref) else None)
    requires Refs(c2.nodes, [v]) == Refs(c1.nodes, [v])
    ensures Placed(c, c2, [v] + rest, at)
  {
    ConsFacts(v, rest);
    hide Shows, Refs, DeferAll;
  }

  lemma {:induction false} BuiltSeq(c: Client, c1: Client, c2: Client, v: VNode, rest: seq<VNode>, at: Spot)
    requires Valid(c) && Built(c, c1, [v], at) && Built(c1, c2, rest, at) && Proper(v)
    requires at.Below? ==> at.ref in c.heap
    ensures Built(c, c2, [v] + rest, at)
  {
    hide Valid, Extends, Registers, Shows, ShowsAll, Proper, Ids, IdsOf, Refs, DeferAll;
    ExtendsSeq(c, c1, c2, at);
    RegistersSeq(c, c1, c2, v, rest, at);
    assert ProperAll([v]) by { ProperOne(v); }
    assert ShowsAll(c1.heap, c1.nodes, [v], if at.Below? then Some(at.ref) else None);
    ShownBeside(c, c1, c2, [v], if at.Below? then Some(at.ref) else None, at);
    PlacedSeq(c, c1, c2, v, rest, at);
  }

  lemma {:induction false} ProperOne(v: VNode)
    requires Proper(v)
    ensures ProperAll([v])
  {
    assert [v][1..] == [];
  }

  /**
   Children built below a node created a moment ago turn the bare node into the
   whole tree.
   */
  lemma {:induction false} Graft(c: Client, c1: Client, c2: Client, v: VNode, at: Spot)
    requires v.VElem? && Proper(v) && Valid(c) && (at.Below? ==> at.ref in c.heap)
    requires Built(c, c1, [v.(children := [])], at)
    requires v.id in c1.nodes && Built(c1, c2, v.children, Below(c1.nodes[v.id]))
    ensures Built(c, c2, [v], at)
  {
    hide Valid, Extends, Registers, Placed;
    GraftExtends(c, c1, c2, v, at);
    GraftRegisters(c, c1, c2, v, at);
    GraftPlaced(c, c1, c2, v, at);
  }

  lemma {:induction false} GraftExtends(c: Client, c1: Client, c2: Client, v: VNode, at: Spot)
    requires v.VElem? && Valid(c) && Registers(c, c1, [v.(children := [])])
    requires Extends(c, c1, at) && v.id in c1.nodes && Extends(c1, c2, Below(c1.nodes[v.id]))
    ensures Extends(c, c2, at)
  {
    NodesBelowNext(c);
    assert v.id in IdsOf([v.(children := [])]);
  }

  lemma {:induction false} GraftRegisters(c: Client, c1: Client, c2: Client, v: VNode, at: Spot)
    requires v.VElem? && Registers(c, c1, [v.(children := [])]) && Registers(c1, c2, v.children)
    requires Extends(c, c1, at) && v.id in c1.nodes && Extends(c1, c2, Below(c1.nodes[v.id]))
    ensures Registers(c, c2, [v])
  {
    assert [v][1..] == [] && [v.(children := [])][1..] == [];
    assert IdsOf([v.(children := [])]) == {v.id};
    assert IdsOf([v]) == {v.id} + IdsOf(v.children);
  }

  lemma {:induction false} GraftPlaced(c: Client, c1: Client, c2: Client, v: VNode, at: Spot)
    requires v.VElem? && Placed(c, c1, [v.(children := [])], at) && v.id in c1.nodes
    requires Placed(c1, c2, v.children, Below(c1.nodes[v.id])) && Extends(c1, c2, Below(c1.nodes[v.id]))
    requires Valid(c) && Registers(c, c1, [v.(children := [])]) && (at.Below? ==> at.ref in c.heap)
    ensures Placed(c, c2, [v], at)
  {
    NodesBelowNext(c);
    hide Valid;
    var bare := v.(children := []);
    assert [v][1..] == [] && [bare][1..] == [];
    assert v.id in IdsOf([bare]);
    var r := c1.nodes[v.id];
    assert Shows(c1.heap, c1.nodes, bare) && VKids(bare) == [] && Refs(c1.nodes, []) == [];
    assert c2.heap[r].children == [] + Refs(c2.nodes, v.children);
    assert Shows(c2.heap, c2.nodes, v);
    assert Refs(c1.nodes, [bare]) == [r] == Refs(c2.nodes, [v]);
    assert DeferAll([bare], 0) == DeferAll([v], 0);
    match at
    case Below(p) =>
      assert p != r;
      assert c2.heap[p] == c1.heap[p];
      assert ShowsAll(c2.heap, c2.nodes, [v], Some(p));
    case Later(parent) =>
      assert DeferAll([bare], parent) == DeferAll([v], parent);
      assert ShowsAll(c2.heap, c2.nodes, [v], None);
  }

  // --------------------------------------------------- one node at a time

  /** A fresh node naming `parent` ends up at `at`. */
  ghost predicate Goes(c: Client, parent: uint32, at: Spot) {
    && c.depth > 0
    && match at
       case Below(p) =>
         && parent !in c.existing && p in c.heap
         && ((parent in c.nodes && c.nodes[parent] == p) || (parent !in c.nodes && parent == 0 && p == ROOT))
       case Later(q) => q == parent && parent in c.existing
  }

  lemma {:induction false} PlaceGoes(c: Client, id: uint32, e: Elem, parent: uint32, at: Spot)
    requires Valid(c) && Goes(c, parent, at) && id !in c.nodes && parent != id && e.parent.None?
    ensures var c1 := Create(c, id, e);
            Place(c1, id, c.next, parent, 0) ==
              match at
              case Below(p) =>
                c1.(heap := c1.heap[p := c.heap[p].(children := c.heap[p].children + [c.next])]
                                   [c.next := e.(parent := Some(p))])
              case Later(q) => c1.(deferred := c.deferred + [Deferred(id, parent)])
  {
    NodesBelowNext(c);
    hide Valid;
    var c1 := Create(c, id, e);
    if at.Below? {
      AppendLoose(c1.heap, at.ref, c.next);
    }
  }

  lemma {:induction false} PlaceValid(c: Client, id: uint32, e: Elem, parent: uint32, at: Spot)
    requires Valid(c) && Goes(c, parent, at) && id !in c.nodes && parent != id && e.parent.None? && e.children == []
    ensures Valid(Place(Create(c, id, e), id, c.next, parent, 0))
  {
    CreateValid(c, id, e);
    NodesBelowNext(c);
    hide Valid, Append;
    if at.Below? {
      AttachValid(Create(c, id, e), at.ref, c.next);
    }
  }

  /** A new node without children is built where its parent id says. */
  lemma {:induction false} NodeBuilt(c: Client, v: VNode, e: Elem, parent: uint32, at: Spot)
    requires Valid(c) && Goes(c, parent, at) && v.id !in c.nodes && parent != v.id && VKids(v) == []
    requires Labelled(e, v) && e.parent.None? && e.children == []
    ensures Built(c, Place(Create(c, v.id, e), v.id, c.next, parent, 0), [v], at)
  {
    hide Valid, Place, Labelled;
    NodesBelowNext(c);
    PlaceGoes(c, v.id, e, parent, at);
    PlaceValid(c, v.id, e, parent, at);
    var c' := Place(Create(c, v.id, e), v.id, c.next, parent, 0);
    assert [v][1..] == [] && IdsOf([v]) == Ids(v) == {v.id};
    assert c'.nodes == c.nodes[v.id := c.next];
    var parentRef := if at.Below? then Some(at.ref) else None;
    assert c'.heap[c.next] == e.(parent := parentRef);
    assert Labelled(e.(parent := parentRef), v) by { LabelIgnoresPlace(e, v); }
    assert Refs(c'.nodes, [v]) == [c.next];
    assert Shows(c'.heap, c'.nodes, v);
    ShowsOne(c'.heap, c'.nodes, v, parentRef);
    assert DeferAll([v], parent) == [Deferred(v.id, parent)];
  }

  lemma {:induction false} ShowsOne(h: Heap, nodes: map<uint32, Ref>, v: VNode, parent: Option<Ref>)
    ensures ShowsAll(h, nodes, [v], parent) <==>
              Shows(h, nodes, v) && v.id in nodes && nodes[v.id] in h && h[nodes[v.id]].parent == parent
  {
    assert [v][1..] == [];
  }

  lemma LabelIgnoresPlace(e: Elem, v: VNode)
    requires Labelled(e, v)
    ensures forall p :: Labelled(e.(parent := p), v)
  {
  }

  /** Changing the label of a bare node just built. */
  lemma {:induction false} RelabelBuilt(c: Client, c1: Client, v: VNode, v': VNode, at: Spot, e: Elem)
    requires Valid(c) && Built(c, c1, [v], at) && VKids(v) == [] && VKids(v') == [] && v'.id == v.id
    requires at.Below? ==> at.ref in c.heap
    requires v.id in c1.nodes && SameShape(At(c1.heap, c1.nodes[v.id]), e) && Labelled(e, v')
    ensures Built(c, c1.(heap := c1.heap[c1.nodes[v.id] := e]), [v'], at)
  {
    hide Valid, Extends, Registers, Placed;
    RelabelValid(c1, v.id, e);
    RelabelExtends(c, c1, v, v', at, e);
    RelabelPlaced(c, c1, v, v', at, e);
  }

  lemma {:induction false} RelabelValid(c: Client, id: uint32, e: Elem)
    requires Valid(c) && id in c.nodes && SameShape(At(c.heap, c.nodes[id]), e)
    ensures Valid(c.(heap := c.heap[c.nodes[id] := e]))
  {
    AlterForest(c.heap, c.nodes[id], e);
  }

  lemma {:induction false} RelabelExtends(c: Client, c1: Client, v: VNode, v': VNode, at: Spot, e: Elem)
    requires Valid(c) && Extends(c, c1, at) && Registers(c, c1, [v]) && v.id in c1.nodes
    requires VKids(v) == [] && VKids(v') == [] && v'.id == v.id
    ensures var c' := c1.(heap := c1.heap[c1.nodes[v.id] := e]); Extends(c, c', at) && Registers(c, c', [v'])
  {
    NodesBelowNext(c);
    hide Valid;
    assert [v][1..] == [] && [v'][1..] == [];
    assert IdsOf([]) == {} && Ids(v) == {v.id} && Ids(v') == {v.id};
    assert IdsOf([v]) == {v.id} == IdsOf([v']);
    hide IdsOf, Ids, VKids;
    RelabelAlone(c, c1, v.id, at, e);
  }

  lemma {:induction false} RelabelAlone(c: Client, c1: Client, id: uint32, at: Spot, e: Elem)
    requires Extends(c, c1, at) && id in c1.nodes && c.next <= c1.nodes[id] && forall r | r in c.heap :: r < c.next
    ensures Extends(c, c1.(heap := c1.heap[c1.nodes[id] := e]), at)
  {
  }

  lemma {:induction false} RelabelPlaced(c: Client, c1: Client, v: VNode, v': VNode, at: Spot, e: Elem)
    requires Valid(c) && Placed(c, c1, [v], at) && Registers(c, c1, [v]) && v.id in c1.nodes
    requires at.Below? ==> at.ref in c.heap
    requires VKids(v) == [] && VKids(v') == [] && v'.id == v.id
    requires SameShape(At(c1.heap, c1.nodes[v.id]), e) && Labelled(e, v')
    ensures Placed(c, c1.(heap := c1.heap[c1.nodes[v.id] := e]), [v'], at)
  {
    NodesBelowNext(c);
    hide Valid, Labelled;
    var r := c1.nodes[v.id];
    var c' := c1.(heap := c1.heap[r := e]);
    assert [v][1..] == [] && [v'][1..] == [];
    assert IdsOf([v]) == {v.id};
    assert v.id in IdsOf([v]);
    assert Refs(c'.nodes, [v']) == [r] == Refs(c1.nodes, [v]);
    var parentRef := if at.Below? then Some(at.ref) else None;
    assert Shows(c1.heap, c1.nodes, v) && c1.heap[r].parent == parentRef;
    assert Shows(c'.heap, c'.nodes, v');
    ShowsOne(c'.heap, c'.nodes, v', parentRef);
    assert at.Later? ==> DeferAll([v'], at.parent) == DeferAll([v], at.parent);
  }
}
