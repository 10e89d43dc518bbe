module DirtyMount {
  // A freshly mounted page is tracked, so every run may start from a mount.

  import opened Seqs
  import opened Wire
  import opened Dom
  import opened Client
  import opened Trees
  import opened Emission
  import opened Dirty
  import opened DirtyRuns
  import opened Mount

  /** findNode: depth-first search for an id. */
  function Find(v: VNode, id: uint32): (r: Option<VNode>)
    ensures r.Some? <==> id in Ids(v)
    ensures r.Some? ==> r.value.id == id
    decreases v
  {
    if v.id == id then Some(v)
    else if v.VElem? then FindAmong(v.children, id)
    else None
  }

  function FindAmong(vs: seq<VNode>, id: uint32): (r: Option<VNode>)
    ensures r.Some? <==> id in IdsOf(vs)
    ensures r.Some? ==> r.value.id == id
    decreases vs
  {
    if vs == [] then None
    else
      var found := Find(vs[0], id);
      if found.Some? then found else FindAmong(vs[1..], id)
  }

  /** A node as it is created. */
  function Unmarked(v: VNode): Mark {
    match v
    case VText(_, text) => Mark(true, text, map[], map[], false, false, map[], map[])
    case VElem(_, _, attrs, styles, _) => Mark(false, [], attrs, styles, false, false, map[], map[])
  }

  function Marks(v: VNode): map<uint32, Mark> {
    map id | id in Ids(v) :: Unmarked(Find(v, id).value)
  }

  lemma {:induction false} EmptyIsAbsent(m: map<Str, Str>)
    ensures forall k :: Get(NonEmpty(m), k) == Get(m, k)
  {
  }

  lemma {:induction false} LabelFollows(e: Elem, v: VNode)
    requires Labelled(e, Mounted(v)) && Proper(v)
    ensures Coherent(Unmarked(v)) && Follows(e, Unmarked(v))
  {
    if v.VElem? {
      EmptyIsAbsent(v.styles);
    }
    hide MountedAll;
  }

  lemma {:induction false} ShownFollows(h: Heap, nodes: map<uint32, Ref>, v: VNode, id: uint32)
    requires Shows(h, nodes, Mounted(v)) && Proper(v) && id in Ids(v)
    ensures id in nodes && nodes[id] in h && Follows(h[nodes[id]], Unmarked(Find(v, id).value))
    ensures Coherent(Unmarked(Find(v, id).value))
    decreases v
  {
    if id == v.id {
      LabelFollows(h[nodes[id]], v);
    } else {
      ShownAmongFollows(h, nodes, v.children, Some(nodes[v.id]), id);
    }
  }

  lemma {:induction false} ShownAmongFollows(h: Heap, nodes: map<uint32, Ref>, vs: seq<VNode>, parent: Option<Ref>,
                                             id: uint32)
    requires ShowsAll(h, nodes, MountedAll(vs), parent) && ProperAll(vs) && id in IdsOf(vs)
    ensures id in nodes && nodes[id] in h && Follows(h[nodes[id]], Unmarked(FindAmong(vs, id).value))
    ensures Coherent(Unmarked(FindAmong(vs, id).value))
    decreases vs
  {
    assert MountedAll(vs)[1..] == MountedAll(vs[1..]);
    if id in Ids(vs[0]) {
      ShownFollows(h, nodes, vs[0], id);
    } else {
      ShownAmongFollows(h, nodes, vs[1..], parent, id);
    }
  }

  /** A client that shows a mounted tree tracks all its nodes. */
  lemma {:induction false} MountTracks(c: Client, v: VNode)
    requires Valid(c) && c.depth == 0 && Shows(c.heap, c.nodes, Mounted(v)) && Proper(v)
    ensures Tracks(c, Marks(v))
  {
    hide Valid, Follows, Coherent;
    forall id | id in Marks(v)
      ensures id in c.nodes && Coherent(Marks(v)[id]) && Follows(ElemOf(c, id), Marks(v)[id])
    {
      ShownFollows(c.heap, c.nodes, v, id);
    }
  }
}
