/**
 A page shows at most one tree under an id: what the client shows can be read off
 its nodes.
 */
module Seen {
  import opened Seqs
  import opened Wire
  import opened Dom
  import opened Client
  import opened Trees
  import opened Emission

  lemma {:induction false} ShowsUnique(c: Client, v: VNode, w: VNode)
    requires Valid(c) && Shows(c.heap, c.nodes, v) && Shows(c.heap, c.nodes, w) && v.id == w.id
    ensures v == w
    decreases v
  {
    if v.VElem? {
      assert w.VElem?;
      ShowsAllUnique(c, v.children, w.children, Some(c.nodes[v.id]));
    } else {
      assert w.VText?;
    }
  }

  lemma {:induction false} ShowsAllUnique(c: Client, vs: seq<VNode>, ws: seq<VNode>, parent: Option<Ref>)
    requires Valid(c) && ShowsAll(c.heap, c.nodes, vs, parent) && ShowsAll(c.heap, c.nodes, ws, parent)
    requires Refs(c.nodes, vs) == Refs(c.nodes, ws)
    ensures vs == ws
    decreases vs
  {
    assert |vs| == |Refs(c.nodes, vs)| == |ws|;
    if vs != [] {
      assert Refs(c.nodes, vs)[0] == Refs(c.nodes, ws)[0];
      assert Refs(c.nodes, vs)[1..] == Refs(c.nodes, vs[1..]) && Refs(c.nodes, ws)[1..] == Refs(c.nodes, ws[1..]);
      SameId(c, vs[0].id, ws[0].id);
      hide Valid;
      ShowsUnique(c, vs[0], ws[0]);
      ShowsAllUnique(c, vs[1..], ws[1..], parent);
      assert vs == [vs[0]] + vs[1..] && ws == [ws[0]] + ws[1..];
    }
  }

  lemma SameId(c: Client, i: uint32, j: uint32)
    requires Valid(c) && i in c.nodes && j in c.nodes && c.nodes[i] == c.nodes[j]
    ensures i == j
  {
  }
}
