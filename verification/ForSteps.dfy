/**
 One queued operation at a time: the client's page follows the abstract line.
 */
module ForSteps {
  import opened Seqs
  import opened Wire
  import opened Dom
  import opened Client
  import opened Trees
  import opened Emission
  import opened Swaps
  import opened Reconcile
  import opened ForClient

  // --------------------------------------------------- what a tree reaches

  /** The children of a tree's DOM nodes are the tree's, and each carries its own id or none. */
  lemma {:induction false} TreeKids(h: Heap, nodes: map<uint32, Ref>, v: VNode, id: uint32)
    requires Shows(h, nodes, v) && id in Ids(v)
    ensures id in nodes && nodes[id] in h && (h[nodes[id]].bwId.None? || h[nodes[id]].bwId == Some(id))
    ensures forall x | x in h[nodes[id]].children :: exists i :: i in Ids(v) && i in nodes && nodes[i] == x
    decreases v
  {
    if id == v.id {
      forall x | x in h[nodes[id]].children ensures exists i :: i in Ids(v) && i in nodes && nodes[i] == x {
        RootKid(h, nodes, v, x);
      }
    } else {
      ForestKids(h, nodes, v.children, Some(nodes[v.id]), id);
    }
  }

  lemma {:induction false} RootKid(h: Heap, nodes: map<uint32, Ref>, v: VNode, x: Ref)
    requires Shows(h, nodes, v) && x in h[nodes[v.id]].children
    ensures exists i :: i in Ids(v) && i in nodes && nodes[i] == x
  {
    var cs := Refs(nodes, VKids(v));
    var k := IndexOf(cs, x);
    var kid := VKids(v)[k];
    KidShown(h, nodes, v.children, Some(nodes[v.id]), kid);
    assert kid.id in nodes && nodes[kid.id] == x;
  }

  lemma {:induction false} KidShown(h: Heap, nodes: map<uint32, Ref>, vs: seq<VNode>, parent: Option<Ref>, v: VNode)
    requires ShowsAll(h, nodes, vs, parent) && v in vs
    ensures Shows(h, nodes, v) && v.id in IdsOf(vs) && At(h, RefOf(nodes, v.id)).parent == parent
    decreases vs
  {
    if vs[0] != v {
      KidShown(h, nodes, vs[1..], parent, v);
    } else {
      assert v.id in Ids(v);
    }
  }

  lemma {:induction false} ForestKids(h: Heap, nodes: map<uint32, Ref>, vs: seq<VNode>, parent: Option<Ref>, id: uint32)
    requires ShowsAll(h, nodes, vs, parent) && id in IdsOf(vs)
    ensures id in nodes && nodes[id] in h && (h[nodes[id]].bwId.None? || h[nodes[id]].bwId == Some(id))
    ensures forall x | x in h[nodes[id]].children :: exists i :: i in IdsOf(vs) && i in nodes && nodes[i] == x
    decreases vs
  {
    if id in Ids(vs[0]) {
      TreeKids(h, nodes, vs[0], id);
    } else {
      ForestKids(h, nodes, vs[1..], parent, id);
    }
  }

  /** A set of registered nodes closed under children bounds what a cleanup drops. */
  lemma {:induction false} BelowWithin(c: Client, r: Ref, ids: set<uint32>)
    requires forall x | x in Kids(c.heap, r) :: exists i :: i in ids && i in c.nodes && c.nodes[i] == x
    requires forall id | id in ids && id in c.nodes ::
               (forall x | x in Kids(c.heap, c.nodes[id]) :: exists i :: i in ids && i in c.nodes && c.nodes[i] == x)
               && (At(c.heap, c.nodes[id]).bwId.None? || At(c.heap, c.nodes[id]).bwId == Some(id))
    ensures IdsBelow(c.heap, r) <= ids
  {
    var t := Nodes(c, ids);
    hide Closure;
    ClosureLeast(c.heap, {r}, t + {r});
  }

  /** A cleanup below the root of a shown tree drops ids of that tree only. */
  lemma {:induction false} BelowTree(c: Client, v: VNode)
    requires Shows(c.heap, c.nodes, v)
    ensures IdsBelow(c.heap, c.nodes[v.id]) <= Ids(v)
  {
    assert v.id in Ids(v);
    forall id | id in Ids(v)
      ensures id in c.nodes && c.nodes[id] in c.heap
      ensures c.heap[c.nodes[id]].bwId.None? || c.heap[c.nodes[id]].bwId == Some(id)
      ensures forall x | x in c.heap[c.nodes[id]].children :: exists i :: i in Ids(v) && i in c.nodes && c.nodes[i] == x
    {
      TreeKids(c.heap, c.nodes, v, id);
    }
    hide Shows, IdsBelow;
    BelowWithin(c, c.nodes[v.id], Ids(v));
  }

  // --------------------------------------------------- the container reordered

  lemma {:induction false} ShownReseated(c: Client, s: Setting, cs: seq<Ref>, v: VNode, parent: Option<Ref>)
    requires Holder(c, s) && Fair(s) && v in s.all && ShownAt(c, Look(s, v), parent)
    ensures ShownAt(Reseat(c, s.ref, cs), Look(s, v), parent)
  {
    NotHolder(c, s, v);
    MemberOf(s.all, v);
    LookProper(s, v);
    hide Valid, ShownAt, ProperAll, Proper, Look;
    var c' := Reseat(c, s.ref, cs);
    forall id | id in Ids(Look(s, v)) && id in c.nodes ensures c.nodes[id] != s.ref {
      assert c.nodes[id] in Nodes(c, Ids(v));
    }
    Undisturbed(c, c', Look(s, v), parent);
  }

  /** The children of the container in another order, and nothing else. */
  lemma {:induction false} Reseated(c: Client, s: Setting, l: Line, live: seq<VNode>)
    requires InLine(c, s, l) && Fair(s)
    requires Distinct(live) && forall v :: v in live <==> v in l.live
    ensures InLine(Reseat(c, s.ref, Refs(c.nodes, live)), s, l.(live := live))
    ensures Elsewhere(c, Reseat(c, s.ref, Refs(c.nodes, live)), s)
  {
    hide Holder, Fair, Elsewhere, Unsent, Row, PutOff, Refs, Reseat;
    ReseatedHolder(c, s, l, live);
    ReseatedRow(c, s, l, live);
    ReseatedRest(c, s, l, live, Refs(c.nodes, live));
    SameMembers(l, live);
  }

  lemma {:induction false} ReseatedRow(c: Client, s: Setting, l: Line, live: seq<VNode>)
    requires Holder(c, s) && Fair(s) && Row(c, s, l.live) && Members(s, l) && forall v :: v in live <==> v in l.live
    ensures Row(Reseat(c, s.ref, Refs(c.nodes, live)), s, live)
  {
    hide Holder, Fair, ShownAt, Look, Refs, Distinct;
    var cs := Refs(c.nodes, live);
    forall v | v in live ensures ShownAt(Reseat(c, s.ref, cs), Look(s, v), Some(s.ref)) {
      ShownReseated(c, s, cs, v, Some(s.ref));
    }
  }

  lemma {:induction false} ReseatedRest(c: Client, s: Setting, l: Line, live: seq<VNode>, cs: seq<Ref>)
    requires Holder(c, s) && Fair(s) && PutOff(c, s, l.waiting) && Unsent(c, s, l) && Members(s, l)
    requires forall v :: v in live <==> v in l.live
    ensures var c' := Reseat(c, s.ref, cs);
            PutOff(c', s, l.waiting) && Unsent(c', s, l.(live := live)) && Elsewhere(c, c', s)
  {
    hide Holder, Fair, ShownAt, Look, Distinct;
    forall v | v in l.waiting ensures ShownAt(Reseat(c, s.ref, cs), Look(s, v), None) {
      ShownReseated(c, s, cs, v, None);
    }
  }

  lemma {:induction false} SameMembers(l: Line, live: seq<VNode>)
    requires Distinct(l.live + l.waiting) && Distinct(live) && forall v :: v in live <==> v in l.live
    ensures Distinct(live + l.waiting)
  {
    var old_, new_ := l.live + l.waiting, live + l.waiting;
    forall i, j | 0 <= i < j < |new_| ensures new_[i] != new_[j] {
      if i < |live| <= j {
        var k := IndexOf(l.live, live[i]);
        assert old_[k] == live[i] && old_[|l.live| + (j - |live|)] == new_[j];
      } else if |live| <= i {
        assert old_[|l.live| + (i - |live|)] == new_[i] && old_[|l.live| + (j - |live|)] == new_[j];
      }
    }
  }

  lemma {:induction false} ReseatedHolder(c: Client, s: Setting, l: Line, live: seq<VNode>)
    requires Holder(c, s) && Row(c, s, l.live) && Members(s, l) && Fair(s)
    requires Distinct(live) && forall v :: v in live <==> v in l.live
    ensures Holder(Reseat(c, s.ref, Refs(c.nodes, live)), s)
  {
    assert Kids(c.heap, s.ref) == Refs(c.nodes, l.live);
    hide Holder, Row, Members, Fair, Refs, Distinct, Reseat;
    RowDistinct(c, s, l, live);
    RefsMembers(c.nodes, live, l.live);
    ReseatHolder(c, s, Refs(c.nodes, live));
  }

  lemma {:induction false} ReseatHolder(c: Client, s: Setting, cs: seq<Ref>)
    requires Holder(c, s) && Distinct(cs) && forall x :: x in cs <==> x in Kids(c.heap, s.ref)
    ensures Holder(Reseat(c, s.ref, cs), s)
  {
    hide Forest, Distinct;
    HolderFacts(c, s);
    ReorderForest(c.heap, s.ref, cs);
  }

  lemma {:induction false} RefsMembers(nodes: map<uint32, Ref>, vs: seq<VNode>, ws: seq<VNode>)
    requires forall v :: v in vs <==> v in ws
    ensures forall r :: r in Refs(nodes, vs) <==> r in Refs(nodes, ws)
  {
    RefsWithin(nodes, vs, ws);
    RefsWithin(nodes, ws, vs);
  }

  lemma {:induction false} RefsWithin(nodes: map<uint32, Ref>, vs: seq<VNode>, ws: seq<VNode>)
    requires forall v | v in vs :: v in ws
    ensures forall r | r in Refs(nodes, vs) :: r in Refs(nodes, ws)
  {
    forall r | r in Refs(nodes, vs) ensures r in Refs(nodes, ws) {
      var i := IndexOf(Refs(nodes, vs), r);
      assert vs[i] in ws;
      var j := IndexOf(ws, vs[i]);
      assert Refs(nodes, ws)[j] == r;
    }
  }

  lemma {:induction false} RowDistinct(c: Client, s: Setting, l: Line, live: seq<VNode>)
    requires Holder(c, s) && Row(c, s, l.live) && Members(s, l) && Fair(s)
    requires Distinct(live) && forall v | v in live :: v in l.live
    ensures Distinct(Refs(c.nodes, live))
  {
    forall i, j | 0 <= i < j < |live| ensures Refs(c.nodes, live)[i] != Refs(c.nodes, live)[j] {
      assert live[i] in l.live && live[j] in l.live;
      LiveApart(c, s, l, live[i], live[j]);
    }
  }

  lemma {:induction false} LiveApart(c: Client, s: Setting, l: Line, v: VNode, w: VNode)
    requires Holder(c, s) && Row(c, s, l.live) && Members(s, l) && Fair(s)
    requires v in l.live && w in l.live && v != w
    ensures RefOf(c.nodes, v.id) != RefOf(c.nodes, w.id)
  {
    hide Holder, Fair;
    LiveKnown(c, s, l, v);
    LiveKnown(c, s, l, w);
    ApartRefs(c, s, v, w);
  }

  /** What the page has for a child of the container. */
  lemma {:induction false} LiveKnown(c: Client, s: Setting, l: Line, v: VNode)
    requires Row(c, s, l.live) && v in l.live
    ensures v.id in c.nodes && c.nodes[v.id] in c.heap && c.heap[c.nodes[v.id]].parent == Some(s.ref)
    ensures ShownAt(c, Look(s, v), Some(s.ref)) && c.nodes[v.id] in Kids(c.heap, s.ref)
  {
    hide Look;
    assert ShownAt(c, Look(s, v), Some(s.ref));
    var i := IndexOf(l.live, v);
    assert Refs(c.nodes, l.live)[i] == c.nodes[v.id];
  }

  lemma {:induction false} HolderFacts(c: Client, s: Setting)
    requires Holder(c, s)
    ensures Forest(c.heap) && s.ref in c.heap && s.ref != ROOT && c.next !in c.heap && c.depth > 0
    ensures s.container in c.nodes && c.nodes[s.container] == s.ref && s.container in c.existing
  {
  }

  /** The container is not among its children. */
  lemma {:induction false} LiveNotHolder(c: Client, s: Setting, l: Line, v: VNode)
    requires InLine(c, s, l) && Fair(s) && v in l.live
    ensures RefOf(c.nodes, v.id) != s.ref && v.id in c.nodes && c.nodes[v.id] in c.heap
  {
    NotHolder(c, s, v);
    MemberOf(s.all, v);
    hide Holder, Fair, PutOff, Unsent;
    LiveKnown(c, s, l, v);
    assert c.nodes[v.id] in Nodes(c, Ids(v));
  }

  /** A move takes the node to the end. */
  lemma {:induction false} MoveStep(c: Client, s: Setting, l: Line, x: VNode, tag: Str, attrs: seq<(Str, Str)>)
    requires InLine(c, s, l) && Fair(s) && x in l.live
    ensures var c' := Apply(c, InsertNode(x.id, s.container, 0, tag, attrs));
            InLine(c', s, Step(l, Op.Move(x))) && Elsewhere(c, c', s)
  {
    hide InLine, Fair, Elsewhere, Apply, Reseat, Refs, Without;
    LineDistinct(c, s, l);
    LastMembers(l, x);
    Reseated(c, s, l, Without(l.live, x) + [x]);
    MovedRefs(c, s, l, x, tag, attrs);
  }

  lemma {:induction false} MovedRefs(c: Client, s: Setting, l: Line, x: VNode, tag: Str, attrs: seq<(Str, Str)>)
    requires InLine(c, s, l) && Fair(s) && x in l.live
    ensures Apply(c, InsertNode(x.id, s.container, 0, tag, attrs))
            == Reseat(c, s.ref, Refs(c.nodes, Without(l.live, x) + [x]))
  {
    hide Fair, Apply, Reseat, Without, Refs, Holder, PutOff, Unsent, Members, ShownAt;
    HolderFacts(c, s);
    LiveNotHolder(c, s, l, x);
    LiveKnown(c, s, l, x);
    forall v | v in l.live && v != x ensures RefOf(c.nodes, v.id) != RefOf(c.nodes, x.id) {
      LiveApart(c, s, l, v, x);
    }
    RefsWithout(c.nodes, l.live, x);
    RefsAppend(c.nodes, Without(l.live, x), [x]);
    assert Refs(c.nodes, [x]) == [c.nodes[x.id]];
    MoveAmong(c, s.container, x.id, s.ref);
  }

  lemma {:induction false} LineDistinct(c: Client, s: Setting, l: Line)
    requires InLine(c, s, l)
    ensures Distinct(l.live + l.waiting)
  {
  }

  lemma {:induction false} LastMembers(l: Line, x: VNode)
    requires Distinct(l.live + l.waiting) && x in l.live
    ensures Distinct(Without(l.live, x) + [x]) && forall v :: v in Without(l.live, x) + [x] <==> v in l.live
  {
    LiveDistinct(l);
    WithoutDistinct(l.live, x);
  }

  lemma {:induction false} LiveDistinct(l: Line)
    requires Distinct(l.live + l.waiting)
    ensures Distinct(l.live) && Distinct(l.waiting) && forall v | v in l.live :: v !in l.waiting
  {
    var s := l.live + l.waiting;
    assert forall i | 0 <= i < |l.live| :: s[i] == l.live[i];
    assert forall i | 0 <= i < |l.waiting| :: s[|l.live| + i] == l.waiting[i];
  }

  /** A swap exchanges the two nodes. */
  lemma {:induction false} SwapStep(c: Client, s: Setting, l: Line, a: VNode, b: VNode)
    requires InLine(c, s, l) && Fair(s) && a in l.live && b in l.live && a != b
    ensures var c' := Apply(c, SwapNodes(a.id, b.id));
            InLine(c', s, Step(l, Op.Swap(a, b))) && Elsewhere(c, c', s)
  {
    hide InLine, Fair, Elsewhere, Apply, Reseat, Refs, Exchange;
    LineDistinct(c, s, l);
    LiveDistinct(l);
    ExchangeDistinct(l.live, a, b);
    Reseated(c, s, l, Exchange(l.live, a, b));
    SwappedRefs(c, s, l, a, b);
  }

  lemma {:induction false} SwappedRefs(c: Client, s: Setting, l: Line, a: VNode, b: VNode)
    requires InLine(c, s, l) && Fair(s) && a in l.live && b in l.live && a != b
    ensures Apply(c, SwapNodes(a.id, b.id)) == Reseat(c, s.ref, Refs(c.nodes, Exchange(l.live, a, b)))
  {
    hide Fair, Refs, Holder, PutOff, Unsent, Members, ShownAt, Exchange, SwapRefs, Forest;
    HolderFacts(c, s);
    LiveNotHolder(c, s, l, a);
    LiveNotHolder(c, s, l, b);
    LiveKnown(c, s, l, a);
    LiveKnown(c, s, l, b);
    LiveApart(c, s, l, a, b);
    forall v | v in l.live && v != a ensures RefOf(c.nodes, v.id) != RefOf(c.nodes, a.id) {
      LiveApart(c, s, l, v, a);
    }
    forall v | v in l.live && v != b ensures RefOf(c.nodes, v.id) != RefOf(c.nodes, b.id) {
      LiveApart(c, s, l, v, b);
    }
    RefsExchange(c.nodes, l.live, a, b);
    SwapExchanges(c.heap, s.ref, c.nodes[a.id], c.nodes[b.id]);
  }
}
