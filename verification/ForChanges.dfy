/**
 Queued operations that take nodes away or add them.
 */
module ForChanges {
  import opened Seqs
  import opened Wire
  import opened Dom
  import opened Client
  import opened Trees
  import opened Emission
  import opened Reconcile
  import opened ForClient
  import opened ForSteps

  // ------------------------------------------------------------------ removal

  /** What a removal leaves: the tree's ids may be forgotten, only its root and the container change. */
  ghost predicate TakenOut(c: Client, c': Client, s: Setting, vs: seq<VNode>) {
    && c' == c.(heap := c'.heap, nodes := c'.nodes)
    && (forall id | id in c'.nodes :: id in c.nodes && c'.nodes[id] == c.nodes[id])
    && (forall id | id in c.nodes && id !in IdsOf(vs) :: id in c'.nodes)
    && c'.heap.Keys == c.heap.Keys
    && (forall r | r in c.heap && r != s.ref && r !in Nodes(c, IdsOf(vs)) :: c'.heap[r] == c.heap[r])
    && Forest(c'.heap)
  }

  /** The other trees of the update stay as they were. */
  lemma {:induction false} OthersStay(c: Client, c': Client, s: Setting, vs: seq<VNode>, w: VNode, parent: Option<Ref>)
    requires Holder(c, s) && Fair(s) && TakenOut(c, c', s, vs)
    requires (forall v | v in vs :: v in s.all) && w in s.all && w !in vs && ShownAt(c, Look(s, w), parent)
    ensures ShownAt(c', Look(s, w), parent) && RefOf(c'.nodes, w.id) == RefOf(c.nodes, w.id)
  {
    MemberOf(s.all, w);
    LookProper(s, w);
    NotHolder(c, s, w);
    forall id | id in Ids(w) ensures id !in IdsOf(vs) {
      if id in IdsOf(vs) {
        var v := IdsOfMember(vs, id);
        Disjoint(s.all, v, w);
      }
    }
    hide Fair, ShownAt, Look, Proper, ProperAll;
    HolderInjective(c, s);
    forall id | id in Ids(w) && id in c.nodes ensures c.nodes[id] != s.ref && c.nodes[id] !in Nodes(c, IdsOf(vs)) {
      assert c.nodes[id] in Nodes(c, Ids(w));
    }
    Undisturbed(c, c', Look(s, w), parent);
  }

  lemma {:induction false} HolderInjective(c: Client, s: Setting)
    requires Holder(c, s)
    ensures forall i, j | i in c.nodes && j in c.nodes && c.nodes[i] == c.nodes[j] :: i == j
    ensures forall i | i in c.nodes :: c.nodes[i] in c.heap && c.nodes[i] < c.next
  {
  }

  /** Taking out some children leaves the others in line. */
  lemma {:induction false} TakenOutStep(c: Client, c': Client, s: Setting, l: Line, vs: seq<VNode>, live: seq<VNode>)
    requires InLine(c, s, l) && Fair(s) && TakenOut(c, c', s, vs)
    requires forall v | v in vs :: v in l.live && v in s.had
    requires forall v :: v in live <==> v in l.live && v !in vs
    requires Distinct(live) && Kids(c'.heap, s.ref) == Refs(c.nodes, live)
    ensures InLine(c', s, l.(live := live)) && Elsewhere(c, c', s)
  {
    hide Fair, TakenOut, Elsewhere, Distinct, Refs, Row, PutOff, Holder, Unsent;
    TakenOutHolder(c, c', s, vs);
    TakenOutElsewhere(c, c', s, vs);
    TakenOutUnsent(c, c', s, l, vs, live);
    FewerMembers(l, live);
    TakenOutRow(c, c', s, l, vs, live);
    TakenOutPutOff(c, c', s, l, vs);
  }

  lemma {:induction false} TakenOutRow(c: Client, c': Client, s: Setting, l: Line, vs: seq<VNode>, live: seq<VNode>)
    requires Holder(c, s) && Row(c, s, l.live) && Members(s, l) && Fair(s) && TakenOut(c, c', s, vs)
    requires forall v | v in vs :: v in l.live
    requires forall v :: v in live <==> v in l.live && v !in vs
    requires Kids(c'.heap, s.ref) == Refs(c.nodes, live)
    ensures Row(c', s, live)
  {
    hide Holder, Fair, TakenOut, ShownAt, Distinct;
    forall v | v in live ensures ShownAt(c', Look(s, v), Some(s.ref)) && RefOf(c'.nodes, v.id) == RefOf(c.nodes, v.id) {
      OthersStay(c, c', s, vs, v, Some(s.ref));
    }
    RefsSame(c.nodes, c'.nodes, live);
  }

  lemma {:induction false} TakenOutPutOff(c: Client, c': Client, s: Setting, l: Line, vs: seq<VNode>)
    requires Holder(c, s) && PutOff(c, s, l.waiting) && Members(s, l) && Fair(s) && TakenOut(c, c', s, vs)
    requires forall v | v in vs :: v in l.live
    ensures PutOff(c', s, l.waiting)
  {
    LiveDistinct(l);
    hide Holder, Fair, TakenOut, ShownAt, Distinct;
    forall v | v in l.waiting ensures ShownAt(c', Look(s, v), None) {
      OthersStay(c, c', s, vs, v, None);
    }
    TakenOutDeferred(c, c', s, vs);
  }

  lemma {:induction false} TakenOutDeferred(c: Client, c': Client, s: Setting, vs: seq<VNode>)
    requires TakenOut(c, c', s, vs)
    ensures c'.deferred == c.deferred
  {
  }

  lemma {:induction false} TakenOutHolder(c: Client, c': Client, s: Setting, vs: seq<VNode>)
    requires Holder(c, s) && Fair(s) && TakenOut(c, c', s, vs) && forall v | v in vs :: v in s.all
    ensures Holder(c', s)
  {
    if s.container in IdsOf(vs) {
      var v := IdsOfMember(vs, s.container);
      NotHolder(c, s, v);
    }
    hide Forest, NodeOk, Fair;
  }

  lemma {:induction false} IdsWithin(s: Setting, vs: seq<VNode>)
    requires Fair(s) && forall v | v in vs :: v in s.all
    ensures IdsOf(vs) <= IdsOf(s.all)
  {
    forall id | id in IdsOf(vs) ensures id in IdsOf(s.all) {
      var v := IdsOfMember(vs, id);
      MemberOf(s.all, v);
    }
  }

  lemma {:induction false} TakenOutElsewhere(c: Client, c': Client, s: Setting, vs: seq<VNode>)
    requires Fair(s) && TakenOut(c, c', s, vs) && forall v | v in vs :: v in s.all
    ensures Elsewhere(c, c', s)
  {
    IdsWithin(s, vs);
    hide Forest, Fair;
  }

  lemma {:induction false} TakenOutUnsent(c: Client, c': Client, s: Setting, l: Line, vs: seq<VNode>, live: seq<VNode>)
    requires Unsent(c, s, l) && TakenOut(c, c', s, vs)
    requires forall v | v in vs :: v in s.had
    requires forall v :: v in live <==> v in l.live && v !in vs
    ensures Unsent(c', s, l.(live := live))
  {
    hide Forest;
  }

  lemma {:induction false} FewerMembers(l: Line, live: seq<VNode>)
    requires Distinct(l.live + l.waiting) && Distinct(live) && forall v | v in live :: v in l.live
    ensures Distinct(live + l.waiting)
  {
    LiveDistinct(l);
    var new_ := live + l.waiting;
    forall i, j | 0 <= i < j < |new_| ensures new_[i] != new_[j] {
      if i < |live| <= j {
        assert new_[i] in l.live && new_[j] == l.waiting[j - |live|];
      }
    }
  }

  lemma {:induction false} RemoveTakesOut(c: Client, s: Setting, l: Line, x: VNode)
    requires InLine(c, s, l) && Fair(s) && x in l.live
    ensures var c' := Apply(c, RemoveNode(x.id));
            TakenOut(c, c', s, [x]) && Kids(c'.heap, s.ref) == Refs(c.nodes, Without(l.live, x))
  {
    hide Fair, Holder, PutOff, Unsent, Members, ShownAt, Without, Refs, Forest, Closure;
    HolderFacts(c, s);
    LiveNotHolder(c, s, l, x);
    LiveKnown(c, s, l, x);
    LiveNotRoot(c, s, x);
    forall v | v in l.live && v != x ensures RefOf(c.nodes, v.id) != RefOf(c.nodes, x.id) {
      LiveApart(c, s, l, v, x);
    }
    RefsWithout(c.nodes, l.live, x);
    assert Shows(c.heap, c.nodes, Look(s, x)) by { ShownShows(c, Look(s, x), Some(s.ref)); }
    hide Shows, Look;
    BelowTree(c, Look(s, x));
    assert [x][1..] == [] && IdsOf([x]) == Ids(x);
    DetachForest(c.heap, c.nodes[x.id]);
    assert x.id in Ids(x);
    hide IdsBelow;
    assert c.nodes[x.id] in Nodes(c, IdsOf([x]));
  }

  lemma {:induction false} ShownShows(c: Client, v: VNode, parent: Option<Ref>)
    requires ShownAt(c, v, parent)
    ensures Shows(c.heap, c.nodes, v) && At(c.heap, RefOf(c.nodes, v.id)).parent == parent
  {
  }

  lemma {:induction false} LiveNotRoot(c: Client, s: Setting, v: VNode)
    requires Holder(c, s) && v.id in c.nodes
    ensures c.nodes[v.id] != ROOT && c.nodes[v.id] in c.heap
  {
  }

  /** A removal takes the node out of the line. */
  lemma {:induction false} RemoveStep(c: Client, s: Setting, l: Line, x: VNode)
    requires InLine(c, s, l) && Fair(s) && x in l.live && x in s.had
    ensures var c' := Apply(c, RemoveNode(x.id));
            InLine(c', s, Step(l, Op.Remove(x))) && Elsewhere(c, c', s)
  {
    hide InLine, Fair, Elsewhere, Apply, TakenOut, Refs;
    LineDistinct(c, s, l);
    LiveDistinct(l);
    WithoutDistinct(l.live, x);
    RemoveTakesOut(c, s, l, x);
    TakenOutStep(c, Apply(c, RemoveNode(x.id)), s, l, [x], Without(l.live, x));
  }

  // ------------------------------------------------------------------ clearing

  lemma {:induction false} DetachAllForest(h: Heap, p: Ref)
    requires Forest(h) && p in h && p !in h[p].children
    ensures Forest(DetachAll(h, p)) && DetachAll(h, p).Keys == h.Keys
  {
    var h' := DetachAll(h, p);
    assert NodeOk(h, p);
    forall q | q in h' ensures NodeOk(h', q) {
      assert NodeOk(h, q);
    }
  }

  lemma {:induction false} BelowHolder(c: Client, s: Setting, l: Line)
    requires InLine(c, s, l) && Fair(s)
    ensures IdsBelow(c.heap, s.ref) <= IdsOf(l.live)
  {
    hide Fair, Holder, PutOff, Unsent, Members, Closure, IdsBelow;
    forall x | x in Kids(c.heap, s.ref) ensures exists i :: i in IdsOf(l.live) && i in c.nodes && c.nodes[i] == x {
      var k := IndexOf(Kids(c.heap, s.ref), x);
      LiveKnown(c, s, l, l.live[k]);
      IdListed(l.live, l.live[k]);
    }
    forall id | id in IdsOf(l.live)
      ensures id in c.nodes && c.nodes[id] in c.heap
      ensures c.heap[c.nodes[id]].bwId.None? || c.heap[c.nodes[id]].bwId == Some(id)
      ensures forall x | x in c.heap[c.nodes[id]].children :: exists i ::
                                                               i in IdsOf(l.live) && i in c.nodes && c.nodes[i] == x
    {
      var v := IdsOfMember(l.live, id);
      IdListed(l.live, v);
      LiveTree(c, s, l, v, id);
    }
    BelowWithin(c, s.ref, IdsOf(l.live));
  }

  lemma {:induction false} LiveTree(c: Client, s: Setting, l: Line, v: VNode, id: uint32)
    requires Row(c, s, l.live) && v in l.live && id in Ids(v)
    ensures id in c.nodes && c.nodes[id] in c.heap
    ensures c.heap[c.nodes[id]].bwId.None? || c.heap[c.nodes[id]].bwId == Some(id)
    ensures forall x | x in c.heap[c.nodes[id]].children :: exists i :: i in Ids(v) && i in c.nodes && c.nodes[i] == x
  {
    LiveKnown(c, s, l, v);
    ShownShows(c, Look(s, v), Some(s.ref));
    TreeKids(c.heap, c.nodes, Look(s, v), id);
  }

  lemma {:induction false} IdListed(vs: seq<VNode>, v: VNode)
    requires v in vs
    ensures Ids(v) <= IdsOf(vs) && v.id in IdsOf(vs)
    decreases vs
  {
    if vs[0] != v {
      IdListed(vs[1..], v);
    } else {
      assert v.id in Ids(v);
    }
  }

  lemma {:induction false} ClearTakesOut(c: Client, s: Setting, l: Line)
    requires InLine(c, s, l) && Fair(s)
    ensures var c' := Apply(c, ClearChildren(s.container));
            TakenOut(c, c', s, l.live) && Kids(c'.heap, s.ref) == []
  {
    hide Fair, Holder, PutOff, Unsent, Members, ShownAt, Forest, Closure, Look, IdsOf;
    HolderFacts(c, s);
    BelowHolder(c, s, l);
    forall x | x in Kids(c.heap, s.ref) ensures x != s.ref && x in Nodes(c, IdsOf(l.live)) {
      var k := IndexOf(Kids(c.heap, s.ref), x);
      var v := l.live[k];
      LiveNotHolder(c, s, l, v);
      LiveKnown(c, s, l, v);
      IdListed(l.live, v);
    }
    hide IdsBelow;
    DetachAllForest(c.heap, s.ref);
  }

  /** Clearing leaves no children, and what waits keeps waiting. */
  lemma {:induction false} ClearStep(c: Client, s: Setting, l: Line)
    requires InLine(c, s, l) && Fair(s) && forall v | v in l.live :: v in s.had
    ensures var c' := Apply(c, ClearChildren(s.container));
            InLine(c', s, Step(l, Op.Clear)) && Elsewhere(c, c', s)
  {
    hide InLine, Fair, Elsewhere, Apply, TakenOut;
    ClearTakesOut(c, s, l);
    TakenOutStep(c, Apply(c, ClearChildren(s.container)), s, l, l.live, []);
  }

  // ------------------------------------------------------------------- adding

  /** The line with `xs` added at `at`. */
  function Added(l: Line, xs: seq<VNode>, at: Spot): Line {
    if at.Below? then l.(live := l.live + xs) else l.(waiting := l.waiting + xs)
  }

  ghost predicate New(s: Setting, l: Line, xs: seq<VNode>) {
    Distinct(xs) && forall v | v in xs :: v in s.all && v !in s.had && v !in l.live && v !in l.waiting
  }

  lemma {:induction false} IdsLooked(s: Setting, xs: seq<VNode>, id: uint32)
    requires id in IdsOf(LookAll(s, xs))
    ensures id in IdsOf(xs)
  {
    var w := IdsOfMember(LookAll(s, xs), id);
    var k := IndexOf(LookAll(s, xs), w);
    IdListed(xs, xs[k]);
  }

  lemma {:induction false} IdsUnlooked(s: Setting, xs: seq<VNode>)
    requires Fair(s) && forall v | v in xs :: v in s.all
    ensures IdsOf(LookAll(s, xs)) <= IdsOf(s.all)
    ensures forall w | w in s.all && w !in xs :: Ids(w) !! IdsOf(LookAll(s, xs))
  {
    IdsWithin(s, xs);
    forall id | id in IdsOf(LookAll(s, xs)) ensures id in IdsOf(xs) {
      IdsLooked(s, xs, id);
    }
    forall w | w in s.all && w !in xs ensures Ids(w) !! IdsOf(LookAll(s, xs)) {
      forall id | id in Ids(w) ensures id !in IdsOf(LookAll(s, xs)) {
        if id in IdsOf(LookAll(s, xs)) {
          var v := IdsOfMember(xs, id);
          Disjoint(s.all, v, w);
        }
      }
    }
  }

  lemma {:induction false} AddedElsewhere(c: Client, c': Client, s: Setting, xs: seq<VNode>, at: Spot)
    requires Fair(s) && Extends(c, c', at) && Registers(c, c', LookAll(s, xs))
    requires (forall v | v in xs :: v in s.all) && (at.Below? ==> at.ref == s.ref)
    ensures Elsewhere(c, c', s)
  {
    IdsUnlooked(s, xs);
    hide Fair, Look, LookAll;
  }

  lemma {:induction false} AddedUnsent(c: Client, c': Client, s: Setting, l: Line, xs: seq<VNode>, at: Spot)
    requires Fair(s) && Unsent(c, s, l) && Extends(c, c', at) && Registers(c, c', LookAll(s, xs))
    requires forall v | v in xs :: v in s.all
    ensures Unsent(c', s, Added(l, xs, at))
  {
    IdsUnlooked(s, xs);
    hide Fair, Look, LookAll;
  }

  lemma {:induction false} StaysBeside(c: Client, c': Client, s: Setting, v: VNode, parent: Option<Ref>, at: Spot)
    requires Holder(c, s) && Fair(s) && Extends(c, c', at) && (at.Below? ==> at.ref == s.ref)
    requires v in s.all && ShownAt(c, Look(s, v), parent)
    ensures ShownAt(c', Look(s, v), parent) && RefOf(c'.nodes, v.id) == RefOf(c.nodes, v.id)
  {
    MemberOf(s.all, v);
    LookProper(s, v);
    NotHolder(c, s, v);
    HolderInjective(c, s);
    hide Holder, Fair, ShownAt, Look, Proper, ProperAll;
    forall id | id in Ids(v) && id in c.nodes ensures c.nodes[id] != s.ref {
      assert c.nodes[id] in Nodes(c, Ids(v));
    }
    Undisturbed(c, c', Look(s, v), parent);
  }

  /** Each of the trees just built is shown. */
  lemma {:induction false} AllShown(c: Client, s: Setting, xs: seq<VNode>, parent: Option<Ref>)
    requires ShowsAll(c.heap, c.nodes, LookAll(s, xs), parent)
    ensures forall v | v in xs :: ShownAt(c, Look(s, v), parent)
  {
    forall v | v in xs ensures ShownAt(c, Look(s, v), parent) {
      var k := IndexOf(xs, v);
      assert LookAll(s, xs)[k] == Look(s, v);
      KidShown(c.heap, c.nodes, LookAll(s, xs), parent, Look(s, v));
    }
  }

  lemma {:induction false} AddedMembers(s: Setting, l: Line, xs: seq<VNode>, at: Spot)
    requires Members(s, l) && New(s, l, xs)
    ensures Members(s, Added(l, xs, at))
  {
    LiveDistinct(l);
    DistinctAppend(l.live, xs);
    DistinctAppend(l.waiting, xs);
    var l' := Added(l, xs, at);
    DistinctAppend(l'.live, l'.waiting);
  }

  lemma {:induction false} DistinctAppend<T>(a: seq<T>, b: seq<T>)
    requires Distinct(a) && Distinct(b) && forall x | x in a :: x !in b
    ensures Distinct(a + b)
  {
    var t := a + b;
    forall i, j | 0 <= i < j < |t| ensures t[i] != t[j] {
      if i < |a| <= j {
        assert t[i] in a && t[j] in b;
      }
    }
  }

  lemma {:induction false} DeferSplit(a: seq<VNode>, b: seq<VNode>, parent: uint32)
    ensures DeferAll(a + b, parent) == DeferAll(a, parent) + DeferAll(b, parent)
    decreases a
  {
    if a == [] {
      assert a + b == b;
    } else {
      assert (a + b)[1..] == a[1..] + b;
      DeferSplit(a[1..], b, parent);
    }
  }

  lemma {:induction false} DeferLook(s: Setting, xs: seq<VNode>, parent: uint32)
    ensures DeferAll(LookAll(s, xs), parent) == DeferAll(xs, parent)
    decreases xs
  {
    if xs != [] {
      assert LookAll(s, xs)[1..] == LookAll(s, xs[1..]);
      DeferLook(s, xs[1..], parent);
    }
  }

  /** New trees built below the container, or to be attached to it later, join the line. */
  lemma {:induction false} BuiltStep(c: Client, c': Client, s: Setting, l: Line, xs: seq<VNode>, at: Spot)
    requires InLine(c, s, l) && Fair(s) && New(s, l, xs) && Built(c, c', LookAll(s, xs), at)
    requires at == Below(s.ref) || at == Later(s.container)
    ensures InLine(c', s, Added(l, xs, at)) && Elsewhere(c, c', s)
  {
    hide Fair, Elsewhere, Distinct, Refs, Row, PutOff, Holder, Unsent, Members, New, Added;
    BuiltParts(c, c', LookAll(s, xs), at);
    NewFacts(s, l, xs);
    AddedElsewhere(c, c', s, xs, at);
    AddedUnsent(c, c', s, l, xs, at);
    AddedMembers(s, l, xs, at);
    BuiltHolder(c, c', s, at);
    BuiltRow(c, c', s, l, xs, at);
    BuiltPutOff(c, c', s, l, xs, at);
  }

  lemma {:induction false} BuiltParts(c: Client, c': Client, vs: seq<VNode>, at: Spot)
    requires Built(c, c', vs, at)
    ensures Valid(c') && Extends(c, c', at) && Registers(c, c', vs) && Placed(c, c', vs, at)
  {
  }

  lemma {:induction false} NewFacts(s: Setting, l: Line, xs: seq<VNode>)
    requires New(s, l, xs)
    ensures forall v | v in xs :: v in s.all
  {
  }

  lemma {:induction false} BuiltRow(c: Client, c': Client, s: Setting, l: Line, xs: seq<VNode>, at: Spot)
    requires Holder(c, s) && Row(c, s, l.live) && Members(s, l) && Fair(s) && Built(c, c', LookAll(s, xs), at)
    requires at == Below(s.ref) || at == Later(s.container)
    ensures Row(c', s, Added(l, xs, at).live)
  {
    BuiltPlaces(c, c', s, xs, at);
    BuiltParts(c, c', LookAll(s, xs), at);
    hide Holder, Fair, Distinct, Built, Extends, Registers, Valid, ShownAt, ShowsAll, Look, LookAll;
    forall v | v in l.live
      ensures ShownAt(c', Look(s, v), Some(s.ref)) && RefOf(c'.nodes, v.id) == RefOf(c.nodes, v.id)
    {
      StaysBeside(c, c', s, v, Some(s.ref), at);
    }
    RefsSame(c.nodes, c'.nodes, l.live);
    RefsLook(c'.nodes, s, xs);
    RefsAppend(c'.nodes, l.live, xs);
    if at.Below? {
      AllShown(c', s, xs, Some(s.ref));
    }
  }

  lemma {:induction false} BuiltPutOff(c: Client, c': Client, s: Setting, l: Line, xs: seq<VNode>, at: Spot)
    requires Holder(c, s) && PutOff(c, s, l.waiting) && Members(s, l) && Fair(s) && Built(c, c', LookAll(s, xs), at)
    requires at == Below(s.ref) || at == Later(s.container)
    ensures PutOff(c', s, Added(l, xs, at).waiting)
  {
    BuiltPlaces(c, c', s, xs, at);
    BuiltParts(c, c', LookAll(s, xs), at);
    hide Holder, Fair, Distinct, Built, Extends, Registers, Valid, ShownAt, ShowsAll, Look, LookAll;
    forall v | v in l.waiting ensures ShownAt(c', Look(s, v), None) {
      StaysBeside(c, c', s, v, None, at);
    }
    if at.Later? {
      AllShown(c', s, xs, None);
      DeferLook(s, xs, s.container);
      DeferSplit(l.waiting, xs, s.container);
    }
  }

  lemma {:induction false} BuiltHolder(c: Client, c': Client, s: Setting, at: Spot)
    requires Holder(c, s) && Extends(c, c', at) && Valid(c')
    ensures Holder(c', s)
  {
    hide Valid;
  }

  lemma {:induction false} BuiltPlaces(c: Client, c': Client, s: Setting, xs: seq<VNode>, at: Spot)
    requires Holder(c, s) && Built(c, c', LookAll(s, xs), at) && (at == Below(s.ref) || at == Later(s.container))
    ensures Kids(c'.heap, s.ref) == if at.Below? then Kids(c.heap, s.ref) + Refs(c'.nodes, LookAll(s, xs))
            else Kids(c.heap, s.ref)
    ensures c'.deferred == if at.Below? then c.deferred else c.deferred + DeferAll(LookAll(s, xs), s.container)
  {
    HolderFacts(c, s);
    hide Valid, Holder, ShowsAll;
  }

  /** A single insert is built at once and attached when the batch ends. */
  lemma {:induction false} InsertStep(c: Client, s: Setting, l: Line, x: VNode, msgs: seq<Msg>)
    requires InLine(c, s, l) && Fair(s) && Able(l, Op.Insert(x), s) && IsInsertTree(msgs, x, s.container)
    ensures var c' := ApplyAll(c, msgs);
            InLine(c', s, Step(l, Op.Insert(x))) && Elsewhere(c, c', s)
  {
    hide InLine, Fair, Elsewhere, Built, IsInsertTree, ApplyAll;
    InsertBuilds(c, s, l, x, msgs);
    assert LookAll(s, [x]) == [Look(s, x)];
    assert New(s, l, [x]);
    BuiltStep(c, ApplyAll(c, msgs), s, l, [x], Later(s.container));
  }

  lemma {:induction false} InsertBuilds(c: Client, s: Setting, l: Line, x: VNode, msgs: seq<Msg>)
    requires InLine(c, s, l) && Fair(s) && Able(l, Op.Insert(x), s) && IsInsertTree(msgs, x, s.container)
    ensures Built(c, ApplyAll(c, msgs), [Look(s, x)], Later(s.container))
  {
    MemberOf(s.all, x);
    NotHolder(c, s, x);
    HolderFacts(c, s);
    assert Unseen(c, Ids(x));
    assert Goes(c, s.container, Later(s.container));
    assert Valid(c);
    hide InLine, Valid, Proper, Built, Goes, Unseen, IsInsertTree, Fair;
    InsertTreeBuilds(c, x, s.container, msgs, Later(s.container));
  }
}
