/**
 Whole list updates on the client's page: the queued operations, carried out in
 one batch, leave the container with the replayed children and nothing else
 changed.
 */
module ForOnPage {
  import opened Seqs
  import opened Wire
  import opened Dom
  import opened Client
  import opened Trees
  import opened Emission
  import MoveScripts
  import opened Lis
  import opened Reconcile
  import opened ReconcileReplay
  import opened ForClient
  import ForSteps
  import ForChanges

  // ------------------------------------------------------- several operations

  ghost predicate Carries(c: Client, ops: seq<Op>, s: Setting, c': Client)
    decreases ops
  {
    if ops == [] then c' == c
    else exists c1 :: Does(c, ops[0], s, c1) && Carries(c1, ops[1..], s, c')
  }

  ghost predicate AbleAll(l: Line, ops: seq<Op>, s: Setting)
    decreases ops
  {
    ops == [] || (Able(l, ops[0], s) && AbleAll(Step(l, ops[0]), ops[1..], s))
  }

  lemma {:induction false} AbleSplit(l: Line, a: seq<Op>, b: seq<Op>, s: Setting)
    requires AbleAll(l, a, s) && AbleAll(Steps(l, a), b, s)
    ensures AbleAll(l, a + b, s)
    decreases a
  {
    if a == [] {
      assert a + b == b;
    } else {
      assert (a + b)[1..] == a[1..] + b;
      AbleSplit(Step(l, a[0]), a[1..], b, s);
    }
  }

  /** The page after one operation shows the line after one step. */
  lemma {:induction false} OneOperation(c: Client, op: Op, s: Setting, l: Line, c': Client)
    requires InLine(c, s, l) && Fair(s) && Able(l, op, s) && Does(c, op, s, c')
    ensures InLine(c', s, Step(l, op)) && Elsewhere(c, c', s)
  {
    hide InLine, Fair, Elsewhere, Apply, IsInsertTree, ApplyAll, Built, Exchange, Without;
    match op
    case Remove(x) => ForChanges.RemoveStep(c, s, l, x);
    case Clear => ForChanges.ClearStep(c, s, l);
    case Swap(a, b) => ForSteps.SwapStep(c, s, l, a, b);
    case Move(x) =>
      var tag, attrs :| c' == Apply(c, InsertNode(x.id, s.container, 0, tag, attrs));
      ForSteps.MoveStep(c, s, l, x, tag, attrs);
    case Insert(x) =>
      var msgs :| IsInsertTree(msgs, x, s.container) && c' == ApplyAll(c, msgs);
      ForChanges.InsertStep(c, s, l, x, msgs);
    case Bulk(xs) =>
      assert LookAll(s, xs) == MountedAll(xs);
      ForChanges.BuiltStep(c, c', s, l, xs, Below(s.ref));
  }

  lemma {:induction false} ElsewhereNone(c: Client, s: Setting)
    ensures Elsewhere(c, c, s)
  {
  }

  lemma {:induction false} AllOperations(c: Client, ops: seq<Op>, s: Setting, l: Line, c': Client)
    requires InLine(c, s, l) && Fair(s) && AbleAll(l, ops, s) && Carries(c, ops, s, c')
    ensures InLine(c', s, Steps(l, ops)) && Elsewhere(c, c', s)
    decreases ops
  {
    hide InLine, Fair, Elsewhere, Able, Does, Step;
    if ops == [] {
      ElsewhereNone(c, s);
    } else {
      var c1 :| Does(c, ops[0], s, c1) && Carries(c1, ops[1..], s, c');
      OneOperation(c, ops[0], s, l, c1);
      AllOperations(c1, ops[1..], s, Step(l, ops[0]), c');
      ElsewhereThen(c, c1, c', s);
    }
  }

  // --------------------------------------------------------- the batch's end

  /** One waiting node joins the children. */
  lemma {:induction false} SettleOne(c: Client, s: Setting, live: seq<VNode>, v: VNode)
    requires Holder(c, s) && Fair(s) && v in s.all && ShownAt(c, Look(s, v), None)
    ensures var r := RefOf(c.nodes, v.id);
            r in c.heap && r != s.ref && s.ref in c.heap
            && Settle(c, Deferred(v.id, s.container))
               == c.(heap := c.heap[s.ref := c.heap[s.ref].(children := Kids(c.heap, s.ref) + [r])]
                                   [r := c.heap[r].(parent := Some(s.ref))])
    ensures Holder(Settle(c, Deferred(v.id, s.container)), s)
  {
    NotHolder(c, s, v);
    HolderValid(c, s);
    MemberOf(s.all, v);
    ForChanges.ShownShows(c, Look(s, v), None);
    ShowsRoot(c, Look(s, v));
    hide Fair, ShownAt, Look;
    assert c.nodes[v.id] in Nodes(c, Ids(v));
    AppendLoose(c.heap, s.ref, c.nodes[v.id]);
    SettleHolder(c, s, v);
  }

  lemma {:induction false} HolderValid(c: Client, s: Setting)
    requires Holder(c, s)
    ensures s.ref in c.heap && s.container in c.nodes && c.nodes[s.container] == s.ref && Valid(c)
  {
  }

  lemma {:induction false} ShowsRoot(c: Client, v: VNode)
    requires Shows(c.heap, c.nodes, v)
    ensures v.id in c.nodes && c.nodes[v.id] in c.heap
  {
  }

  lemma {:induction false} SettleHolder(c: Client, s: Setting, v: VNode)
    requires Holder(c, s) && v.id in c.nodes && c.nodes[v.id] != s.ref && At(c.heap, c.nodes[v.id]).parent == None
    ensures Holder(Settle(c, Deferred(v.id, s.container)), s)
  {
    AttachValid(c, s.ref, c.nodes[v.id]);
    hide Forest, Append;
  }

  /** Other trees do not notice. */
  lemma {:induction false} SettleBeside(c: Client, s: Setting, v: VNode, w: VNode, parent: Option<Ref>)
    requires Holder(c, s) && Fair(s) && v in s.all && w in s.all && v != w
    requires ShownAt(c, Look(s, v), None) && ShownAt(c, Look(s, w), parent)
    ensures ShownAt(Settle(c, Deferred(v.id, s.container)), Look(s, w), parent)
  {
    SettleOne(c, s, [], v);
    MemberOf(s.all, v);
    MemberOf(s.all, w);
    LookProper(s, w);
    NotHolder(c, s, w);
    NodesApart(c, s, v, w);
    ForChanges.ShownShows(c, Look(s, v), None);
    ShowsRoot(c, Look(s, v));
    hide Holder, Fair, ShownAt, Look, Settle, Proper, ProperAll;
    assert c.nodes[v.id] in Nodes(c, Ids(v));
    forall id | id in Ids(w) && id in c.nodes ensures c.nodes[id] != s.ref && c.nodes[id] != c.nodes[v.id] {
      assert c.nodes[id] in Nodes(c, Ids(w));
    }
    Undisturbed(c, Settle(c, Deferred(v.id, s.container)), Look(s, w), parent);
  }

  /** The node itself is shown below the container now. */
  lemma {:induction false} SettleItself(c: Client, s: Setting, v: VNode)
    requires Holder(c, s) && Fair(s) && v in s.all && ShownAt(c, Look(s, v), None)
    ensures ShownAt(Settle(c, Deferred(v.id, s.container)), Look(s, v), Some(s.ref))
  {
    hide Settle, Holder, Look;
    SettleOne(c, s, [], v);
    MemberOf(s.all, v);
    LookProper(s, v);
    NotHolder(c, s, v);
    ForChanges.HolderInjective(c, s);
    ForChanges.ShownShows(c, Look(s, v), None);
    ShowsRoot(c, Look(s, v));
    forall id | id in Ids(v) && id in c.nodes ensures c.nodes[id] != s.ref {
      assert c.nodes[id] in Nodes(c, Ids(v));
    }
    Attached(c, Look(s, v), s.ref, c.heap[s.ref].(children := Kids(c.heap, s.ref) + [c.nodes[v.id]]));
  }

  lemma {:induction false} Attached(c: Client, v: VNode, p: Ref, e: Elem)
    requires Shows(c.heap, c.nodes, v) && Proper(v) && p in c.heap && v.id in c.nodes && c.nodes[v.id] in c.heap
    requires forall id | id in Ids(v) && id in c.nodes :: c.nodes[id] != p
    requires forall i, j | i in c.nodes && j in c.nodes && c.nodes[i] == c.nodes[j] :: i == j
    ensures var r := c.nodes[v.id];
            ShownAt(c.(heap := c.heap[p := e][r := c.heap[r].(parent := Some(p))]), v, Some(p))
  {
    var r := c.nodes[v.id];
    var h := c.heap[p := e][r := c.heap[r].(parent := Some(p))];
    assert v.id in Ids(v);
    ShowsKept(c.heap, c.nodes, h, c.nodes, v);
  }

  lemma {:induction false} SettleElsewhere(c: Client, s: Setting, v: VNode)
    requires Holder(c, s) && Fair(s) && v in s.all && ShownAt(c, Look(s, v), None)
    ensures Elsewhere(c, Settle(c, Deferred(v.id, s.container)), s)
  {
    hide Elsewhere, Settle;
    SettleOne(c, s, [], v);
    MemberOf(s.all, v);
    ForChanges.ShownShows(c, Look(s, v), None);
    ShowsRoot(c, Look(s, v));
    var r := c.nodes[v.id];
    TwoChanged(c, s, v.id, c.heap[s.ref].(children := Kids(c.heap, s.ref) + [r]), c.heap[r].(parent := Some(s.ref)));
  }

  /** Changing the container and a node of the update changes nothing elsewhere. */
  lemma {:induction false} TwoChanged(c: Client, s: Setting, id: uint32, e: Elem, f: Elem)
    requires id in IdsOf(s.all) && id in c.nodes && s.ref in c.heap && c.nodes[id] in c.heap
    ensures Elsewhere(c, c.(heap := c.heap[s.ref := e][c.nodes[id] := f]), s)
  {
    assert Owned(c, s, c.nodes[id]);
  }

  /** Waiting nodes are attached in order, behind what was there. */
  lemma {:induction false} SettleRow(c: Client, s: Setting, live: seq<VNode>, ws: seq<VNode>)
    requires Holder(c, s) && Fair(s) && Row(c, s, live) && (forall v | v in live + ws :: v in s.all)
    requires Distinct(live + ws) && forall v | v in ws :: ShownAt(c, Look(s, v), None)
    ensures var c' := SettleAll(c, DeferAll(ws, s.container));
            Holder(c', s) && Row(c', s, live + ws) && Elsewhere(c, c', s)
    decreases ws
  {
    if ws == [] {
      ElsewhereNone(c, s);
      assert live + ws == live;
    } else {
      var v := ws[0];
      var c1 := Settle(c, Deferred(v.id, s.container));
      var d := DeferAll(ws, s.container);
      assert d[0] == Deferred(v.id, s.container) && d[1..] == DeferAll(ws[1..], s.container);
      assert (live + [v]) + ws[1..] == live + ws;
      assert v in ws && v in live + ws;
      SettleWaits(c, s, live, ws);
      SettleNextRow(c, s, live, ws);
      SettleOne(c, s, live, v);
      SettleElsewhere(c, s, v);
      hide Holder, Fair, Row, Elsewhere, ShownAt, Distinct, Settle, DeferAll, Look;
      SettleRow(c1, s, live + [v], ws[1..]);
      ElsewhereThen(c, c1, SettleAll(c, d), s);
    }
  }

  lemma {:induction false} SettleWaits(c: Client, s: Setting, live: seq<VNode>, ws: seq<VNode>)
    requires Holder(c, s) && Fair(s) && (forall v | v in live + ws :: v in s.all) && ws != []
    requires Distinct(live + ws) && forall v | v in ws :: ShownAt(c, Look(s, v), None)
    ensures forall v | v in ws[1..] :: ShownAt(Settle(c, Deferred(ws[0].id, s.container)), Look(s, v), None)
  {
    hide Holder, Fair, ShownAt, Look, Settle;
    ForSteps.LiveDistinct(Line(live, ws));
    assert ws[0] in live + ws;
    forall v | v in ws[1..] ensures ShownAt(Settle(c, Deferred(ws[0].id, s.container)), Look(s, v), None) {
      assert v in live + ws;
      SettleBeside(c, s, ws[0], v, None);
    }
  }

  lemma {:induction false} SettleNextRow(c: Client, s: Setting, live: seq<VNode>, ws: seq<VNode>)
    requires Holder(c, s) && Fair(s) && Row(c, s, live) && (forall v | v in live + ws :: v in s.all) && ws != []
    requires Distinct(live + ws) && forall v | v in ws :: ShownAt(c, Look(s, v), None)
    ensures Row(Settle(c, Deferred(ws[0].id, s.container)), s, live + [ws[0]])
  {
    hide Holder, Fair, ShownAt, Look, Settle;
    var v := ws[0];
    ForSteps.LiveDistinct(Line(live, ws));
    assert v in live + ws;
    var c1 := Settle(c, Deferred(v.id, s.container));
    SettleOne(c, s, live, v);
    forall w | w in live + [v] ensures ShownAt(c1, Look(s, w), Some(s.ref)) {
      if w == v {
        SettleItself(c, s, v);
      } else {
        assert w in live + ws;
        SettleBeside(c, s, v, w, Some(s.ref));
      }
    }
    RefsAppend(c.nodes, live, [v]);
    assert Refs(c.nodes, [v]) == [RefOf(c.nodes, v.id)];
  }
}
