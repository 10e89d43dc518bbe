module ForRegistry {
  // What a list update does to the client's registry, exactly: the ids of removed
  // items and of the elements in them are forgotten, those of new items are added.

  import opened Seqs
  import opened Wire
  import opened Dom
  import opened Client
  import opened Trees
  import opened Emission
  import opened Reconcile
  import ReconcileOrder
  import ReconcileReplay
  import opened ForClient
  import opened ForUpdate
  import opened Solids
  import ForAgreement
  import ForOnPage
  import ForSteps
  import ForChanges
  import Flips
  import Returns
  import Swaps
  import Bulks

  // ------------------------------------------------------- what a cleanup drops

  /** Below a node whose children are shown trees a cleanup drops the ids of their elements, no more and no less. */
  lemma {:induction false} BelowForest(c: Client, p: Ref, ws: seq<VNode>)
    requires Valid(c) && p in c.heap && Kids(c.heap, p) == Refs(c.nodes, ws) && ProperAll(ws)
    requires (forall w | w in ws :: Shows(c.heap, c.nodes, w)) && p !in Nodes(c, IdsOf(ws))
    ensures IdsBelow(c.heap, p) == ElemsOf(ws)
  {
    forall id | id in ElemsOf(ws) ensures id in IdsBelow(c.heap, p) {
      ElementBelow(c, p, ws, id);
    }
    BelowElements(c, p, ws);
  }

  lemma {:induction false} ElementBelow(c: Client, p: Ref, ws: seq<VNode>, id: uint32)
    requires Valid(c) && p in c.heap && Kids(c.heap, p) == Refs(c.nodes, ws)
    requires (forall w | w in ws :: Shows(c.heap, c.nodes, w)) && p !in Nodes(c, IdsOf(ws))
    requires id in ElemsOf(ws)
    ensures id in IdsBelow(c.heap, p)
  {
    var cl := Closure(c.heap, {p});
    var w := Returns.InnerOf(ws, id);
    KidReached(c, p, ws, w);
    hide Closure, IdsBelow;
    assert c.nodes[w.id] in cl;
    if id == w.id {
      RootLabel(c, w);
    } else {
      Returns.ShownSpine(c, w);
      Returns.SpineReached(c, w, cl, id);
    }
    ElementListed(ws, id);
    assert c.nodes[id] in Nodes(c, IdsOf(ws));
    LabelBelow(c, p, id);
  }

  lemma {:induction false} ElementListed(ws: seq<VNode>, id: uint32)
    requires id in ElemsOf(ws)
    ensures id in IdsOf(ws)
  {
    IdsOfParts(ws);
  }

  lemma RootLabel(c: Client, w: VNode)
    requires Shows(c.heap, c.nodes, w) && w.VElem?
    ensures w.id in c.nodes && At(c.heap, c.nodes[w.id]).bwId == Some(w.id)
  {
  }

  lemma LabelBelow(c: Client, p: Ref, id: uint32)
    requires id in c.nodes && c.nodes[id] in Closure(c.heap, {p}) && c.nodes[id] != p
    requires At(c.heap, c.nodes[id]).bwId == Some(id)
    ensures id in IdsBelow(c.heap, p)
  {
  }

  lemma {:induction false} KidReached(c: Client, p: Ref, ws: seq<VNode>, w: VNode)
    requires p in c.heap && Kids(c.heap, p) == Refs(c.nodes, ws) && w in ws && Shows(c.heap, c.nodes, w)
    ensures w.id in c.nodes && c.nodes[w.id] in Closure(c.heap, {p})
  {
    var k := IndexOf(ws, w);
    assert Refs(c.nodes, ws)[k] == c.nodes[w.id];
    var cl := Closure(c.heap, {p});
    assert p in cl && c.nodes[w.id] in Kids(c.heap, p);
  }

  lemma {:induction false} BelowElements(c: Client, p: Ref, ws: seq<VNode>)
    requires p in c.heap && Kids(c.heap, p) == Refs(c.nodes, ws) && ProperAll(ws)
    requires forall w | w in ws :: Shows(c.heap, c.nodes, w)
    ensures IdsBelow(c.heap, p) <= ElemsOf(ws)
  {
    var t := Nodes(c, IdsOf(ws));
    KidsListed(c, p, ws);
    forall id | id in IdsOf(ws)
      ensures id in c.nodes
      ensures At(c.heap, c.nodes[id]).bwId.Some? ==> At(c.heap, c.nodes[id]).bwId == Some(id) && id in ElemsOf(ws)
      ensures forall x | x in Kids(c.heap, c.nodes[id]) :: x in t
    {
      ListedNode(c, ws, id);
    }
    hide Shows, ProperAll;
    ClosureLeast(c.heap, {p}, t + {p});
  }

  lemma {:induction false} KidsListed(c: Client, p: Ref, ws: seq<VNode>)
    requires Kids(c.heap, p) == Refs(c.nodes, ws) && forall w | w in ws :: Shows(c.heap, c.nodes, w)
    ensures forall x | x in Kids(c.heap, p) :: x in Nodes(c, IdsOf(ws))
  {
    forall x | x in Kids(c.heap, p) ensures x in Nodes(c, IdsOf(ws)) {
      var k := IndexOf(Kids(c.heap, p), x);
      ForOnPage.ShowsRoot(c, ws[k]);
      ForChanges.IdListed(ws, ws[k]);
    }
  }

  lemma {:induction false} ListedNode(c: Client, ws: seq<VNode>, id: uint32)
    requires (forall w | w in ws :: Shows(c.heap, c.nodes, w)) && id in IdsOf(ws) && ProperAll(ws)
    ensures id in c.nodes
    ensures At(c.heap, c.nodes[id]).bwId.Some? ==> At(c.heap, c.nodes[id]).bwId == Some(id) && id in ElemsOf(ws)
    ensures forall x | x in Kids(c.heap, c.nodes[id]) :: x in Nodes(c, IdsOf(ws))
  {
    var w := IdsOfMember(ws, id);
    ForSteps.TreeKids(c.heap, c.nodes, w, id);
    ForChanges.IdListed(ws, w);
    MemberOf(ws, w);
    NodeLabel(c, w, id);
    ElemListed(ws, w);
  }

  lemma {:induction false} ElemListed(ws: seq<VNode>, w: VNode)
    requires w in ws
    ensures Elems(w) <= ElemsOf(ws)
    decreases ws
  {
    if ws[0] != w {
      ElemListed(ws[1..], w);
    }
  }

  /** Only elements carry their id. */
  lemma {:induction false} NodeLabel(c: Client, w: VNode, id: uint32)
    requires Shows(c.heap, c.nodes, w) && id in Ids(w)
    ensures id in c.nodes && (At(c.heap, c.nodes[id]).bwId.Some? ==> id in Elems(w))
    decreases w
  {
    if w.VElem? && id != w.id {
      var x := IdsOfMember(w.children, id);
      ForSteps.KidShown(c.heap, c.nodes, w.children, Some(c.nodes[w.id]), x);
      NodeLabel(c, x, id);
      ElemListed(w.children, x);
    }
  }

  /** Below a shown tree's root. */
  lemma {:induction false} BelowRoot(c: Client, v: VNode)
    requires Valid(c) && Shows(c.heap, c.nodes, v) && Proper(v)
    ensures v.id in c.nodes && IdsBelow(c.heap, c.nodes[v.id]) == Inner(v)
  {
    ForOnPage.ShowsRoot(c, v);
    forall w | w in VKids(v) ensures Shows(c.heap, c.nodes, w) {
      ForSteps.KidShown(c.heap, c.nodes, v.children, Some(c.nodes[v.id]), w);
    }
    assert ProperAll(VKids(v)) && v.id !in IdsOf(VKids(v));
    assert Kids(c.heap, c.nodes[v.id]) == Refs(c.nodes, VKids(v));
    hide Shows, Proper, ProperAll, IdsBelow;
    RootApart(c, v.id, IdsOf(VKids(v)));
    BelowForest(c, c.nodes[v.id], VKids(v));
  }

  lemma RootApart(c: Client, id: uint32, ids: set<uint32>)
    requires Valid(c) && id in c.nodes && id !in ids
    ensures c.nodes[id] !in Nodes(c, ids)
  {
  }

  // ------------------------------------------------------------ single operations

  /** The registered ids after one operation. */
  function KeysAfter(keys: set<uint32>, l: Line, op: Op): set<uint32> {
    match op
    case Remove(x) => keys - Solid(x)
    case Clear => keys - ElemsOf(l.live)
    case Insert(x) => keys + Ids(x)
    case Bulk(xs) => keys + IdsOf(xs)
    case _ => keys
  }

  lemma {:induction false} MountedElems(v: VNode)
    ensures Elems(Mounted(v)) == Elems(v)
    decreases v
  {
    if v.VElem? {
      MountedElemsOf(v.children);
    }
  }

  lemma {:induction false} MountedElemsOf(vs: seq<VNode>)
    ensures ElemsOf(MountedAll(vs)) == ElemsOf(vs)
    decreases vs
  {
    if vs != [] {
      MountedElems(vs[0]);
      MountedElemsOf(vs[1..]);
      assert MountedAll(vs)[1..] == MountedAll(vs[1..]);
    }
  }

  lemma {:induction false} LookElems(s: Setting, v: VNode)
    ensures Elems(Look(s, v)) == Elems(v) && Inner(Look(s, v)) == Inner(v)
  {
    MountedElems(v);
    Flips.InnerUnstyled(v);
    if v.VElem? {
      MountedElemsOf(v.children);
    }
  }

  lemma {:induction false} LookElemsOf(s: Setting, vs: seq<VNode>)
    ensures ElemsOf(LookAll(s, vs)) == ElemsOf(vs)
    decreases vs
  {
    if vs != [] {
      LookElems(s, vs[0]);
      LookElemsOf(s, vs[1..]);
      assert LookAll(s, vs)[1..] == LookAll(s, vs[1..]);
    }
  }

  lemma {:induction false} RemoveKeys(c: Client, s: Setting, l: Line, x: VNode)
    requires InLine(c, s, l) && Fair(s) && x in l.live
    ensures Apply(c, RemoveNode(x.id)).nodes == c.nodes - Solid(x)
  {
    hide *;
    HolderValid(c, s, l);
    MemberShown(c, s, x);
    BelowRoot(c, Look(s, x));
    LookElems(s, x);
    LookId(s, x);
    RemoveNodes(c, x.id);
    SolidIs(x);
    assert c.nodes - Inner(x) - {x.id} == c.nodes - ({x.id} + Inner(x));
  }

  lemma SolidIs(x: VNode)
    ensures Solid(x) == {x.id} + Inner(x)
  {
  }

  lemma LookId(s: Setting, x: VNode)
    ensures Look(s, x).id == x.id
  {
  }

  lemma {:induction false} MemberShown(c: Client, s: Setting, x: VNode)
    requires Fair(s) && x in s.all && ShownAt(c, Look(s, x), Some(s.ref))
    ensures Shows(c.heap, c.nodes, Look(s, x)) && Proper(Look(s, x))
  {
    MemberOf(s.all, x);
    LookProper(s, x);
    ForChanges.ShownShows(c, Look(s, x), Some(s.ref));
    hide *;
  }

  lemma RemoveNodes(c: Client, id: uint32)
    requires id in c.nodes
    ensures Apply(c, RemoveNode(id)).nodes == c.nodes - IdsBelow(c.heap, c.nodes[id]) - {id}
  {
    hide IdsBelow, Detach;
  }

  lemma ClearNodes(c: Client, id: uint32)
    requires id in c.nodes
    ensures Apply(c, ClearChildren(id)).nodes == c.nodes - IdsBelow(c.heap, c.nodes[id])
  {
    hide IdsBelow, DetachAll;
  }

  lemma HolderValid(c: Client, s: Setting, l: Line)
    requires InLine(c, s, l)
    ensures Valid(c) && c.depth > 0 && s.container in c.nodes && c.nodes[s.container] == s.ref && s.ref in c.heap
    ensures Kids(c.heap, s.ref) == Refs(c.nodes, l.live) && Distinct(l.live)
    ensures forall v | v in l.live :: v in s.all && ShownAt(c, Look(s, v), Some(s.ref))
  {
    ForSteps.LiveDistinct(l);
  }

  lemma {:induction false} LookedProper(s: Setting, vs: seq<VNode>)
    requires Fair(s) && Distinct(vs) && forall v | v in vs :: v in s.all
    ensures ProperAll(LookAll(s, vs))
    decreases vs
  {
    if vs != [] {
      var ws := LookAll(s, vs);
      assert vs[0] in vs && vs[0] !in vs[1..];
      assert ws[1..] == LookAll(s, vs[1..]);
      forall v | v in vs[1..] ensures v in vs {
      }
      LookedProper(s, vs[1..]);
      MemberOf(s.all, vs[0]);
      LookProper(s, vs[0]);
      forall id | id in IdsOf(LookAll(s, vs[1..])) ensures id !in Ids(vs[0]) {
        ForChanges.IdsLooked(s, vs[1..], id);
        var w := IdsOfMember(vs[1..], id);
        Disjoint(s.all, vs[0], w);
      }
    }
  }

  lemma {:induction false} ClearKeys(c: Client, s: Setting, l: Line)
    requires InLine(c, s, l) && Fair(s)
    ensures Apply(c, ClearChildren(s.container)).nodes == c.nodes - ElemsOf(l.live)
  {
    hide *;
    HolderValid(c, s, l);
    var ws := LookAll(s, l.live);
    LookedProper(s, l.live);
    RefsLook(c.nodes, s, l.live);
    AllMembersShown(c, s, l.live);
    HolderApart(c, s, l.live);
    BelowForest(c, s.ref, ws);
    LookElemsOf(s, l.live);
    ClearNodes(c, s.container);
  }

  lemma {:induction false} AllMembersShown(c: Client, s: Setting, vs: seq<VNode>)
    requires Fair(s) && forall v | v in vs :: v in s.all && ShownAt(c, Look(s, v), Some(s.ref))
    ensures forall w | w in LookAll(s, vs) :: Shows(c.heap, c.nodes, w)
  {
    hide Fair, Shows, ShownAt, Look;
    forall w | w in LookAll(s, vs) ensures Shows(c.heap, c.nodes, w) {
      var k := IndexOf(LookAll(s, vs), w);
      MemberShown(c, s, vs[k]);
    }
  }

  lemma {:induction false} HolderApart(c: Client, s: Setting, vs: seq<VNode>)
    requires Valid(c) && Fair(s) && s.container in c.nodes && c.nodes[s.container] == s.ref
    requires forall v | v in vs :: v in s.all
    ensures s.ref !in Nodes(c, IdsOf(LookAll(s, vs)))
  {
    ForChanges.IdsUnlooked(s, vs);
    hide ProperAll;
    RootApart(c, s.container, IdsOf(LookAll(s, vs)));
  }

  lemma {:induction false} OneKeys(c: Client, op: Op, s: Setting, l: Line, c': Client)
    requires InLine(c, s, l) && Fair(s) && Able(l, op, s) && Does(c, op, s, c')
    ensures c'.nodes.Keys == KeysAfter(c.nodes.Keys, l, op)
  {
    hide InLine, Fair, IsInsertTree, ApplyAll, Built, Exchange, Without, Solid, ElemsOf;
    match op
    case Remove(x) =>
      hide Apply;
      RemoveKeys(c, s, l, x);
    case Clear =>
      hide Apply;
      ClearKeys(c, s, l);
    case Swap(a, b) =>
    case Move(x) =>
      var tag, attrs :| c' == Apply(c, InsertNode(x.id, s.container, 0, tag, attrs));
      MoveKeys(c, s, l, x, tag, attrs);
    case Insert(x) =>
      var msgs :| IsInsertTree(msgs, x, s.container) && c' == ApplyAll(c, msgs);
      ForChanges.InsertBuilds(c, s, l, x, msgs);
      ForChanges.BuiltParts(c, c', [Look(s, x)], Later(s.container));
      assert IdsOf([Look(s, x)]) == Ids(x) by { assert [Look(s, x)][1..] == []; }
    case Bulk(xs) =>
      ForChanges.BuiltParts(c, c', MountedAll(xs), Below(s.ref));
  }

  lemma MoveKeys(c: Client, s: Setting, l: Line, x: VNode, tag: Str, attrs: seq<(Str, Str)>)
    requires InLine(c, s, l) && Fair(s) && x in l.live
    ensures Apply(c, InsertNode(x.id, s.container, 0, tag, attrs)).nodes == c.nodes
  {
    hide *;
    ForSteps.LiveNotHolder(c, s, l, x);
    MoveNodes(c, x.id, s.container, tag, attrs);
  }

  lemma MoveNodes(c: Client, id: uint32, parent: uint32, tag: Str, attrs: seq<(Str, Str)>)
    requires id in c.nodes
    ensures Apply(c, InsertNode(id, parent, 0, tag, attrs)).nodes == c.nodes
  {
    hide FromPairs, Append, InsertBefore, Detach, Place, Create;
  }

  // ------------------------------------------------------------------ whole updates

  /** The ids of removed items, where `l` is left. */
  function Lost(had: set<VNode>, l: Line): set<uint32> {
    set v, id | v in had && v !in l.live + l.waiting && id in Solid(v) :: id
  }

  /** The ids of new items that are in line. */
  function Gained(had: set<VNode>, l: Line): set<uint32> {
    set v, id | v in l.live + l.waiting && v !in had && id in Ids(v) :: id
  }

  /** The registered ids are the old ones without those of removed items, and with those of new ones. */
  ghost predicate Keyed(keys: set<uint32>, keys': set<uint32>, s: Setting, l: Line) {
    keys' == keys - Lost(s.had, l) + Gained(s.had, l)
  }

  /** Removed, moved, swapped and inserted items keep it so. */
  lemma {:induction false} KeyedStep(keys: set<uint32>, keys': set<uint32>, s: Setting, l: Line, op: Op)
    requires Keyed(keys, keys', s, l) && Fair(s) && Able(l, op, s) && !op.Clear? && Members(s, l)
    requires forall v | v in s.had :: v in s.all
    ensures Keyed(keys, KeysAfter(keys', l, op), s, Step(l, op))
  {
    var l' := Step(l, op);
    hide Fair, Distinct, Solid;
    match op
    case Remove(x) =>
      RemovedLine(s, l, x);
    case Swap(a, b) =>
      ForSteps.LiveDistinct(l);
      Swaps.ExchangeDistinct(l.live, a, b);
      SameKeys(s.had, l, l');
    case Move(x) =>
      ForSteps.LastMembers(l, x);
      SameKeys(s.had, l, l');
    case Insert(x) =>
      InsertLine(s, l, x);
    case Bulk(xs) =>
      BulkLine(s, l, xs);
  }

  lemma {:induction false} InsertLine(s: Setting, l: Line, x: VNode)
    requires x !in s.had
    ensures var l' := Step(l, Op.Insert(x));
            Lost(s.had, l') == Lost(s.had, l) && Gained(s.had, l') == Gained(s.had, l) + Ids(x)
  {
    hide Solid, Ids;
    var l' := Step(l, Op.Insert(x));
    assert forall v :: v in l'.live + l'.waiting <==> v in l.live + l.waiting || v == x;
  }

  lemma {:induction false} SameKeys(had: set<VNode>, l: Line, l': Line)
    requires l'.waiting == l.waiting && forall v :: v in l'.live <==> v in l.live
    ensures Lost(had, l') == Lost(had, l) && Gained(had, l') == Gained(had, l)
  {
    hide Solid, Ids;
    assert forall v :: v in l'.live + l'.waiting <==> v in l.live + l.waiting;
  }

  lemma {:induction false} RemovedLine(s: Setting, l: Line, x: VNode)
    requires Fair(s) && Members(s, l) && x in l.live && x in s.had && forall v | v in s.had :: v in s.all
    ensures var l' := Step(l, Op.Remove(x));
            && Lost(s.had, l') == Lost(s.had, l) + Solid(x)
            && Gained(s.had, l') == Gained(s.had, l) && Gained(s.had, l) !! Solid(x)
  {
    var l' := Step(l, Op.Remove(x));
    ForSteps.LiveDistinct(l);
    WithoutDistinct(l.live, x);
    hide Distinct;
    assert forall v | v !in s.had :: v in l'.live + l'.waiting <==> v in l.live + l.waiting;
    SolidParts(x);
    forall id | id in Gained(s.had, l) ensures id !in Ids(x) {
      var v :| v in l.live + l.waiting && v !in s.had && id in Ids(v);
      Disjoint(s.all, v, x);
    }
    hide Solid, Fair;
    assert forall v :: v in s.had && v !in l'.live + l'.waiting <==> (v in s.had && v !in l.live + l.waiting) || v == x;
  }

  lemma {:induction false} BulkLine(s: Setting, l: Line, xs: seq<VNode>)
    requires forall x | x in xs :: x !in s.had
    ensures var l' := Step(l, Op.Bulk(xs));
            Lost(s.had, l') == Lost(s.had, l) && Gained(s.had, l') == Gained(s.had, l) + IdsOf(xs)
  {
    hide Solid;
    var l' := Step(l, Op.Bulk(xs));
    assert forall v | v in s.had :: v in l'.live + l'.waiting <==> v in l.live + l.waiting;
    forall id ensures id in Gained(s.had, l') <==> id in Gained(s.had, l) || id in IdsOf(xs) {
      if id in IdsOf(xs) {
        var x := IdsOfMember(xs, id);
        assert x in l'.live + l'.waiting;
      }
      if id in Gained(s.had, l') {
        var v :| v in l'.live + l'.waiting && v !in s.had && id in Ids(v);
        if v in xs {
          ForChanges.IdListed(xs, v);
        } else {
          assert v in l.live + l.waiting;
        }
      }
      if id in Gained(s.had, l) {
        var v :| v in l.live + l.waiting && v !in s.had && id in Ids(v);
        assert v in l'.live + l'.waiting;
      }
    }
  }

  lemma {:induction false} AllKeys(c: Client, ops: seq<Op>, s: Setting, l: Line, c': Client, keys: set<uint32>)
    requires InLine(c, s, l) && Fair(s) && ForOnPage.AbleAll(l, ops, s) && ForOnPage.Carries(c, ops, s, c')
    requires (forall i | 0 <= i < |ops| :: !ops[i].Clear?) && forall v | v in s.had :: v in s.all
    requires Keyed(keys, c.nodes.Keys, s, l)
    ensures Keyed(keys, c'.nodes.Keys, s, Steps(l, ops))
    decreases ops
  {
    hide InLine, Fair, Able, Does, Step, Keyed, KeysAfter, Elsewhere;
    if ops != [] {
      var c1 :| Does(c, ops[0], s, c1) && ForOnPage.Carries(c1, ops[1..], s, c');
      ForOnPage.OneOperation(c, ops[0], s, l, c1);
      OneKeys(c, ops[0], s, l, c1);
      LineMembers(c, s, l);
      KeyedStep(keys, c.nodes.Keys, s, l, ops[0]);
      AllKeys(c1, ops[1..], s, Step(l, ops[0]), c', keys);
    }
  }

  lemma LineMembers(c: Client, s: Setting, l: Line)
    requires InLine(c, s, l)
    ensures Members(s, l)
  {
  }

  /** The ids that removing the items of `old_` that are not in `next` forgets: theirs and those of their elements. */
  function Forgotten(old_: seq<VNode>, next: seq<VNode>): set<uint32> {
    set v, id | v in old_ && v !in next && id in Solid(v) :: id
  }

  /** All ids of the items of `next` that are not in `old_`. */
  function Learnt(old_: seq<VNode>, next: seq<VNode>): set<uint32> {
    set v, id | v in next && v !in old_ && id in Ids(v) :: id
  }

  /** Without an empty new list nothing is cleared. */
  lemma {:induction false} NoClears(old_: seq<VNode>, next: seq<VNode>, ops: seq<Op>, marks: seq<bool>, cut: nat)
    requires IsUpdate(ops, old_, next, marks, cut) && !(next == [] && old_ != [])
    ensures forall i | 0 <= i < |ops| :: !ops[i].Clear?
  {
    hide *;
    UpdateMarked(old_, next, ops, marks, cut);
    Bulks.UpdateParts(old_, next, ops, marks, cut);
    NoClearsBehind(next, Common(old_, next), marks);
    OnlyRemoved(ops[..cut], old_, next);
    assert ops == ops[..cut] + ops[cut..];
    forall i | 0 <= i < |ops| ensures !ops[i].Clear? {
      if i < cut {
        assert ops[i] == ops[..cut][i];
      } else {
        assert ops[i] == ops[cut..][i - cut];
      }
    }
  }

  lemma OnlyRemoved(ops: seq<Op>, old_: seq<VNode>, next: seq<VNode>)
    requires IsRemoval(ops, old_, next) && !(next == [] && old_ != [])
    ensures forall i | 0 <= i < |ops| :: !ops[i].Clear?
  {
    hide Distinct;
  }

  lemma {:induction false} NoClearsBehind(next: seq<VNode>, known: seq<VNode>, marks: seq<bool>)
    requires |Common(next, known)| == |marks|
    ensures forall i | 0 <= i < |Reorder(next, known, marks)| :: !Reorder(next, known, marks)[i].Clear?
  {
    NoClearsRebuilt(next, Kinds(next, known, marks), []);
    hide Common, Kinds, Rebuild;
  }

  lemma {:induction false} NoClearsRebuilt(next: seq<VNode>, kinds: seq<Kind>, bulk: seq<VNode>)
    requires |kinds| == |next|
    ensures forall i | 0 <= i < |Rebuild(next, kinds, bulk)| :: !Rebuild(next, kinds, bulk)[i].Clear?
    decreases next
  {
    if next != [] {
      NoClearsRebuilt(next[1..], kinds[1..],
        match kinds[0] case Kept => bulk case New => bulk + [next[0]] case Moved => []);
    }
  }

  /**
   After any list update the client's registry has exactly the ids it had, without
   those that removed items give up, and with all those of new items. Removed one by
   one, an item gives up its own id and those of its elements; cleared all at once,
   only those of its elements.
   */
  lemma {:induction false} UpdateRegistry(c: Client, id: uint32, all: seq<VNode>, old_: seq<VNode>, next: seq<VNode>,
                                          ops: seq<Op>, marks: seq<bool>, cut: nat, c1: Client)
    requires InSync(c, id, old_) && ProperAll(all) && id !in IdsOf(all) && Distinct(old_) && Distinct(next)
    requires forall x :: x in all <==> x in old_ || x in next
    requires forall x | x in next && x !in old_ :: Ids(x) !! c.nodes.Keys
    requires IsUpdate(ops, old_, next, marks, cut)
    requires ForOnPage.Carries(Begin(c), ops, UpdateSetting(c, id, all, old_, ops), c1)
    ensures c1.depth == 1
    ensures End(c1).nodes.Keys
            == if next == [] then c.nodes.Keys - ElemsOf(old_)
               else c.nodes.Keys - Forgotten(old_, next) + Learnt(old_, next)
  {
    var s := UpdateSetting(c, id, all, old_, ops);
    hide *;
    UpdateStart(c, id, all, old_, next, ops, marks, cut);
    SettingMembers(c, id, all, old_, next, ops);
    UpdateOnPage(c, id, all, old_, next, ops, marks, cut, c1);
    EndNodes(c1);
    KeysCarried(c, s, old_, next, ops, marks, cut, c1);
  }

  lemma {:induction false} KeysCarried(c: Client, s: Setting, old_: seq<VNode>, next: seq<VNode>, ops: seq<Op>,
                                       marks: seq<bool>, cut: nat, c1: Client)
    requires InLine(Begin(c), s, Line(old_, [])) && Fair(s) && ForOnPage.AbleAll(Line(old_, []), ops, s)
    requires ForOnPage.Carries(Begin(c), ops, s, c1) && IsUpdate(ops, old_, next, marks, cut)
    requires Distinct(old_) && Distinct(next) && s.had == ToSet(old_) && forall v | v in s.had :: v in s.all
    ensures c1.nodes.Keys
            == if next == [] then c.nodes.Keys - ElemsOf(old_)
               else c.nodes.Keys - Forgotten(old_, next) + Learnt(old_, next)
  {
    hide *;
    if next == [] && old_ != [] {
      ClearedKeys(c, s, old_, next, ops, marks, cut, c1);
    } else {
      BeginNodes(c);
      NoClears(old_, next, ops, marks, cut);
      StartKeyed(c.nodes.Keys, s, old_);
      AllKeys(Begin(c), ops, s, Line(old_, []), c1, c.nodes.Keys);
      ReconcileOrder.UpdatePermutes(old_, next, ops, marks, cut);
      ForAgreement.SameMembers(Replay(old_, ops), next);
      EndKeyed(c.nodes.Keys, c1.nodes.Keys, s, old_, next, ops);
      if next == [] {
        NothingForgotten();
      }
    }
  }

  lemma NothingForgotten()
    ensures Forgotten([], []) == {} && Learnt([], []) == {} && ElemsOf([]) == {}
  {
  }

  lemma SettingMembers(c: Client, id: uint32, all: seq<VNode>, old_: seq<VNode>, next: seq<VNode>, ops: seq<Op>)
    requires id in c.nodes && forall x :: x in all <==> x in old_ || x in next
    ensures var s := UpdateSetting(c, id, all, old_, ops);
            s.had == ToSet(old_) && s.container == id && forall v | v in s.had :: v in s.all
  {
  }

  lemma EndNodes(c: Client)
    requires c.depth == 1
    ensures End(c).nodes == c.nodes
  {
    SettleAllKeeps(c.(depth := 0), c.deferred);
  }

  lemma BeginNodes(c: Client)
    ensures Begin(c).nodes == c.nodes
  {
  }

  lemma StartKeyed(keys: set<uint32>, s: Setting, old_: seq<VNode>)
    requires s.had == ToSet(old_)
    ensures Keyed(keys, keys, s, Line(old_, []))
  {
    hide Solid, Ids;
    assert Lost(s.had, Line(old_, [])) == {};
    assert Gained(s.had, Line(old_, [])) == {};
  }

  lemma {:induction false} EndKeyed(keys: set<uint32>, keys': set<uint32>, s: Setting, old_: seq<VNode>,
                                    next: seq<VNode>, ops: seq<Op>)
    requires Keyed(keys, keys', s, Steps(Line(old_, []), ops)) && s.had == ToSet(old_)
    requires forall x :: x in Replay(old_, ops) <==> x in next
    ensures keys' == keys - Forgotten(old_, next) + Learnt(old_, next)
  {
    hide Solid, Ids, Steps;
    var l := Steps(Line(old_, []), ops);
    assert forall v :: v in l.live + l.waiting <==> v in next;
    assert Lost(s.had, l) == Forgotten(old_, next);
    assert Gained(s.had, l) == Learnt(old_, next);
  }

  lemma {:induction false} ClearedKeys(c: Client, s: Setting, old_: seq<VNode>, next: seq<VNode>, ops: seq<Op>,
                                       marks: seq<bool>, cut: nat, c1: Client)
    requires IsUpdate(ops, old_, next, marks, cut) && next == [] && old_ != []
    requires InLine(Begin(c), s, Line(old_, [])) && Fair(s) && ForOnPage.Carries(Begin(c), ops, s, c1)
    ensures c1.nodes.Keys == c.nodes.Keys - ElemsOf(old_)
  {
    hide *;
    OneClear(old_, next, ops, marks, cut);
    OneCarried(Begin(c), ops, s, c1);
    ClearKeys(Begin(c), s, Line(old_, []));
    BeginNodes(c);
  }

  lemma {:induction false} OneClear(old_: seq<VNode>, next: seq<VNode>, ops: seq<Op>, marks: seq<bool>, cut: nat)
    requires IsUpdate(ops, old_, next, marks, cut) && next == [] && old_ != []
    ensures ops == [Op.Clear]
  {
    hide *;
    UpdateMarked(old_, next, ops, marks, cut);
    Bulks.UpdateParts(old_, next, ops, marks, cut);
    NothingReordered(Common(old_, next), marks);
    AllAtOnce(ops[..cut], old_);
    assert ops == ops[..cut] + ops[cut..];
  }

  lemma NothingReordered(known: seq<VNode>, marks: seq<bool>)
    requires |Common([], known)| == |marks|
    ensures Reorder([], known, marks) == []
  {
  }

  lemma AllAtOnce(ops: seq<Op>, old_: seq<VNode>)
    requires IsRemoval(ops, old_, []) && old_ != []
    ensures ops == [Op.Clear]
  {
  }

  lemma OneCarried(c: Client, ops: seq<Op>, s: Setting, c1: Client)
    requires ops == [Op.Clear] && ForOnPage.Carries(c, ops, s, c1)
    ensures c1 == Apply(c, ClearChildren(s.container))
  {
    hide Apply;
    assert ops[1..] == [];
  }

  /** In particular no element of a removed item stays registered. */
  lemma {:induction false} RemovedForgotten(c: Client, id: uint32, all: seq<VNode>, old_: seq<VNode>,
                                            next: seq<VNode>, ops: seq<Op>, marks: seq<bool>, cut: nat, c1: Client,
                                            v: VNode)
    requires InSync(c, id, old_) && ProperAll(all) && id !in IdsOf(all) && Distinct(old_) && Distinct(next)
    requires forall x :: x in all <==> x in old_ || x in next
    requires forall x | x in next && x !in old_ :: Ids(x) !! c.nodes.Keys
    requires IsUpdate(ops, old_, next, marks, cut) && v in old_ && v !in next
    requires ForOnPage.Carries(Begin(c), ops, UpdateSetting(c, id, all, old_, ops), c1)
    ensures c1.depth == 1 && Elems(v) !! End(c1).nodes.Keys
  {
    UpdateRegistry(c, id, all, old_, next, ops, marks, cut, c1);
    hide ForOnPage.Carries, IsUpdate, InSync, Distinct, End, IdsOf;
    SolidParts(v);
    ElemListed(old_, v);
    forall i | i in Elems(v) ensures i !in Learnt(old_, next) {
      if i in Learnt(old_, next) {
        var x :| x in next && x !in old_ && i in Ids(x);
        Disjoint(all, x, v);
      }
    }
    hide Elems, ElemsOf, Solid;
    assert Solid(v) <= Forgotten(old_, next);
  }

  // --------------------------------------------------------- one update after another

  /** One update: the new children, all nodes it is about, what it queues and what it writes. */
  datatype Update = Update(next: seq<VNode>, all: seq<VNode>, ops: seq<Op>, marks: seq<bool>, cut: nat, msgs: seq<Msg>)

  /** An update that may come next, where `used` are the ids given out so far. */
  ghost predicate Possible(id: uint32, old_: seq<VNode>, used: set<uint32>, u: Update) {
    && ProperAll(u.all) && id !in IdsOf(u.all) && Distinct(u.next)
    && (forall x :: x in u.all <==> x in old_ || x in u.next)
    && (forall x | x in u.next && x !in old_ :: Ids(x) !! used && ForAgreement.StyleFree(x))
    && IsUpdate(u.ops, old_, u.next, u.marks, u.cut) && WritesAll(u.msgs, u.ops, id)
  }

  /** Updates one after the other, every new item with ids that were never used before. */
  ghost predicate Updates(id: uint32, old_: seq<VNode>, used: set<uint32>, us: seq<Update>)
    decreases us
  {
    us == [] ||
    (Possible(id, old_, used, us[0]) && Updates(id, us[0].next, used + IdsOf(us[0].all), us[1..]))
  }

  function AfterUpdates(c: Client, us: seq<Update>): Client
    decreases us
  {
    if us == [] then c else AfterUpdates(Process(c, us[0].msgs), us[1..])
  }

  /** The children of a list after all updates. */
  function LastOf(old_: seq<VNode>, us: seq<Update>): seq<VNode> {
    if us == [] then old_ else us[|us| - 1].next
  }

  /** Every update replays in the right order. */
  ghost predicate InOrder(old_: seq<VNode>, us: seq<Update>)
    decreases us
  {
    us == [] || (Replay(old_, us[0].ops) == us[0].next && InOrder(us[0].next, us[1..]))
  }

  lemma {:induction false} OneUpdate(c: Client, id: uint32, old_: seq<VNode>, used: set<uint32>, u: Update)
    requires InSync(c, id, old_) && Distinct(old_) && c.nodes.Keys <= used && Possible(id, old_, used, u)
    ensures InSync(Process(c, u.msgs), id, u.next) <==> Replay(old_, u.ops) == u.next
    ensures Process(c, u.msgs).nodes.Keys <= used + IdsOf(u.all)
  {
    assert forall x | x in u.next && x !in old_ :: Ids(x) !! c.nodes.Keys;
    assert id in c.nodes;
    hide InSync, IsUpdate, WritesAll, Process, Replay, ProperAll, ForAgreement.StyleFree, Distinct, Ids, IdsOf,
         UpdateSetting;
    ForAgreement.AgreesIff(c, id, u.all, old_, u.next, u.ops, u.marks, u.cut, u.msgs);
    var s := UpdateSetting(c, id, u.all, old_, u.ops);
    SettingMembers(c, id, u.all, old_, u.next, u.ops);
    StreamCarries(Begin(c), u.msgs, u.ops, s);
    UpdateRegistry(c, id, u.all, old_, u.next, u.ops, u.marks, u.cut, ApplyAll(Begin(c), u.msgs));
    ProcessIs(c, u.msgs);
    hide *;
    LearntWithin(u.all, old_, u.next);
  }

  lemma {:induction false} LearntWithin(all: seq<VNode>, old_: seq<VNode>, next: seq<VNode>)
    requires forall x | x in next :: x in all
    ensures Learnt(old_, next) <= IdsOf(all)
  {
    forall i | i in Learnt(old_, next) ensures i in IdsOf(all) {
      var x :| x in next && x !in old_ && i in Ids(x);
      ForChanges.IdListed(all, x);
    }
  }

  /**
   Over every run of updates of style-free items: as long as each one replays in the
   right order, the client is in sync with the list after all of them.
   */
  lemma {:induction false} RunInSync(c: Client, id: uint32, old_: seq<VNode>, used: set<uint32>, us: seq<Update>)
    requires InSync(c, id, old_) && Distinct(old_) && c.nodes.Keys <= used
    requires Updates(id, old_, used, us) && InOrder(old_, us)
    ensures InSync(AfterUpdates(c, us), id, LastOf(old_, us))
    decreases us
  {
    hide InSync, Process, Replay, IdsOf, Distinct;
    if us != [] {
      var u := us[0];
      OneUpdate(c, id, old_, used, u);
      assert Distinct(u.next);
      hide Possible;
      RunInSync(Process(c, u.msgs), id, u.next, used + IdsOf(u.all), us[1..]);
    }
  }

  /** After such a run, one more update leaves the client in sync if and only if it replays in the right order, too. */
  lemma {:induction false} RunThenIff(c: Client, id: uint32, old_: seq<VNode>, used: set<uint32>, us: seq<Update>)
    requires InSync(c, id, old_) && Distinct(old_) && c.nodes.Keys <= used && us != []
    requires Updates(id, old_, used, us) && InOrder(old_, us[..|us| - 1])
    ensures var u := us[|us| - 1];
            InSync(AfterUpdates(c, us), id, u.next) <==> Replay(LastOf(old_, us[..|us| - 1]), u.ops) == u.next
    decreases us
  {
    hide *;
    var u := us[0];
    FirstOf(c, id, old_, used, us);
    OneUpdate(c, id, old_, used, u);
    NextDistinct(id, old_, used, u);
    if |us| > 1 {
      RunThenIff(Process(c, u.msgs), id, u.next, used + IdsOf(u.all), us[1..]);
    }
  }

  lemma NextDistinct(id: uint32, old_: seq<VNode>, used: set<uint32>, u: Update)
    requires Possible(id, old_, used, u)
    ensures Distinct(u.next)
  {
  }

  /** The first update of a run, and the others. */
  lemma FirstOf(c: Client, id: uint32, old_: seq<VNode>, used: set<uint32>, us: seq<Update>)
    requires us != [] && Updates(id, old_, used, us) && InOrder(old_, us[..|us| - 1])
    ensures var u := us[0];
            && Possible(id, old_, used, u) && Updates(id, u.next, used + IdsOf(u.all), us[1..])
            && AfterUpdates(c, us) == AfterUpdates(Process(c, u.msgs), us[1..])
            && (|us| == 1 ==> AfterUpdates(c, us) == Process(c, u.msgs) && LastOf(old_, us[..0]) == old_)
            && (|us| > 1 ==>
                  && Replay(old_, u.ops) == u.next && InOrder(u.next, us[1..][..|us| - 2])
                  && LastOf(old_, us[..|us| - 1]) == LastOf(u.next, us[1..][..|us| - 2]))
  {
    hide Possible, Process, Replay, IdsOf;
    if |us| > 1 {
      var front := us[..|us| - 1];
      assert front[0] == us[0] && front[1..] == us[1..][..|us| - 2];
    }
  }
}
