/**
 A whole list update, from the queued operations to the page.
 */
module ForUpdate {
  import opened Seqs
  import opened Wire
  import opened Dom
  import opened Client
  import opened Trees
  import opened Emission
  import MoveScripts
  import opened Lis
  import opened Reconcile
  import opened ReconcileReplay
  import ReconcileOrder
  import opened ForClient
  import opened ForOnPage
  import ForChanges
  import ForSteps

  // ------------------------------------- the operations of an update all apply

  /** Nodes sent by bulk inserts. */
  function InBulks(ops: seq<Op>): set<VNode> {
    if ops == [] then {}
    else (if ops[0].Bulk? then ToSet(ops[0].nodes) else {}) + InBulks(ops[1..])
  }

  lemma {:induction false} InBulksSplit(a: seq<Op>, b: seq<Op>)
    ensures InBulks(a + b) == InBulks(a) + InBulks(b)
    decreases a
  {
    if a == [] {
      assert a + b == b;
    } else {
      assert (a + b)[1..] == a[1..] + b;
      InBulksSplit(a[1..], b);
    }
  }

  lemma {:induction false} NoBulks(ops: seq<Op>)
    requires forall i | 0 <= i < |ops| :: !ops[i].Bulk?
    ensures InBulks(ops) == {}
  {
    if ops != [] {
      NoBulks(ops[1..]);
    }
  }

  lemma {:induction false} BulkFlushed(bulk: seq<VNode>)
    ensures InBulks(FlushBulk(bulk)) == if |bulk| >= BULK_THRESHOLD then ToSet(bulk) else {}
  {
    if |bulk| >= BULK_THRESHOLD {
      assert FlushBulk(bulk)[1..] == [];
    } else {
      NoBulks(FlushBulk(bulk));
    }
  }

  /** Only new nodes are sent in bulk. */
  lemma {:induction false} BulksWithin(next: seq<VNode>, kinds: seq<Kind>, bulk: seq<VNode>)
    requires |kinds| == |next|
    ensures InBulks(Rebuild(next, kinds, bulk)) <= ToSet(bulk) + ToSet(next)
    decreases next
  {
    BulkFlushed(bulk);
    if next != [] {
      match kinds[0]
      case Kept => BulksWithin(next[1..], kinds[1..], bulk);
      case New => BulksWithin(next[1..], kinds[1..], bulk + [next[0]]);
      case Moved =>
        BulksWithin(next[1..], kinds[1..], []);
        MovedBulks(next, kinds, bulk);
    }
  }

  lemma {:induction false} MovedBulks(next: seq<VNode>, kinds: seq<Kind>, bulk: seq<VNode>)
    requires |kinds| == |next| && next != [] && kinds[0] == Moved
    ensures InBulks(Rebuild(next, kinds, bulk))
            == (if |bulk| >= BULK_THRESHOLD then ToSet(bulk) else {}) + InBulks(Rebuild(next[1..], kinds[1..], []))
  {
    hide InBulks, FlushBulk, ToSet;
    BulkFlushed(bulk);
    InBulksSplit(FlushBulk(bulk) + [Move(next[0])], Rebuild(next[1..], kinds[1..], []));
    InBulksSplit(FlushBulk(bulk), [Move(next[0])]);
    NoBulks([Move(next[0])]);
  }

  /** `x` is new and not in line yet. */
  ghost predicate Coming(l: Line, s: Setting, x: VNode) {
    x in s.all && x !in s.had && x !in l.live && x !in l.waiting
  }

  lemma {:induction false} InsertsAble(l: Line, xs: seq<VNode>, ops: seq<Op>, s: Setting)
    requires ops == seq(|xs|, i requires 0 <= i < |xs| => Insert(xs[i]))
    requires Distinct(xs) && forall x | x in xs :: Coming(l, s, x) && x !in s.bulk
    ensures AbleAll(l, ops, s)
    decreases xs
  {
    if xs != [] {
      assert xs[0] in xs;
      forall x | x in xs[1..] ensures Coming(Step(l, ops[0]), s, x) && x !in s.bulk {
        assert x in xs && Coming(l, s, x);
      }
      InsertsAble(Step(l, ops[0]), xs[1..], ops[1..], s);
    }
  }

  lemma {:induction false} FlushAble(l: Line, bulk: seq<VNode>, s: Setting)
    requires Distinct(bulk) && forall x | x in bulk :: Coming(l, s, x)
    requires forall x | x in bulk :: x in s.bulk <==> |bulk| >= BULK_THRESHOLD
    ensures AbleAll(l, FlushBulk(bulk), s)
  {
    if |bulk| >= BULK_THRESHOLD {
      assert FlushBulk(bulk)[1..] == [];
    } else {
      InsertsAble(l, bulk, FlushBulk(bulk), s);
    }
  }

  /** What the rebuild loop still has to send can be sent. */
  ghost predicate Pending(l: Line, next: seq<VNode>, kinds: seq<Kind>, bulk: seq<VNode>, s: Setting)
    requires |kinds| == |next|
  {
    && Distinct(bulk) && Distinct(next) && (forall x | x in bulk :: x !in next)
    && (forall x | x in bulk :: Coming(l, s, x))
    && (forall i | 0 <= i < |next| && kinds[i] == New :: Coming(l, s, next[i]))
    && (forall i | 0 <= i < |next| && kinds[i] == Moved :: next[i] in l.live)
    && (forall x | x in bulk || x in next :: x in s.bulk <==> x in InBulks(Rebuild(next, kinds, bulk)))
  }

  lemma {:induction false} PendingMoved(l: Line, next: seq<VNode>, kinds: seq<Kind>, bulk: seq<VNode>, s: Setting)
    requires |kinds| == |next| && next != [] && kinds[0] == Moved && Pending(l, next, kinds, bulk, s)
    ensures forall x | x in bulk :: x in s.bulk <==> |bulk| >= BULK_THRESHOLD
    ensures Pending(Step(Steps(l, FlushBulk(bulk)), Move(next[0])), next[1..], kinds[1..], [], s)
  {
    var l1 := Steps(l, FlushBulk(bulk));
    var l2 := Step(l1, Move(next[0]));
    MovedBulks(next, kinds, bulk);
    BulksWithin(next[1..], kinds[1..], []);
    BulkReplay(l, bulk);
    hide InBulks, Rebuild, FlushBulk, Steps;
    forall i | 0 <= i < |next[1..]| && kinds[1..][i] == New ensures Coming(l2, s, next[1..][i]) {
      assert Coming(l, s, next[i + 1]);
    }
    forall i | 0 <= i < |next[1..]| && kinds[1..][i] == Moved ensures next[1..][i] in l2.live {
      assert next[i + 1] in l.live;
    }
  }

  lemma {:induction false} PendingNew(l: Line, next: seq<VNode>, kinds: seq<Kind>, bulk: seq<VNode>, s: Setting)
    requires |kinds| == |next| && next != [] && kinds[0] != Moved && Pending(l, next, kinds, bulk, s)
    ensures Pending(l, next[1..], kinds[1..], if kinds[0] == New then bulk + [next[0]] else bulk, s)
  {
    assert next[0] in next;
    hide InBulks;
    assert forall i | 0 <= i < |next[1..]| :: next[1..][i] == next[i + 1];
    assert forall i | 0 <= i < |next[1..]| :: kinds[1..][i] == kinds[i + 1];
    forall i | 0 <= i < |next[1..]| && kinds[1..][i] == New ensures Coming(l, s, next[1..][i]) {
      assert Coming(l, s, next[i + 1]);
    }
  }

  lemma {:induction false} RebuildAble(l: Line, next: seq<VNode>, kinds: seq<Kind>, bulk: seq<VNode>, s: Setting)
    requires |kinds| == |next| && Pending(l, next, kinds, bulk, s)
    ensures AbleAll(l, Rebuild(next, kinds, bulk), s)
    decreases next
  {
    if next == [] {
      BulkFlushed(bulk);
      FlushAble(l, bulk, s);
    } else if kinds[0] != Moved {
      PendingNew(l, next, kinds, bulk, s);
      hide Pending;
      RebuildAble(l, next[1..], kinds[1..], if kinds[0] == New then bulk + [next[0]] else bulk, s);
    } else {
      PendingMoved(l, next, kinds, bulk, s);
      FlushAble(l, bulk, s);
      MovedLive(l, next, kinds, bulk, s);
      hide Pending, AbleAll, FlushBulk, Steps, Step;
      RebuildAble(Step(Steps(l, FlushBulk(bulk)), Move(next[0])), next[1..], kinds[1..], [], s);
      MoveThen(l, FlushBulk(bulk), next[0], Rebuild(next[1..], kinds[1..], []), s);
    }
  }

  lemma {:induction false} MovedLive(l: Line, next: seq<VNode>, kinds: seq<Kind>, bulk: seq<VNode>, s: Setting)
    requires |kinds| == |next| && next != [] && kinds[0] == Moved && Pending(l, next, kinds, bulk, s)
    ensures next[0] in Steps(l, FlushBulk(bulk)).live
  {
    BulkReplay(l, bulk);
  }

  lemma {:induction false} MoveThen(l: Line, a: seq<Op>, x: VNode, b: seq<Op>, s: Setting)
    requires AbleAll(l, a, s) && x in Steps(l, a).live && AbleAll(Step(Steps(l, a), Move(x)), b, s)
    ensures AbleAll(l, a + [Move(x)] + b, s)
  {
    var l1 := Steps(l, a);
    assert ([Move(x)] + b)[1..] == b;
    assert AbleAll(l1, [Move(x)] + b, s);
    AbleSplit(l, a, [Move(x)] + b, s);
    assert a + ([Move(x)] + b) == a + [Move(x)] + b;
  }

  lemma {:induction false} RemovesAble(live: seq<VNode>, gone: seq<VNode>, ops: seq<Op>, s: Setting)
    requires ops == seq(|gone|, i requires 0 <= i < |gone| => Remove(gone[i]))
    requires Distinct(gone) && forall x | x in gone :: x in live && x in s.had
    ensures AbleAll(Line(live, []), ops, s)
    decreases gone
  {
    if gone != [] {
      assert gone[0] in gone;
      assert Step(Line(live, []), ops[0]) == Line(Without(live, gone[0]), []);
      RemovesAble(Without(live, gone[0]), gone[1..], ops[1..], s);
    }
  }

  lemma {:induction false} RemovalAble(ops: seq<Op>, old_: seq<VNode>, next: seq<VNode>, s: Setting)
    requires IsRemoval(ops, old_, next) && forall x | x in old_ :: x in s.had
    ensures AbleAll(Line(old_, []), ops, s) && InBulks(ops) == {}
  {
    if next == [] && old_ != [] {
      assert ops[1..] == [];
      NoBulks(ops);
    } else {
      var gone :| Distinct(gone) && (forall x :: x in gone <==> x in old_ && x !in next)
                  && ops == seq(|gone|, i requires 0 <= i < |gone| => Remove(gone[i]));
      RemovesAble(old_, gone, ops, s);
      NoBulks(ops);
    }
  }

  lemma {:induction false} KindsKnown(next: seq<VNode>, known: seq<VNode>, marks: seq<bool>)
    requires |Common(next, known)| == |marks|
    ensures forall i | 0 <= i < |next| :: Kinds(next, known, marks)[i] == New <==> next[i] !in known
    decreases next
  {
    if next != [] {
      KindsKnown(next[1..], known, if next[0] in known then marks[1..] else marks);
    }
  }

  lemma {:induction false} ReorderAble(old_: seq<VNode>, next: seq<VNode>, marks: seq<bool>, s: Setting)
    requires Distinct(next) && |Common(next, Common(old_, next))| == |marks|
    requires s.had == ToSet(old_) && forall x | x in next :: x in s.all
    requires s.bulk == InBulks(Reorder(next, Common(old_, next), marks))
    ensures AbleAll(Line(Common(old_, next), []), Reorder(next, Common(old_, next), marks), s)
  {
    var known := Common(old_, next);
    if TakesSwap(next, known, marks) {
      SwapAble(known, next, marks, s);
    } else {
      KindsReady(old_, next, marks, s);
      hide Kinds, Common, InBulks, Rebuild, TakesSwap, Pending;
      RebuildAble(Line(known, []), next, Kinds(next, known, marks), [], s);
    }
  }

  lemma {:induction false} SwapAble(known: seq<VNode>, next: seq<VNode>, marks: seq<bool>, s: Setting)
    requires Distinct(next) && |Common(next, known)| == |marks| && TakesSwap(next, known, marks)
    ensures AbleAll(Line(known, []), Reorder(next, known, marks), s)
  {
    ReconcileOrder.AllKnown(next, known);
    var out := Unmarked(marks);
    assert next[out[0]] in next && next[out[1]] in next;
    assert Reorder(next, known, marks)[1..] == [];
    hide Common;
  }

  lemma {:induction false} KindsReady(old_: seq<VNode>, next: seq<VNode>, marks: seq<bool>, s: Setting)
    requires Distinct(next) && |Common(next, Common(old_, next))| == |marks|
    requires s.had == ToSet(old_) && forall x | x in next :: x in s.all
    requires s.bulk == InBulks(Rebuild(next, Kinds(next, Common(old_, next), marks), []))
    ensures Pending(Line(Common(old_, next), []), next, Kinds(next, Common(old_, next), marks), [], s)
  {
    var known := Common(old_, next);
    var l, kinds := Line(known, []), Kinds(next, known, marks);
    KindsKnown(next, known, marks);
    hide Kinds, Common, InBulks, Rebuild, Distinct;
    forall i | 0 <= i < |next| && kinds[i] == New ensures Coming(l, s, next[i]) {
      NewComing(old_, next, s, next[i]);
    }
  }

  lemma NewComing(old_: seq<VNode>, next: seq<VNode>, s: Setting, x: VNode)
    requires s.had == ToSet(old_) && x in next && x in s.all && x !in Common(old_, next)
    ensures Coming(Line(Common(old_, next), []), s, x)
  {
    hide Common;
  }

  /** Every operation of an update finds the nodes it names. */
  lemma {:induction false} UpdateAble(old_: seq<VNode>, next: seq<VNode>, ops: seq<Op>, marks: seq<bool>, cut: nat,
                                      s: Setting)
    requires Distinct(next) && IsUpdate(ops, old_, next, marks, cut)
    requires s.had == ToSet(old_) && s.bulk == InBulks(ops) && forall x | x in next :: x in s.all
    ensures AbleAll(Line(old_, []), ops, s)
  {
    hide IsRemoval, Reorder, Common, AbleAll, Steps, InBulks, IsLis, MoveScripts.Positions;
    var known := Common(old_, next);
    UpdateMarked(old_, next, ops, marks, cut);
    assert ops == ops[..cut] + ops[cut..];
    RemovalAble(ops[..cut], old_, next, s);
    RemovalReplay(ops[..cut], old_, next);
    InBulksSplit(ops[..cut], ops[cut..]);
    ReorderAble(old_, next, marks, s);
    AbleSplit(Line(old_, []), ops[..cut], ops[cut..], s);
  }

  lemma {:induction false} UpdateMarked(old_: seq<VNode>, next: seq<VNode>, ops: seq<Op>, marks: seq<bool>, cut: nat)
    requires IsUpdate(ops, old_, next, marks, cut)
    ensures |Common(next, Common(old_, next))| == |marks|
  {
  }

  // ------------------------------------------------------------------ the page

  /** The client is idle and its container `id` has exactly the children `vs`. */
  ghost predicate InSync(c: Client, id: uint32, vs: seq<VNode>) {
    && Valid(c) && c.depth == 0 && id in c.nodes
    && Kids(c.heap, c.nodes[id]) == Refs(c.nodes, vs)
    && forall v | v in vs :: ShownAt(c, v, Some(c.nodes[id]))
  }

  /** What an update's theorem is about. */
  function UpdateSetting(c: Client, id: uint32, all: seq<VNode>, old_: seq<VNode>, ops: seq<Op>): Setting
    requires id in c.nodes
  {
    Setting(id, c.nodes[id], all, ToSet(old_), InBulks(ops))
  }

  /** At the start of the batch the line is the old children. */
  lemma {:induction false} StartInLine(c: Client, s: Setting, old_: seq<VNode>)
    requires Fair(s) && InSync(c, s.container, old_) && c.nodes[s.container] == s.ref && Distinct(old_)
    requires forall x | x in old_ :: x in s.all && x in s.had
    requires forall x | x in s.all && x !in s.had :: Ids(x) !! c.nodes.Keys
    ensures InLine(Begin(c), s, Line(old_, []))
  {
    var b := Begin(c);
    hide ProperAll, IdsOf, Ids, Distinct;
    assert Valid(b);
    hide Valid;
    forall v | v in old_ ensures ShownAt(b, Look(s, v), Some(s.ref)) {
      assert ShownAt(c, v, Some(s.ref));
      ShownKept(c, b, v, Some(s.ref));
    }
    forall v | v in s.all && v !in s.had ensures Unseen(b, Ids(v)) {
      MemberOf(s.all, v);
    }
    assert old_ + [] == old_;
    assert Holder(b, s) && Row(b, s, old_) && PutOff(b, s, []);
  }

  lemma {:induction false} ShownKept(c: Client, b: Client, v: VNode, parent: Option<Ref>)
    requires ShownAt(c, v, parent) && b.heap == c.heap && b.nodes == c.nodes
    ensures ShownAt(b, v, parent)
  {
  }

  /** The end of the batch attaches what waits. */
  lemma {:induction false} EndInLine(c: Client, s: Setting, l: Line)
    requires InLine(c, s, l) && Fair(s) && c.depth == 1
    ensures var c' := End(c);
            && Valid(c') && c'.nodes == c.nodes
            && Kids(c'.heap, s.ref) == Refs(c'.nodes, l.live + l.waiting)
            && (forall v | v in l.live + l.waiting :: ShownAt(c', Look(s, v), Some(s.ref)))
            && (forall r | r in c.heap && r < c.next && r != s.ref && !Owned(c, s, r) ::
                  r in c'.heap && c'.heap[r] == c.heap[r])
  {
    var ds := DeferAll(l.waiting, s.container);
    var c1 := SettleAll(c, ds);
    SettleRow(c, s, l.live, l.waiting);
    SettleAllDepth(c, c.deferred, 0);
    SettleAllKeeps(c, ds);
    var c' := End(c);
    assert c'.heap == c1.heap && c'.nodes == c1.nodes && c'.next == c1.next;
    hide Fair, Owned, SettleAll, DeferAll, InLine, ShownAt, Look;
    RowDone(c1, c', s, l.live + l.waiting);
  }

  lemma {:induction false} RowDone(c1: Client, c': Client, s: Setting, live: seq<VNode>)
    requires Holder(c1, s) && Row(c1, s, live)
    requires c'.heap == c1.heap && c'.nodes == c1.nodes && c'.next == c1.next
    ensures Valid(c') && Kids(c'.heap, s.ref) == Refs(c'.nodes, live)
    ensures forall v | v in live :: ShownAt(c', Look(s, v), Some(s.ref))
  {
    hide Look;
    forall v | v in live ensures ShownAt(c', Look(s, v), Some(s.ref)) {
      ShownKept(c1, c', Look(s, v), Some(s.ref));
    }
  }

  /** Outside the container's child list and the nodes of the update, the page is as it was. */
  ghost predicate RestKept(c: Client, c': Client, s: Setting) {
    && (forall k | k in c.nodes && k !in IdsOf(s.all) :: k in c'.nodes && c'.nodes[k] == c.nodes[k])
    && (forall r | r in c.heap && r != s.ref && !Owned(c, s, r) :: r in c'.heap && c'.heap[r] == c.heap[r])
  }

  lemma {:induction false} RestThrough(c: Client, c1: Client, c': Client, s: Setting)
    requires Valid(c) && Elsewhere(Begin(c), c1, s) && c'.nodes == c1.nodes
    requires forall r | r in c1.heap && r < c1.next && r != s.ref && !Owned(c1, s, r) ::
               r in c'.heap && c'.heap[r] == c1.heap[r]
    ensures RestKept(c, c', s)
  {
    var b := Begin(c);
    assert forall r | r in c.heap :: r < c.next;
    hide Valid, IdsOf;
    forall r | r in c.heap && r != s.ref && !Owned(c, s, r) ensures r in c'.heap && c'.heap[r] == c.heap[r] {
      assert !Owned(b, s, r);
      assert r in c1.heap && c1.heap[r] == c.heap[r];
      assert !Owned(c1, s, r);
    }
  }

  /**
   A list update on an in-sync client: whatever operations the server may have
   queued for it, once the batch is done the container's children are the nodes of
   the abstract replay, in its order, each shown whole; the rest of the page and
   of the registry is untouched.
   */
  lemma {:induction false} UpdateOnPage(c: Client, id: uint32, all: seq<VNode>, old_: seq<VNode>, next: seq<VNode>,
                                        ops: seq<Op>, marks: seq<bool>, cut: nat, c1: Client)
    requires InSync(c, id, old_) && ProperAll(all) && id !in IdsOf(all) && Distinct(old_) && Distinct(next)
    requires forall x :: x in all <==> x in old_ || x in next
    requires forall x | x in next && x !in old_ :: Ids(x) !! c.nodes.Keys
    requires IsUpdate(ops, old_, next, marks, cut)
    requires Carries(Begin(c), ops, UpdateSetting(c, id, all, old_, ops), c1)
    ensures c1.depth == 1
    ensures var s := UpdateSetting(c, id, all, old_, ops);
            var c' := End(c1);
            && Valid(c') && id in c'.nodes && c'.nodes[id] == s.ref
            && Kids(c'.heap, s.ref) == Refs(c'.nodes, Replay(old_, ops))
            && (forall v | v in Replay(old_, ops) :: ShownAt(c', Look(s, v), Some(s.ref)))
            && RestKept(c, c', s)
  {
    var s := UpdateSetting(c, id, all, old_, ops);
    assert Valid(c) && c.depth == 0 && s.container == id;
    UpdateStart(c, id, all, old_, next, ops, marks, cut);
    hide IsUpdate, InLine, InSync, Carries, AbleAll, Elsewhere, Steps, Fair, IdsOf, InBulks, RestKept, ShownAt, Look,
         Valid, UpdateSetting, ProperAll, Distinct, Ids;
    AllOperations(Begin(c), ops, s, Line(old_, []), c1);
    LineOnPage(c, c1, s, Steps(Line(old_, []), ops));
  }

  lemma {:induction false} UpdateStart(c: Client, id: uint32, all: seq<VNode>, old_: seq<VNode>, next: seq<VNode>,
                                       ops: seq<Op>, marks: seq<bool>, cut: nat)
    requires InSync(c, id, old_) && ProperAll(all) && id !in IdsOf(all) && Distinct(old_) && Distinct(next)
    requires forall x :: x in all <==> x in old_ || x in next
    requires forall x | x in next && x !in old_ :: Ids(x) !! c.nodes.Keys
    requires IsUpdate(ops, old_, next, marks, cut)
    ensures var s := UpdateSetting(c, id, all, old_, ops);
            Fair(s) && InLine(Begin(c), s, Line(old_, [])) && AbleAll(Line(old_, []), ops, s)
  {
    var s := UpdateSetting(c, id, all, old_, ops);
    UpdateFair(c, id, all, old_, ops);
    SettingParts(c, id, all, old_, ops);
    hide *;
    StartInLine(c, s, old_);
    UpdateAble(old_, next, ops, marks, cut, s);
  }

  lemma SettingParts(c: Client, id: uint32, all: seq<VNode>, old_: seq<VNode>, ops: seq<Op>)
    requires id in c.nodes
    ensures var s := UpdateSetting(c, id, all, old_, ops);
            && s.container == id && s.ref == c.nodes[id] && s.all == all && s.bulk == InBulks(ops)
            && s.had == ToSet(old_) && forall x :: x in s.had <==> x in old_
  {
  }

  /** The end of the outermost batch, and what it leaves of the page. */
  lemma {:induction false} LineOnPage(c: Client, c1: Client, s: Setting, l: Line)
    requires Valid(c) && c.depth == 0 && Fair(s) && InLine(c1, s, l) && Elsewhere(Begin(c), c1, s)
    ensures c1.depth == 1
    ensures var c' := End(c1);
            && Valid(c') && s.container in c'.nodes && c'.nodes[s.container] == s.ref
            && Kids(c'.heap, s.ref) == Refs(c'.nodes, l.live + l.waiting)
            && (forall v | v in l.live + l.waiting :: ShownAt(c', Look(s, v), Some(s.ref)))
            && RestKept(c, c', s)
  {
    hide InLine, Elsewhere, Fair, RestKept, ShownAt, Look, Valid;
    DepthKept(c, c1, s);
    EndInLine(c1, s, l);
    HolderKept(c1, s, l);
    RestThrough(c, c1, End(c1), s);
  }

  lemma UpdateFair(c: Client, id: uint32, all: seq<VNode>, old_: seq<VNode>, ops: seq<Op>)
    requires id in c.nodes && ProperAll(all) && id !in IdsOf(all)
    ensures Fair(UpdateSetting(c, id, all, old_, ops))
  {
  }

  lemma {:induction false} DepthKept(c: Client, c1: Client, s: Setting)
    requires Elsewhere(Begin(c), c1, s)
    ensures c1.depth == Begin(c).depth
  {
  }

  lemma {:induction false} HolderKept(c: Client, s: Setting, l: Line)
    requires InLine(c, s, l)
    ensures s.container in c.nodes && c.nodes[s.container] == s.ref
  {
  }

  // --------------------------------------------------- the same, as a stream

  /** `msgs` is what one queued operation writes; bulk inserts are not written as plain instructions. */
  ghost predicate Writes(msgs: seq<Msg>, op: Op, container: uint32) {
    match op
    case Remove(x) => msgs == [RemoveNode(x.id)]
    case Clear => msgs == [ClearChildren(container)]
    case Swap(a, b) => msgs == [SwapNodes(a.id, b.id)]
    case Move(x) => |msgs| == 1 && msgs[0].InsertNode?
      && msgs[0] == InsertNode(x.id, container, 0, msgs[0].tag, msgs[0].attrs)
    case Insert(x) => IsInsertTree(msgs, x, container)
    case Bulk(_) => false
  }

  ghost predicate WritesAll(msgs: seq<Msg>, ops: seq<Op>, container: uint32)
    decreases ops
  {
    if ops == [] then msgs == []
    else exists k ::
          0 <= k <= |msgs| && Writes(msgs[..k], ops[0], container) && WritesAll(msgs[k..], ops[1..], container)
  }

  lemma {:induction false} StreamCarries(c: Client, msgs: seq<Msg>, ops: seq<Op>, s: Setting)
    requires WritesAll(msgs, ops, s.container)
    ensures Carries(c, ops, s, ApplyAll(c, msgs))
    decreases ops
  {
    hide Apply, IsInsertTree;
    if ops != [] {
      var k :| 0 <= k <= |msgs| && Writes(msgs[..k], ops[0], s.container)
        && WritesAll(msgs[k..], ops[1..], s.container);
      assert msgs == msgs[..k] + msgs[k..];
      ApplyAllSplit(c, msgs[..k], msgs[k..]);
      var c1 := ApplyAll(c, msgs[..k]);
      StreamDoes(c, msgs[..k], ops[0], s);
      hide Does;
      StreamCarries(c1, msgs[k..], ops[1..], s);
    }
  }

  lemma {:induction false} StreamDoes(c: Client, msgs: seq<Msg>, op: Op, s: Setting)
    requires Writes(msgs, op, s.container)
    ensures Does(c, op, s, ApplyAll(c, msgs))
  {
    hide Apply, IsInsertTree;
    if !op.Insert? {
      ApplyCons(c, msgs);
    }
  }

  /** The stream of one update without bulk inserts, processed by an idle client. */
  lemma {:induction false} UpdateStream(c: Client, id: uint32, all: seq<VNode>, old_: seq<VNode>, next: seq<VNode>,
                                        ops: seq<Op>, marks: seq<bool>, cut: nat, msgs: seq<Msg>)
    requires InSync(c, id, old_) && ProperAll(all) && id !in IdsOf(all) && Distinct(old_) && Distinct(next)
    requires forall x :: x in all <==> x in old_ || x in next
    requires forall x | x in next && x !in old_ :: Ids(x) !! c.nodes.Keys
    requires IsUpdate(ops, old_, next, marks, cut) && WritesAll(msgs, ops, id)
    ensures var s := UpdateSetting(c, id, all, old_, ops);
            var c' := Process(c, msgs);
            && Valid(c') && id in c'.nodes && c'.nodes[id] == s.ref
            && Kids(c'.heap, s.ref) == Refs(c'.nodes, Replay(old_, ops))
            && (forall v | v in Replay(old_, ops) :: ShownAt(c', Look(s, v), Some(s.ref)))
            && RestKept(c, c', s)
  {
    var s := UpdateSetting(c, id, all, old_, ops);
    StreamCarries(Begin(c), msgs, ops, s);
    var c1 := ApplyAll(Begin(c), msgs);
    UpdateOnPage(c, id, all, old_, next, ops, marks, cut, c1);
    hide *;
    assert Process(c, msgs) == End(c1) by { ProcessIs(c, msgs); }
  }

  lemma {:induction false} ProcessIs(c: Client, msgs: seq<Msg>)
    ensures Process(c, msgs) == End(ApplyAll(Begin(c), msgs))
  {
    hide ApplyAll;
  }
}
