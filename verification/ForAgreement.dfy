module ForAgreement {
  // When the client agrees with the server after a list update: an exact
  // condition on the update alone.

  import opened Seqs
  import opened Wire
  import opened Dom
  import opened Client
  import opened Trees
  import opened Emission
  import opened Reconcile
  import ReconcileReplay
  import ReconcileOrder
  import ForOnPage
  import SwapPath
  import Seen
  import opened ForClient
  import opened ForUpdate

  /** Trees without styles look the same however they are sent. */
  ghost predicate StyleFree(v: VNode) {
    Unstyled(v) == v
  }

  lemma {:induction false} StyleFreeMounted(v: VNode)
    requires StyleFree(v)
    ensures Mounted(v) == v
    decreases v
  {
    if v.VElem? {
      assert UnstyledAll(v.children) == v.children && v.styles == map[];
      StyleFreeMountedAll(v.children);
      assert NonEmpty(v.styles) == map[];
    }
  }

  lemma {:induction false} StyleFreeMountedAll(vs: seq<VNode>)
    requires UnstyledAll(vs) == vs
    ensures MountedAll(vs) == vs
    decreases vs
  {
    if vs != [] {
      assert UnstyledAll(vs)[0] == vs[0] && UnstyledAll(vs)[1..] == vs[1..];
      StyleFreeMounted(vs[0]);
      StyleFreeMountedAll(vs[1..]);
    }
  }

  /** A new node reaches the browser as it is: alone without styles, in bulk without empty ones. */
  ghost predicate Conveyed(ops: seq<Op>, v: VNode) {
    if v in InBulks(ops) then Mounted(v) == v else StyleFree(v)
  }

  /** Distinct nodes of one registry are told apart by their references. */
  lemma {:induction false} RefsTell(c: Client, all: seq<VNode>, vs: seq<VNode>, ws: seq<VNode>)
    requires Valid(c) && ProperAll(all)
    requires (forall v | v in vs :: v in all && v.id in c.nodes) && (forall w | w in ws :: w in all && w.id in c.nodes)
    requires Refs(c.nodes, vs) == Refs(c.nodes, ws)
    ensures vs == ws
  {
    assert |vs| == |Refs(c.nodes, vs)| == |ws|;
    hide ProperAll;
    forall i | 0 <= i < |vs| ensures vs[i] == ws[i] {
      assert Refs(c.nodes, vs)[i] == Refs(c.nodes, ws)[i];
      assert vs[i] in vs && ws[i] in ws;
      if vs[i] != ws[i] {
        Disjoint(all, vs[i], ws[i]);
      }
    }
  }

  /**
   The client is in sync with the server's new children if and only if the replay
   has their order and every new node is conveyed whole: sent alone it has no
   styles, sent in bulk it has none that are empty.
   */
  lemma {:induction false} PageAgreesIff(c: Client, id: uint32, all: seq<VNode>, old_: seq<VNode>, next: seq<VNode>,
                                         ops: seq<Op>, marks: seq<bool>, cut: nat, c1: Client)
    requires InSync(c, id, old_) && ProperAll(all) && id !in IdsOf(all) && Distinct(old_) && Distinct(next)
    requires forall x :: x in all <==> x in old_ || x in next
    requires forall x | x in next && x !in old_ :: Ids(x) !! c.nodes.Keys
    requires IsUpdate(ops, old_, next, marks, cut)
    requires ForOnPage.Carries(Begin(c), ops, UpdateSetting(c, id, all, old_, ops), c1)
    ensures c1.depth == 1
    ensures InSync(End(c1), id, next)
            <==> Replay(old_, ops) == next && forall x | x in next && x !in old_ :: Conveyed(ops, x)
  {
    ReconcileOrder.UpdatePermutes(old_, next, ops, marks, cut);
    SameMembers(Replay(old_, ops), next);
    UpdateOnPage(c, id, all, old_, next, ops, marks, cut, c1);
    var s := UpdateSetting(c, id, all, old_, ops);
    SettingHad(c, id, all, old_, ops);
    assert id in c.nodes && s.had == ToSet(old_) && s.all == all;
    hide IsUpdate, ForOnPage.Carries, UpdateSetting, Replay, RestKept, IdsOf, Ids, InSync, ShownAt, Valid, Look,
         Distinct, ProperAll, InBulks, Conveyed, Begin;
    EndDepth(c1);
    hide End;
    LineAgrees(End(c1), id, s, all, Replay(old_, ops), next);
    forall x | x in next ensures Look(s, x) == x <==> x in old_ || Conveyed(ops, x) {
      LookIs(s, ops, x);
    }
  }

  lemma {:induction false} EndDepth(c: Client)
    requires c.depth == 1
    ensures End(c).depth == 0
  {
    SettleAllKeeps(c.(depth := 0), c.deferred);
  }

  lemma {:induction false} LookIs(s: Setting, ops: seq<Op>, x: VNode)
    requires s.bulk == InBulks(ops)
    ensures Look(s, x) == x <==> x in s.had || Conveyed(ops, x)
  {
  }

  /** A container that shows `line` shows `next` exactly when they are the same and look the same. */
  lemma {:induction false} LineAgrees(c: Client, id: uint32, s: Setting, all: seq<VNode>, line: seq<VNode>,
                                      next: seq<VNode>)
    requires Valid(c) && c.depth == 0 && id in c.nodes && c.nodes[id] == s.ref && ProperAll(all)
    requires Kids(c.heap, s.ref) == Refs(c.nodes, line)
    requires (forall x :: x in line <==> x in next) && forall x | x in next :: x in all
    requires forall v | v in line :: ShownAt(c, Look(s, v), Some(s.ref))
    ensures InSync(c, id, next) <==> line == next && forall x | x in next :: Look(s, x) == x
  {
    forall v | v in line ensures v.id in c.nodes {
      ShownRegistered(c, Look(s, v), Some(s.ref));
    }
    hide ProperAll, Look;
    if InSync(c, id, next) {
      hide ShownAt;
      RefsTell(c, all, line, next);
      forall x | x in next ensures Look(s, x) == x {
        assert ShownAt(c, x, Some(s.ref)) && ShownAt(c, Look(s, x), Some(s.ref));
        OneLook(c, x, Look(s, x), Some(s.ref));
      }
    }
  }

  lemma {:induction false} OneLook(c: Client, v: VNode, w: VNode, parent: Option<Ref>)
    requires Valid(c) && ShownAt(c, v, parent) && ShownAt(c, w, parent) && v.id == w.id
    ensures v == w
  {
    Seen.ShowsUnique(c, v, w);
  }

  /** The same for a stream without bulk inserts: the new nodes have to be style-free. */
  lemma {:induction false} AgreesIff(c: Client, id: uint32, all: seq<VNode>, old_: seq<VNode>, next: seq<VNode>,
                                     ops: seq<Op>, marks: seq<bool>, cut: nat, msgs: seq<Msg>)
    requires InSync(c, id, old_) && ProperAll(all) && id !in IdsOf(all) && Distinct(old_) && Distinct(next)
    requires forall x :: x in all <==> x in old_ || x in next
    requires forall x | x in next && x !in old_ :: Ids(x) !! c.nodes.Keys
    requires IsUpdate(ops, old_, next, marks, cut) && WritesAll(msgs, ops, id)
    ensures InSync(Process(c, msgs), id, next)
            <==> Replay(old_, ops) == next && forall x | x in next && x !in old_ :: StyleFree(x)
  {
    var s := UpdateSetting(c, id, all, old_, ops);
    StreamCarries(Begin(c), msgs, ops, s);
    NothingInBulk(msgs, ops, id);
    hide InSync, IsUpdate, WritesAll, UpdateSetting, Process, Replay, ForOnPage.Carries, Ids, IdsOf, StyleFree, InBulks;
    PageAgreesIff(c, id, all, old_, next, ops, marks, cut, ApplyAll(Begin(c), msgs));
    ProcessIs(c, msgs);
  }

  lemma {:induction false} NothingInBulk(msgs: seq<Msg>, ops: seq<Op>, container: uint32)
    requires WritesAll(msgs, ops, container)
    ensures InBulks(ops) == {}
    decreases ops
  {
    if ops != [] {
      var k :| 0 <= k <= |msgs| && Writes(msgs[..k], ops[0], container) && WritesAll(msgs[k..], ops[1..], container);
      NothingInBulk(msgs[k..], ops[1..], container);
    }
  }

  lemma SettingHad(c: Client, id: uint32, all: seq<VNode>, old_: seq<VNode>, ops: seq<Op>)
    requires id in c.nodes
    ensures var s := UpdateSetting(c, id, all, old_, ops);
            s.had == ToSet(old_) && s.bulk == InBulks(ops) && s.ref == c.nodes[id]
  {
  }

  lemma ShownRegistered(c: Client, v: VNode, parent: Option<Ref>)
    requires ShownAt(c, v, parent)
    ensures v.id in c.nodes
  {
  }

  /**
   Off the swap path the condition is about the order of kinds: the client agrees
   exactly when the new list has its kept nodes first, then moved ones and long
   runs of new ones, then the other new ones, and the new ones have no styles.
   */
  lemma {:induction false} AgreesIffAscending(c: Client, id: uint32, all: seq<VNode>, old_: seq<VNode>,
                                              next: seq<VNode>,
                                              ops: seq<Op>, marks: seq<bool>, cut: nat, msgs: seq<Msg>)
    requires InSync(c, id, old_) && ProperAll(all) && id !in IdsOf(all) && Distinct(old_) && Distinct(next)
    requires forall x :: x in all <==> x in old_ || x in next
    requires forall x | x in next && x !in old_ :: Ids(x) !! c.nodes.Keys
    requires IsUpdate(ops, old_, next, marks, cut) && WritesAll(msgs, ops, id)
    requires !TakesSwap(next, Common(old_, next), marks)
    ensures |Common(next, Common(old_, next))| == |marks|
    ensures InSync(Process(c, msgs), id, next)
            <==> ReconcileOrder.Ascending(Ranks(Kinds(next, Common(old_, next), marks)))
                 && forall x | x in next && x !in old_ :: StyleFree(x)
  {
    ReconcileOrder.UpdateOrder(old_, next, ops, marks, cut);
    hide InSync, IsUpdate, WritesAll, Process, Replay, TakesSwap, Common, ReconcileOrder.Ascending, Ranks, Kinds, Ids,
         IdsOf, StyleFree;
    AgreesIff(c, id, all, old_, next, ops, marks, cut, msgs);
  }

  lemma {:induction false} SameMembers(s: seq<VNode>, t: seq<VNode>)
    requires multiset(s) == multiset(t)
    ensures forall x :: x in s <==> x in t
  {
    assert forall x :: x in s <==> x in multiset(s);
    assert forall x :: x in t <==> x in multiset(t);
  }

  /** Two nodes at least three apart exchanged: one instruction, and the client agrees. */
  lemma {:induction false} SwapAgrees(c: Client, id: uint32, all: seq<VNode>, old_: seq<VNode>, next: seq<VNode>,
                                      ops: seq<Op>, marks: seq<bool>, cut: nat, msgs: seq<Msg>, i: nat, j: nat)
    requires InSync(c, id, old_) && ProperAll(all) && id !in IdsOf(all) && Distinct(old_)
    requires i < j < |old_| && j - i >= 3 && next == old_[i := old_[j]][j := old_[i]]
    requires forall x :: x in all <==> x in old_
    requires IsUpdate(ops, old_, next, marks, cut) && WritesAll(msgs, ops, id)
    ensures |msgs| == 1 && InSync(Process(c, msgs), id, next)
  {
    ReconcileOrder.SwapMembers(old_, next, i, j);
    ReconcileOrder.DistantSwap(old_, next, ops, marks, cut, i, j);
    hide InSync, IsUpdate, Process, Replay, ReconcileOrder.Ascending, Ids, IdsOf, Distinct;
    OneMessage(msgs, ops, id);
    AgreesIff(c, id, all, old_, next, ops, marks, cut, msgs);
  }

  lemma {:induction false} OneMessage(msgs: seq<Msg>, ops: seq<Op>, id: uint32)
    requires WritesAll(msgs, ops, id) && |ops| == 1 && ops[0].Swap?
    ensures |msgs| == 1
  {
    var k :| 0 <= k <= |msgs| && Writes(msgs[..k], ops[0], id) && WritesAll(msgs[k..], ops[1..], id);
    assert ops[1..] == [];
  }

  /**
   On the swap path the client agrees exactly when two surviving items at least
   three places apart have changed places, as the tie-break of lisIndices leaves it.
   */
  lemma {:induction false} SwapAgreesIff(c: Client, id: uint32, all: seq<VNode>, old_: seq<VNode>, next: seq<VNode>,
                                         ops: seq<Op>, marks: seq<bool>, cut: nat, msgs: seq<Msg>)
    requires InSync(c, id, old_) && ProperAll(all) && id !in IdsOf(all) && Distinct(old_) && Distinct(next)
    requires forall x :: x in all <==> x in old_ || x in next
    requires IsUpdate(ops, old_, next, marks, cut) && TieBroken(old_, next, marks) && WritesAll(msgs, ops, id)
    requires TakesSwap(next, Common(old_, next), marks)
    ensures InSync(Process(c, msgs), id, next)
            <==> exists i: nat, j: nat :: j >= i + 3 && SwapPath.Exchanged(Common(old_, next), next, i, j)
  {
    SwapPath.SwapRightIffFar(old_, next, ops, marks, cut);
    ReconcileOrder.AllKnown(next, Common(old_, next));
    assert forall x | x in next :: x in old_;
    hide InSync, IsUpdate, WritesAll, Process, Replay, TakesSwap, Common, TieBroken, SwapPath.Exchanged, Ids, IdsOf;
    AgreesIff(c, id, all, old_, next, ops, marks, cut, msgs);
  }

  /** One new node at the end: the order is right, but its styles are missing if it has any. */
  lemma {:induction false} StyledAppendDiffers(c: Client, id: uint32, all: seq<VNode>, old_: seq<VNode>, x: VNode,
                                               ops: seq<Op>, marks: seq<bool>, cut: nat, msgs: seq<Msg>)
    requires InSync(c, id, old_) && all == old_ + [x] && ProperAll(all) && id !in IdsOf(all) && Distinct(all)
    requires Ids(x) !! c.nodes.Keys
    requires IsUpdate(ops, old_, old_ + [x], marks, cut) && WritesAll(msgs, ops, id)
    ensures Replay(old_, ops) == old_ + [x]
    ensures InSync(Process(c, msgs), id, old_ + [x]) <==> StyleFree(x)
  {
    var next := old_ + [x];
    OldDistinct(old_, x);
    AppendKeeps(old_, x);
    hide InSync, IsUpdate, WritesAll, Process, Replay, Ids, IdsOf, StyleFree, ProperAll, Distinct,
         ReconcileOrder.KeepsThenAdds;
    ReconcileOrder.KeepsThenAddsInOrder(old_, next, ops, marks, cut, |old_|);
    AgreesIff(c, id, all, old_, next, ops, marks, cut, msgs);
  }

  lemma {:induction false} OldDistinct(old_: seq<VNode>, x: VNode)
    requires Distinct(old_ + [x])
    ensures Distinct(old_) && x !in old_
  {
    var s := old_ + [x];
    assert forall i | 0 <= i < |old_| :: s[i] == old_[i];
    assert s[|old_|] == x;
  }

  lemma {:induction false} AppendKeeps(old_: seq<VNode>, x: VNode)
    requires Distinct(old_) && x !in old_
    ensures ReconcileOrder.KeepsThenAdds(old_, old_ + [x], |old_|)
  {
    var next := old_ + [x];
    ReconcileOrder.CommonAll(old_, next);
    assert next[..|old_|] == old_;
  }
}
