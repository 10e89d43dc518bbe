module DiffPage {
  // A Diff received by the client as it is, with its deferred attachments.

  import opened Seqs
  import opened Ranges
  import opened Wire
  import opened Dom
  import opened Client
  import opened Trees
  import opened Emission
  import opened Dirty
  import opened Deferral
  import opened DeferralTheorem
  import opened Diffs
  import opened ForClient
  import opened DiffClient
  import opened DiffTree

  // -------------------------------------------------- a Diff is a fresh stream

  /** Ids in `texts` are those of the tree's text nodes. */
  ghost predicate Sorted(v: VNode, texts: set<uint32>)
    decreases v
  {
    match v
    case VText(id, _) => id in texts
    case VElem(id, _, _, _, children) => id !in texts && SortedAll(children, texts)
  }

  ghost predicate SortedAll(vs: seq<VNode>, texts: set<uint32>)
    decreases vs
  {
    vs == [] || (Sorted(vs[0], texts) && SortedAll(vs[1..], texts))
  }

  function Added(msgs: seq<Msg>): set<uint32> {
    if msgs == [] then {} else NewIds(msgs[0]) + Added(msgs[1..])
  }

  lemma {:induction false} FreshSplit(a: seq<Msg>, b: seq<Msg>, texts: set<uint32>, used: set<uint32>)
    requires FreshStream(a, texts, used) && FreshStream(b, texts, used + Added(a))
    ensures FreshStream(a + b, texts, used) && Added(a + b) == Added(a) + Added(b)
    decreases a
  {
    hide Plain, NewIds;
    if a == [] {
      assert a + b == b && used + {} == used;
    } else {
      assert (a + b)[1..] == a[1..] + b;
      assert used + NewIds(a[0]) + Added(a[1..]) == used + Added(a);
      FreshSplit(a[1..], b, texts, used + NewIds(a[0]));
    }
  }

  lemma {:induction false} FreshPlain(msgs: seq<Msg>, texts: set<uint32>, used: set<uint32>)
    requires forall m | m in msgs :: Plain(m, texts) && NewIds(m) == {}
    ensures FreshStream(msgs, texts, used) && Added(msgs) == {}
    decreases msgs
  {
    hide Plain, NewIds;
    if msgs != [] {
      assert msgs[0] in msgs;
      assert used + {} == used;
      FreshPlain(msgs[1..], texts, used);
    }
  }

  lemma {:induction false} FreshOne(m: Msg, texts: set<uint32>, used: set<uint32>)
    requires Plain(m, texts) && NewIds(m) !! used
    ensures FreshStream([m], texts, used) && Added([m]) == NewIds(m)
  {
    assert [m][1..] == [];
  }

  lemma {:induction false} InsertFresh(msgs: seq<Msg>, v: VNode, parent: uint32, texts: set<uint32>, used: set<uint32>)
    requires IsInsertTree(msgs, v, parent) && Proper(v) && Sorted(v, texts) && parent !in Ids(v) && parent !in texts
    requires Ids(v) !! used
    ensures FreshStream(msgs, texts, used) && Added(msgs) == Ids(v)
    decreases v
  {
    match v
    case VText(id, text) => FreshOne(msgs[0], texts, used); assert msgs == [msgs[0]];
    case VElem(id, _, _, _, children) =>
      assert msgs == [msgs[0]] + msgs[1..];
      FreshOne(msgs[0], texts, used);
      InsertAllFresh(msgs[1..], children, id, texts, used + {id});
      FreshSplit([msgs[0]], msgs[1..], texts, used);
  }

  lemma {:induction false} InsertAllFresh(msgs: seq<Msg>, vs: seq<VNode>, parent: uint32, texts: set<uint32>,
                                          used: set<uint32>)
    requires IsInsertForest(msgs, vs, parent) && ProperAll(vs) && SortedAll(vs, texts) && parent !in IdsOf(vs)
             && parent !in texts
    requires IdsOf(vs) !! used
    ensures FreshStream(msgs, texts, used) && Added(msgs) == IdsOf(vs)
    decreases vs
  {
    if vs != [] {
      var k :| 0 <= k <= |msgs| && IsInsertTree(msgs[..k], vs[0], parent) && IsInsertForest(msgs[k..], vs[1..], parent);
      assert msgs == msgs[..k] + msgs[k..];
      InsertFresh(msgs[..k], vs[0], parent, texts, used);
      InsertAllFresh(msgs[k..], vs[1..], parent, texts, used + Ids(vs[0]));
      hide IsInsertTree, IsInsertForest, FreshStream;
      FreshSplit(msgs[..k], msgs[k..], texts, used);
    }
  }

  /** Label changes. */
  ghost predicate Label(m: Msg) {
    m.SetAttr? || m.RemoveAttr? || m.SetStyle?
  }

  lemma {:induction false} SetLabels(id: uint32, entries: seq<(Str, Str)>)
    ensures forall m | m in SetOps(id, entries) :: Label(m)
    ensures forall m | m in StyleOps(id, entries) :: Label(m)
    decreases entries
  {
    if entries != [] {
      SetLabels(id, entries[..|entries| - 1]);
    }
  }

  lemma {:induction false} RemoveLabels(id: uint32, keys: seq<Str>)
    ensures forall m | m in RemoveOps(id, keys) :: Label(m)
    decreases keys
  {
    if keys != [] {
      RemoveLabels(id, keys[..|keys| - 1]);
    }
  }

  lemma {:induction false} OwnFresh(msgs: seq<Msg>, old_: VNode, next: VNode, texts: set<uint32>, used: set<uint32>)
    requires old_.VElem? && next.VElem? && IsOwnDiff(msgs, old_, next)
    ensures FreshStream(msgs, texts, used) && Added(msgs) == {}
  {
    OwnLabels(msgs, old_, next);
    FreshPlain(msgs, texts, used);
  }

  lemma {:induction false} OwnLabels(msgs: seq<Msg>, old_: VNode, next: VNode)
    requires old_.VElem? && next.VElem? && IsOwnDiff(msgs, old_, next)
    ensures forall m | m in msgs :: Label(m)
  {
    hide IsSets, IsRemoves, IsStyles, Label, Changed, Gone;
    var id := old_.id;
    var i, j :| 0 <= i <= j <= |msgs| && IsSets(msgs[..i], id, Changed(old_.attrs, next.attrs))
                && IsRemoves(msgs[i..j], id, Gone(old_.attrs, next.attrs))
                && IsStyles(msgs[j..], id, Changed(old_.styles, next.styles));
    PartsLabels(msgs[..i], msgs[i..j], msgs[j..], id, Changed(old_.attrs, next.attrs), Gone(old_.attrs, next.attrs),
                Changed(old_.styles, next.styles));
    assert msgs == msgs[..i] + msgs[i..j] + msgs[j..];
  }

  lemma {:induction false} PartsLabels(a: seq<Msg>, b: seq<Msg>, c: seq<Msg>, id: uint32, x: map<Str, Str>,
                                       y: map<Str, Str>,
                                       z: map<Str, Str>)
    requires IsSets(a, id, x) && IsRemoves(b, id, y) && IsStyles(c, id, z)
    ensures (forall m | m in a :: Label(m)) && (forall m | m in b :: Label(m)) && (forall m | m in c :: Label(m))
  {
    var o :| IsOrder(o, x) && (forall k | k in o :: k in x) && a == SetOps(id, Entries(o, x));
    var p :| IsOrder(p, y) && b == RemoveOps(id, p);
    var q :| IsOrder(q, z) && (forall k | k in q :: k in z) && c == StyleOps(id, Entries(q, z));
    SetLabels(id, Entries(o, x));
    RemoveLabels(id, p);
    SetLabels(id, Entries(q, z));
  }

  lemma {:induction false} DiffFresh(msgs: seq<Msg>, old_: VNode, next: VNode, texts: set<uint32>, used: set<uint32>)
    requires IsDiff(msgs, old_, next) && Compatible(old_, next) && Proper(next) && Sorted(next, texts)
    requires NewIn(old_, next) !! used
    ensures FreshStream(msgs, texts, used) && Added(msgs) == NewIn(old_, next)
    decreases old_
  {
    if old_.VText? {
      if msgs != [] {
        FreshOne(msgs[0], texts, used);
      }
    } else {
      var own, below := ElemSplit(old_, next, msgs);
      OwnFresh(own, old_, next, texts, used);
      assert used + {} == used;
      DiffAllFresh(below, old_.children, next.children, next.id, texts, used);
      hide IsDiff, FreshStream;
      FreshSplit(own, below, texts, used);
    }
  }

  lemma {:induction false} DiffAllFresh(msgs: seq<Msg>, olds: seq<VNode>, nexts: seq<VNode>, parent: uint32,
                                        texts: set<uint32>, used: set<uint32>)
    requires IsDiffAll(msgs, olds, nexts, parent) && CompatibleAll(olds, nexts) && ProperAll(nexts)
             && SortedAll(nexts, texts)
    requires NewAmong(olds, nexts) !! used && parent !in texts && parent !in IdsOf(nexts)
    ensures FreshStream(msgs, texts, used) && Added(msgs) == NewAmong(olds, nexts)
    decreases olds, |nexts|
  {
    if olds == [] && nexts == [] {
    } else if nexts == [] {
      FreshOne(msgs[0], texts, used);
      assert used + {} == used && msgs == [msgs[0]] + msgs[1..];
      DiffAllFresh(msgs[1..], olds[1..], [], parent, texts, used);
      FreshSplit([msgs[0]], msgs[1..], texts, used);
    } else if olds == [] {
      var k :| 0 <= k <= |msgs| && IsInsertTree(msgs[..k], nexts[0], parent)
        && IsDiffAll(msgs[k..], [], nexts[1..], parent);
      assert msgs == msgs[..k] + msgs[k..];
      InsertFresh(msgs[..k], nexts[0], parent, texts, used);
      assert NewAmong([], nexts[1..]) == IdsOf(nexts[1..]);
      DiffAllFresh(msgs[k..], [], nexts[1..], parent, texts, used + Ids(nexts[0]));
      hide IsDiffAll, FreshStream, IsInsertTree;
      FreshSplit(msgs[..k], msgs[k..], texts, used);
    } else {
      var front, tail := MatchSplit(olds, nexts, parent, msgs);
      NextIds(olds[0], nexts[0]);
      NextIdsAll(olds[1..], nexts[1..]);
      DiffFresh(front, olds[0], nexts[0], texts, used);
      DiffAllFresh(tail, olds[1..], nexts[1..], parent, texts, used + NewIn(olds[0], nexts[0]));
      hide IsDiffAll, IsDiff, FreshStream;
      FreshSplit(front, tail, texts, used);
    }
  }

  lemma {:induction false} FlattenFresh(msgs: seq<Msg>, texts: set<uint32>, used: set<uint32>)
    requires FreshStream(msgs, texts, used)
    ensures Flatten(msgs) == msgs
    decreases msgs
  {
    if msgs != [] {
      FlattenFresh(msgs[1..], texts, used + NewIds(msgs[0]));
      assert [msgs[0]] + msgs[1..] == msgs;
    }
  }

  // --------------------------------------------------------------------- the page

  /** The page consists of one tree, `w`, which is like `v`. */
  ghost predicate PageHolds(c: Client, w: VNode, v: VNode) {
    Holds(c, w, v, Some(ROOT)) && v.id in c.nodes && Kids(c.heap, ROOT) == [c.nodes[v.id]]
  }

  /**
   A Diff of compatible trees sent to a client whose page holds the old tree: at
   every depth the page looks like one that holds the next tree.
   */
  lemma {:induction false} DiffOnPage(c: Client, w: VNode, old_: VNode, next: VNode, msgs: seq<Msg>, texts: set<uint32>,
                                      used: set<uint32>, depth: nat) returns (shown: Client, w': VNode)
    requires Settled(c, texts, used) && PageHolds(c, w, old_)
    requires Proper(next) && Compatible(old_, next) && Sorted(next, texts) && NewIn(old_, next) !! used
    requires IsDiff(msgs, old_, next)
    ensures PageHolds(shown, w', next)
    ensures View(Process(c, msgs).heap, ROOT, depth) == View(shown.heap, ROOT, depth)
  {
    DiffFresh(msgs, old_, next, texts, used);
    FlattenFresh(msgs, texts, used);
    DeferralDoesNotShow(c, msgs, texts, used, depth);
    var i := AttachAtOnce(c);
    StartAtOnce(c, w, old_, texts, used);
    shown := ApplyAll(i, msgs);
    hide IsDiff, Settled, PageHolds, FreshStream, Sorted, Compatible, Proper, Holds, View, AtOnce, Within, AttachAtOnce;
    UsedKeys(c, texts, used);
    w' := TreeDone(i, w, old_, next, Some(ROOT), msgs);
    RootStays(i, shown, w, w', old_, next);
  }

  lemma UsedKeys(c: Client, texts: set<uint32>, used: set<uint32>)
    requires Settled(c, texts, used)
    ensures AttachAtOnce(c).nodes.Keys <= used
  {
  }

  lemma {:induction false} StartAtOnce(c: Client, w: VNode, old_: VNode, texts: set<uint32>, used: set<uint32>)
    requires Settled(c, texts, used) && PageHolds(c, w, old_)
    ensures AtOnce(AttachAtOnce(c)) && PageHolds(AttachAtOnce(c), w, old_)
            && Holds(AttachAtOnce(c), w, old_, Some(ROOT))
  {
  }

  lemma {:induction false} RootStays(c: Client, c': Client, w: VNode, w': VNode, old_: VNode, next: VNode)
    requires AtOnce(c) && PageHolds(c, w, old_) && Holds(c', w', next, Some(ROOT)) && w'.id == old_.id
    requires Within(c, c', Ids(old_) + Ids(next)) && old_.id in c'.nodes && c'.nodes[old_.id] == RefOf(c.nodes, old_.id)
    ensures PageHolds(c', w', next)
  {
    NodesBelowNext(c);
    HoldsRoot(c', w', next, Some(ROOT));
    hide Holds, Valid, Ids;
    assert ROOT !in Nodes(c, Ids(old_) + Ids(next));
  }

}
