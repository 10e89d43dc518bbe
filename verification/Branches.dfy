module Branches {
  // Replacing one subtree by another any number of times between two flushes,
  // over any number of flushes, with branch nodes that come back (the If observer
  // of pkg/dom/reactive.go, and the router's page swap): what the client shows.

  import opened Seqs
  import opened Wire
  import opened Dom
  import opened Client
  import opened Trees
  import opened Emission
  import opened ForClient
  import opened Solids
  import opened Returns
  import opened FlipStreams
  import opened Flips
  import opened FlipEnds
  import Hanging
  import Scatter
  import ForSteps
  import ForChanges
  import ForOnPage
  import ForUpdate
  import ForAgreement
  import Links

  // ------------------------------------------------------------------- the claim

  /** How often `b` is shown. */
  function Times(bs: seq<Option<VNode>>, b: Option<VNode>): nat {
    if bs == [] then 0 else (if bs[0] == b then 1 else 0) + Times(bs[1..], b)
  }

  /**
   What a flush leaves: the last branch without styles; if it is the one that was
   shown before and has come back an even number of times, its texts are behind
   its elements.
   */
  function ShownAfter(cur: Option<VNode>, bs: seq<Option<VNode>>): Option<VNode>
    requires bs != []
  {
    if Last(bs).None? then None
    else Some(Result(Unstyled(Last(bs).value), Last(bs) == cur && Times(bs, cur) % 2 == 0))
  }

  /** The branch shown before the flush ends up shown, or forgotten as a whole. */
  predicate Tidy(cur: Option<VNode>, bs: seq<Option<VNode>>)
    requires bs != []
  {
    cur.None? || Last(bs) == cur || Times(bs, cur) % 2 == 0 || Inner(cur.value) == {}
  }

  /** The same nodes, perhaps in another order or with other labels. */
  predicate SameNodes(cur: Option<VNode>, shown: Option<VNode>) {
    if cur.None? then shown.None?
    else shown.Some? && shown.value.id == cur.value.id
         && Elems(shown.value) == Elems(cur.value) && TextIds(shown.value) == TextIds(cur.value)
  }

  /**
   Between two flushes: the client shows `shown` in place of the branch `cur`; of
   the others it may remember texts, but no elements and no roots.
   */
  ghost predicate Ready(c: Client, id: uint32, cur: Option<VNode>, shown: Option<VNode>, pool: seq<VNode>) {
    && ForUpdate.InSync(c, id, Listed(shown)) && SameNodes(cur, shown)
    && ProperAll(pool) && id !in IdsOf(pool) && 0 !in c.nodes && (cur.Some? ==> cur.value in pool)
    && forall b | b in pool && Some(b) != cur :: Solid(b) !! c.nodes.Keys
  }

  function PoolSetting(c: Client, id: uint32, pool: seq<VNode>): Setting
    requires id in c.nodes
  {
    Setting(id, c.nodes[id], pool, {}, {})
  }

  // --------------------------------------------------------------- the beginning

  lemma {:induction false} SolidIs(v: VNode)
    ensures Solid(v) == {v.id} + Elems(v)
  {
  }

  lemma {:induction false} ShownRoot(c: Client, v: VNode, r: uint32)
    requires ForUpdate.InSync(c, r, [v])
    ensures Valid(c) && Shows(c.heap, c.nodes, v) && v.id in c.nodes && c.nodes[v.id] in c.heap
    ensures c.heap[c.nodes[v.id]].parent == Some(c.nodes[r]) && Kids(c.heap, c.nodes[r]) == [c.nodes[v.id]]
  {
    assert v in [v];
    ForChanges.ShownShows(c, v, Some(c.nodes[r]));
    assert Refs(c.nodes, [v]) == [RefOf(c.nodes, v.id)];
    hide Valid, Shows;
    ForOnPage.ShowsRoot(c, v);
  }

  /** The removal of the branch shown before opens the flush. */
  lemma {:induction false} Opened(c: Client, id: uint32, cur: Option<VNode>, shown: Option<VNode>, pool: seq<VNode>)
    requires Ready(c, id, cur, shown, pool)
    ensures var s := PoolSetting(c, id, pool);
            var c1 := ApplyAll(Begin(c), Drop(cur));
            Scene(c1, s, cur, false) && c1.deferred == [] && Elsewhere(Begin(c), c1, s)
  {
    var s, b := PoolSetting(c, id, pool), Begin(c);
    BeginFacts(c, id, cur, shown, pool);
    if cur.Some? {
      ApplyCons(b, [RemoveNode(cur.value.id)]);
      hide Ready, Apply;
      TakenOut(c, b, s, cur.value, shown, pool);
    } else {
      assert Listed(shown) == [] && Refs(c.nodes, []) == [];
      ForOnPage.ElsewhereNone(b, s);
      hide Valid;
      NothingShown(b, s);
    }
  }

  lemma {:induction false} NothingShown(b: Client, s: Setting)
    requires Empty(b, s) && Fair(s) && forall v | v in s.all :: Solid(v) !! b.nodes.Keys && Solid(v) !! b.existing
    ensures Scene(b, s, None, false)
  {
  }

  lemma {:induction false} BeginFacts(c: Client, id: uint32, cur: Option<VNode>, shown: Option<VNode>, pool: seq<VNode>)
    requires Ready(c, id, cur, shown, pool)
    ensures id in c.nodes && c.depth == 0 && Valid(c)
    ensures var s, b := PoolSetting(c, id, pool), Begin(c);
            && Holder(b, s) && Fair(s) && b.deferred == [] && 0 !in b.nodes && 0 !in b.existing
            && b.existing == b.nodes.Keys
            && (forall v | v in pool && Some(v) != cur :: Solid(v) !! b.nodes.Keys && Solid(v) !! b.existing)
            && Kids(b.heap, s.ref) == Refs(c.nodes, Listed(shown))
  {
  }

  lemma {:induction false} TakenOut(c: Client, b: Client, s: Setting, v: VNode, shown: Option<VNode>, pool: seq<VNode>)
    requires b == Begin(c) && Holder(b, s) && Fair(s) && b.deferred == [] && 0 !in b.nodes && b.existing == b.nodes.Keys
    requires s.all == pool && v in pool && c.depth == 0
    requires ForUpdate.InSync(c, s.container, Listed(shown)) && SameNodes(Some(v), shown)
             && c.nodes[s.container] == s.ref
    requires forall w | w in pool && w != v :: Solid(w) !! b.nodes.Keys && Solid(w) !! b.existing
    ensures var c1 := Apply(b, RemoveNode(v.id));
            Scene(c1, s, Some(v), false) && c1.deferred == [] && Elsewhere(b, c1, s)
  {
    var w := shown.value;
    var c1 := Apply(b, RemoveNode(v.id));
    assert Listed(shown) == [w];
    ShownRoot(c, w, s.container);
    MemberOf(pool, v);
    NotHolder(b, s, v);
    SolidIs(v);
    SolidIs(w);
    IdsParts(v);
    IdsParts(w);
    ShownIds(c, w);
    assert Shows(b.heap, b.nodes, w) && Valid(b);
    hide ForUpdate.InSync, Shows, Elems, TextIds, Ids, Apply, IdsBelow, Valid, Forest;
    ShownBelow(b, w);
    RemovedFrom(b, v.id, Ids(v), Inner(w) - {w.id});
    OnlyKid(b.heap, s.ref, b.nodes[v.id]);
    TakenOutAside(b, c1, s, v, Inner(w) - {w.id});
    hide Holder, Fair;
    TakenOutScene(b, c1, s, v, w);
  }

  lemma {:induction false} ShownIds(c: Client, v: VNode)
    requires Shows(c.heap, c.nodes, v)
    ensures Ids(v) <= c.nodes.Keys
  {
    forall id | id in Ids(v) ensures id in c.nodes {
      ForStepsTree(c, v, id);
    }
  }

  lemma {:induction false} ForStepsTree(c: Client, v: VNode, id: uint32)
    requires Shows(c.heap, c.nodes, v) && id in Ids(v)
    ensures id in c.nodes
  {
    ForSteps.TreeKids(c.heap, c.nodes, v, id);
  }

  lemma {:induction false} OnlyKid(h: Heap, p: Ref, r: Ref)
    requires p in h && r in h && p != r && h[r].parent == Some(p) && h[p].children == [r]
    ensures Kids(Detach(h, r), p) == []
    ensures forall q | q in h && q != p && q != r :: q in Detach(h, r) && Detach(h, r)[q] == h[q]
  {
    assert [r][1..] == [];
  }

  lemma {:induction false} TakenOutAside(b: Client, c1: Client, s: Setting, v: VNode, inner: set<uint32>)
    requires Holder(b, s) && Fair(s) && v in s.all && v.id in b.nodes && b.nodes[v.id] in b.heap
    requires c1 == b.(heap := c1.heap, nodes := c1.nodes) && Valid(c1)
    requires c1.nodes.Keys <= b.nodes.Keys - inner - {v.id}
    requires forall i | i in c1.nodes :: c1.nodes[i] == b.nodes[i]
    requires forall i | i in b.nodes && i !in Ids(v) :: i in c1.nodes
    requires Kids(c1.heap, s.ref) == []
    requires forall q | q in b.heap && q != s.ref && q != b.nodes[v.id] :: q in c1.heap && c1.heap[q] == b.heap[q]
    ensures Holder(c1, s) && Elsewhere(b, c1, s)
  {
    MemberOf(s.all, v);
    NotHolder(b, s, v);
    hide Valid, Ids, IdsOf, Fair;
    assert Owned(b, s, b.nodes[v.id]);
  }

  lemma {:induction false} TakenOutScene(b: Client, c1: Client, s: Setting, v: VNode, w: VNode)
    requires Holder(c1, s) && Fair(s) && v in s.all && Kids(c1.heap, s.ref) == [] && c1.deferred == []
    requires c1.existing == b.existing == b.nodes.Keys && 0 !in b.nodes && Ids(v) <= b.nodes.Keys
    requires c1.nodes.Keys <= b.nodes.Keys - (Inner(w) - {w.id}) - {v.id}
    requires Solid(v) == Solid(w) && w.id == v.id
    requires forall x | x in s.all && x != v :: Solid(x) !! b.nodes.Keys && Solid(x) !! b.existing
    ensures Scene(c1, s, Some(v), false)
  {
    InnerUnstyled(v);
    assert Solid(v) !! c1.nodes.Keys;
    assert Gone(c1, Unstyled(v));
    hide Ids, Solid, Inner;
  }

  // --------------------------------------------------------------------- the end

  /** The container's child as it is shown. */
  function UnstyledOf(b: Option<VNode>): Option<VNode> {
    if b.Some? then Some(Unstyled(b.value)) else None
  }

  lemma {:induction false} EndedDocked(c: Client, s: Setting, d: Option<VNode>, last: Option<VNode>, half: bool)
    requires Ended(c, s, d, last, half) && last != d
    ensures Docked(c, s, UnstyledOf(last), false)
    ensures last.Some? ==> Proper(Unstyled(last.value)) && s.container !in Ids(last.value)
    ensures d.Some? ==> Proper(d.value) && s.container !in Ids(d.value) && 0 !in Ids(d.value) && d.value in s.all
    ensures d.Some? && last.Some? ==> Ids(last.value) !! Ids(d.value)
  {
    if last.Some? {
      MemberOf(s.all, last.value);
      UnstyledProper(last.value);
      NotHolder(c, s, last.value);
    }
    if d.Some? {
      MemberOf(s.all, d.value);
      NotHolder(c, s, d.value);
      if last.Some? {
        Disjoint(s.all, d.value, last.value);
      }
    }
    hide Valid, Fair, Proper, ShownAt, Ids, Unstyled;
  }

  /** The nodes of the first branch that may be touched. */
  function Touched(c: Client, d: Option<VNode>): set<uint32> {
    if d.Some? && exists e :: e in c.deferred && e.node in Ids(d.value) && e.node != d.value.id then Ids(d.value)
    else {}
  }

  lemma {:induction false} TouchedOwn(c: Client, s: Setting, d: Option<VNode>, last: Option<VNode>, half: bool,
                                      bs: seq<Option<VNode>>)
    requires Ended(c, s, d, last, half) && last != d && bs != [] && Last(bs) == last
    requires c.deferred == Held(s.container, d, bs, false) && (d.Some? ==> Proper(d.value))
    ensures Own(c, Touched(c, d)) && Berths(c.deferred, s, UnstyledOf(last), Touched(c, d))
    ensures last.Some? ==> ToDock(c.deferred, s, UnstyledOf(last))
  {
    HeldFits(s, d, bs, false);
    assert d.Some? ==> Waits(c, d.value);
    hide Held, Empty, Fair, Shelved, Solid, Ids;
  }

  /** Another branch has taken the place. */
  lemma {:induction false} OtherEnds(c: Client, s: Setting, d: Option<VNode>, last: Option<VNode>, half: bool,
                                     bs: seq<Option<VNode>>)
    requires Ended(c, s, d, last, half) && last != d && bs != [] && Last(bs) == last
    requires c.deferred == Held(s.container, d, bs, false)
    ensures var c' := SettleAll(c, c.deferred);
            Docked(c', s, UnstyledOf(last), last.Some?) && Scatter.Aside(c, c', IdsOf(s.all), {s.ref})
  {
    var v, ids := UnstyledOf(last), Touched(c, d);
    EndedDocked(c, s, d, last, half);
    TouchedOwn(c, s, d, last, half, bs);
    PoolIds(s, d, ids);
    PoolIds(s, last, if last.Some? then Ids(last.value) else {}) by { assert last.Some? ==> last.value in s.all; }
    assert Fair(s);
    hide Docked, Own, Berths, Ended, Proper, Held, SettleAll, Scatter.Aside, Ids, Unstyled, Touched;
    SettleFits(c, s, v, false, c.deferred, ids);
    Scatter.AsideMore(c, SettleAll(c, c.deferred), Both(v, ids), IdsOf(s.all), {s.ref}, {s.ref});
  }

  lemma {:induction false} PoolIds(s: Setting, b: Option<VNode>, ids: set<uint32>)
    requires Fair(s) && (b.Some? ==> b.value in s.all) && (ids == {} || (b.Some? && ids == Ids(b.value)))
    ensures ids <= IdsOf(s.all) && 0 !in ids && s.container !in ids
  {
    if b.Some? {
      MemberOf(s.all, b.value);
    }
  }

  /** The first branch is back. */
  lemma {:induction false} BackEnds(c: Client, s: Setting, w: VNode, half: bool, bs: seq<Option<VNode>>)
    requires Ended(c, s, Some(w), Some(w), half) && bs != [] && Last(bs) == Some(w)
    requires c.deferred == Held(s.container, Some(w), bs, false)
    ensures var c' := SettleAll(c, c.deferred);
            && Docked(c', s, Some(Result(Unstyled(w), Before(Some(w), bs, false))), true)
            && Scatter.Aside(c, c', IdsOf(s.all), {s.ref})
  {
    var v := Unstyled(w);
    assert Came(c, w, true) && Empty(c, s) && Fair(s) && w in s.all;
    var k :| Standing(c, v, k) && ParentOf(c.heap, RefOf(c.nodes, w.id)) == None;
    MemberOf(s.all, w);
    NotHolder(c, s, w);
    UnstyledProper(w);
    assert Back(c, s, v, k, false) by { assert Holder(c, s); }
    hide Back, Ended, Proper, Held, SettleAll, Scatter.Aside, Ids, Unstyled, Fair, Standing, Empty, Came, Arranged,
         Docked, Result, Before;
    var k' := SettleBack(c, s, w, k, false, bs, false);
    BackShows(SettleAll(c, c.deferred), s, v, k', Before(Some(w), bs, false));
    Scatter.AsideMore(c, SettleAll(c, c.deferred), Ids(v), IdsOf(s.all), {s.ref}, {s.ref});
  }

  /** The phase at the end, by counting. */
  lemma {:induction false} BeforeCounts(d: Option<VNode>, bs: seq<Option<VNode>>, half: bool)
    requires bs != [] && d.Some?
    ensures Before(d, bs, half) == (half != ((Times(bs, d) - if Last(bs) == d then 1 else 0) % 2 == 1))
    decreases bs
  {
    if |bs| == 1 {
      assert Times(bs[1..], d) == 0;
    } else {
      assert Last(bs[1..]) == Last(bs);
      BeforeCounts(d, bs[1..], Toggled(half, d, bs[0]));
    }
  }

  /** The end of the batch. */
  lemma {:induction false} Closed(c: Client, s: Setting, v: Option<VNode>)
    requires c.depth == 1 && Docked(SettleAll(c, c.deferred), s, v, v.Some?)
    ensures var c' := End(c);
            && ForUpdate.InSync(c', s.container, Listed(v)) && c'.nodes == c.nodes
              && c'.heap == SettleAll(c, c.deferred).heap
            && c'.nodes[s.container] == s.ref
  {
    var c2, c' := SettleAll(c, c.deferred), End(c);
    SettleAllDepth(c, c.deferred, 0);
    SettleAllKeeps(c, c.deferred);
    assert c'.heap == c2.heap && c'.nodes == c2.nodes && c'.next == c2.next && c'.depth == 0;
    hide SettleAll;
    ClosedPage(c2, c', s, v);
  }

  lemma {:induction false} ClosedPage(c2: Client, c': Client, s: Setting, v: Option<VNode>)
    requires Docked(c2, s, v, v.Some?) && c'.depth == 0
    requires c'.heap == c2.heap && c'.nodes == c2.nodes && c'.next == c2.next
    ensures ForUpdate.InSync(c', s.container, Listed(v)) && c'.nodes[s.container] == s.ref
  {
    assert Valid(c') by { assert Valid(c2); }
    assert Refs(c'.nodes, []) == [];
    if v.Some? {
      assert [v.value][1..] == [];
      assert Refs(c'.nodes, [v.value]) == [RefOf(c'.nodes, v.value.id)] + Refs(c'.nodes, []);
    }
    hide Valid, Shows;
    forall w | w in Listed(v) ensures ShownAt(c', w, Some(s.ref)) {
      ForUpdate.ShownKept(c2, c', w, Some(s.ref));
    }
  }

  // -------------------------------------------------------------- the whole flush

  ghost predicate InPool(bs: seq<Option<VNode>>, pool: seq<VNode>) {
    forall b | b in bs && b.Some? :: b.value in pool
  }

  /** What was put off is attached: the container holds what the claim says. */
  lemma {:induction false} Settled(c: Client, s: Setting, cur: Option<VNode>, bs: seq<Option<VNode>>)
    requires bs != [] && Ended(c, s, cur, Last(bs), Before(cur, bs, false))
    requires c.deferred == Held(s.container, cur, bs, false)
    ensures var v := ShownAfter(cur, bs);
            var c' := SettleAll(c, c.deferred);
            Docked(c', s, v, v.Some?) && Scatter.Aside(c, c', IdsOf(s.all), {s.ref})
  {
    var last := Last(bs);
    ShownAfterIs(cur, bs);
    hide Ended, Held, SettleAll, Docked, Scatter.Aside, Before, Result, Unstyled, ShownAfter, IdsOf, UnstyledOf;
    if last != cur || cur.None? {
      if last == cur {
        NoneEnds(c, s, bs);
      } else {
        OtherEnds(c, s, cur, last, Before(cur, bs, false), bs);
      }
    } else {
      BackEnds(c, s, cur.value, Before(cur, bs, false), bs);
    }
  }

  lemma {:induction false} ShownAfterIs(cur: Option<VNode>, bs: seq<Option<VNode>>)
    requires bs != []
    ensures Last(bs) != cur || cur.None? ==> ShownAfter(cur, bs) == UnstyledOf(Last(bs))
    ensures Last(bs) == cur && cur.Some?
            ==> ShownAfter(cur, bs) == Some(Result(Unstyled(cur.value), Before(cur, bs, false)))
    ensures ShownAfter(cur, bs).Some? <==> Last(bs).Some?
  {
    hide Unstyled, Links.Rearranged, Before;
    if cur.Some? {
      BeforeCounts(cur, bs, false);
    }
  }

  /** Nothing before, nothing at the end. */
  lemma {:induction false} NoneEnds(c: Client, s: Setting, bs: seq<Option<VNode>>)
    requires bs != [] && Last(bs) == None && Ended(c, s, None, None, Before(None, bs, false))
    requires c.deferred == Held(s.container, None, bs, false)
    ensures var c' := SettleAll(c, c.deferred);
            Docked(c', s, UnstyledOf(None), false) && Scatter.Aside(c, c', IdsOf(s.all), {s.ref})
  {
    NoneHeld(s.container, bs, false);
    Scatter.AsideNone(c, IdsOf(s.all), {s.ref});
  }

  lemma {:induction false} NoneHeld(container: uint32, bs: seq<Option<VNode>>, half: bool)
    requires bs != [] && Last(bs) == None
    ensures Held(container, None, bs, half) == []
    decreases bs
  {
    if |bs| > 1 {
      assert Last(bs[1..]) == Last(bs);
      NoneHeld(container, bs[1..], half);
    }
  }

  /** From the branch shown before to the page at the end of the batch. */
  lemma {:induction false} FlushEnds(c: Client, id: uint32, cur: Option<VNode>, shown: Option<VNode>, pool: seq<VNode>,
                                     bs: seq<Option<VNode>>, msgs: seq<Msg>)
    returns (c2: Client)
    requires Ready(c, id, cur, shown, pool) && bs != [] && InPool(bs, pool) && FlipStream(msgs, id, cur, bs)
    ensures var s := PoolSetting(c, id, pool);
            && Elsewhere(Begin(c), c2, s) && Ended(c2, s, cur, Last(bs), Before(cur, bs, false))
            && c2.deferred == Held(s.container, cur, bs, false) && Process(c, msgs) == End(c2) && c2.depth == 1
  {
    var s := PoolSetting(c, id, pool);
    BeginFacts(c, id, cur, shown, pool);
    Opened(c, id, cur, shown, pool);
    PoolParts(c, id, pool);
    BeginDeep(c);
    hide Ready, Scene, Elsewhere, FlipStream, Held, ApplyAll, Drop, PoolSetting, Ended, Before, End, Begin, Process,
         Valid, Holder, Fair, Solid;
    c2 := ApplyAll(Begin(c), msgs);
    BatchEnds(Begin(c), s, cur, bs, msgs);
    ForUpdate.ProcessIs(c, msgs);
    ForUpdate.DepthKept(c, c2, s);
  }

  /** The instructions of the batch, from the removal that opens it to the last insertion. */
  lemma {:induction false} BatchEnds(b: Client, s: Setting, cur: Option<VNode>, bs: seq<Option<VNode>>, msgs: seq<Msg>)
    requires var c1 := ApplyAll(b, Drop(cur)); Scene(c1, s, cur, false) && c1.deferred == [] && Elsewhere(b, c1, s)
    requires bs != [] && InPool(bs, s.all) && FlipStream(msgs, s.container, cur, bs)
    ensures var c2 := ApplyAll(b, msgs);
            && Elsewhere(b, c2, s) && Ended(c2, s, cur, Last(bs), Before(cur, bs, false))
            && c2.deferred == Held(s.container, cur, bs, false)
  {
    hide Scene, Elsewhere, FlipStream, Held, ApplyAll, Drop, Ended, Before, FlipsFrom;
    var rest := StreamSplit(msgs, s.container, cur, bs);
    var c1 := ApplyAll(b, Drop(cur));
    AllVisits(c1, s, cur, false, bs, rest);
    assert [] + Held(s.container, cur, bs, false) == Held(s.container, cur, bs, false);
    ApplyAllSplit(b, Drop(cur), rest);
    ElsewhereThen(b, c1, ApplyAll(b, msgs), s);
  }

  lemma BeginDeep(c: Client)
    requires c.depth == 0
    ensures Begin(c).depth == 1
  {
  }

  lemma PoolParts(c: Client, id: uint32, pool: seq<VNode>)
    requires id in c.nodes
    ensures var s := PoolSetting(c, id, pool); s.container == id && s.all == pool && s.ref == c.nodes[id]
  {
  }

  /**
   However often the container has flipped since the last flush, and whichever
   branches came back: afterwards its only child is the one `ShownAfter` gives, and
   the rest of the page is as it was. The state is one to start another flush from
   exactly when the flips are tidy.
   */
  lemma {:induction false} FlipsOnPage(c: Client, id: uint32, cur: Option<VNode>, shown: Option<VNode>,
                                       pool: seq<VNode>, bs: seq<Option<VNode>>, msgs: seq<Msg>)
    requires Ready(c, id, cur, shown, pool) && bs != [] && InPool(bs, pool) && FlipStream(msgs, id, cur, bs)
    ensures var c' := Process(c, msgs);
            && ForUpdate.InSync(c', id, Listed(ShownAfter(cur, bs)))
            && ForUpdate.RestKept(c, c', PoolSetting(c, id, pool))
            && (Ready(c', id, Last(bs), ShownAfter(cur, bs), pool) <==> Tidy(cur, bs))
  {
    var s := PoolSetting(c, id, pool);
    var c2 := FlushEnds(c, id, cur, shown, pool, bs, msgs);
    BeginFacts(c, id, cur, shown, pool);
    hide FlipStream, Held, Ended, Elsewhere, Before, ForUpdate.RestKept, Ready, ShownAfter, Process, End, Begin,
         Docked, SettleAll, Scatter.Aside, ForUpdate.InSync, Tidy, Valid;
    Settled(c2, s, cur, bs);
    Closed(c2, s, ShownAfter(cur, bs));
    EndedValid(c2, s, cur, Last(bs), Before(cur, bs, false));
    RestSame(c2, SettleAll(c2, c2.deferred), End(c2), s);
    ForUpdate.RestThrough(c, c2, End(c2), s);
    ReadyAgain(c2, End(c2), s, cur, bs);
  }

  lemma EndedValid(c: Client, s: Setting, d: Option<VNode>, last: Option<VNode>, half: bool)
    requires Ended(c, s, d, last, half)
    ensures Valid(c)
  {
  }

  lemma {:induction false} RestSame(c: Client, c1: Client, c': Client, s: Setting)
    requires Scatter.Aside(c, c1, IdsOf(s.all), {s.ref}) && c'.heap == c1.heap
    ensures forall r | r in c.heap && r < c.next && r != s.ref && !Owned(c, s, r) ::
              r in c'.heap && c'.heap[r] == c.heap[r]
  {
  }

  lemma {:induction false} ShownAfterNodes(cur: Option<VNode>, bs: seq<Option<VNode>>)
    requires bs != []
    ensures SameNodes(Last(bs), ShownAfter(cur, bs))
  {
    if Last(bs).Some? {
      InnerUnstyled(Last(bs).value);
      RearrangedElems(Unstyled(Last(bs).value));
    }
  }

  /** The next flush can start from there exactly when no element of the first branch is left registered. */
  lemma {:induction false} ReadyAgain(c2: Client, c': Client, s: Setting, cur: Option<VNode>, bs: seq<Option<VNode>>)
    requires bs != [] && Ended(c2, s, cur, Last(bs), Before(cur, bs, false)) && c'.nodes == c2.nodes
    requires ForUpdate.InSync(c', s.container, Listed(ShownAfter(cur, bs)))
    ensures Ready(c', s.container, Last(bs), ShownAfter(cur, bs), s.all) <==> Tidy(cur, bs)
  {
    ShownAfterNodes(cur, bs);
    assert Fair(s) && Empty(c2, s);
    hide ForUpdate.InSync, SameNodes, ShownAfter, Before, Fair, Empty;
    if cur.Some? && Last(bs) != cur {
      BeforeCounts(cur, bs, false);
      var v := cur.value;
      assert Shelved(c2, s, cur, Before(cur, bs, false));
      SolidIs(v);
      LeftBehind(c2, v, Before(cur, bs, false));
      hide Ended;
      OthersGone(c2, c', s, cur, bs);
    } else {
      OthersGone(c2, c', s, cur, bs);
    }
  }

  lemma {:induction false} LeftBehind(c: Client, v: VNode, half: bool)
    requires Away(c, Unstyled(v), half)
    ensures Solid(v) !! c.nodes.Keys <==> !half || Inner(v) == {}
  {
    InnerUnstyled(v);
    hide Inner, Unstyled, Links.Edges;
    if half && Inner(v) != {} {
      var x :| x in Inner(v);
      assert x in c.nodes;
    }
  }

  lemma {:induction false} OthersGone(c2: Client, c': Client, s: Setting, cur: Option<VNode>, bs: seq<Option<VNode>>)
    requires bs != [] && Ended(c2, s, cur, Last(bs), Before(cur, bs, false)) && c'.nodes == c2.nodes
    requires ForUpdate.InSync(c', s.container, Listed(ShownAfter(cur, bs))) && SameNodes(Last(bs), ShownAfter(cur, bs))
    ensures Ready(c', s.container, Last(bs), ShownAfter(cur, bs), s.all)
            <==> (cur.Some? && Last(bs) != cur ==> Solid(cur.value) !! c2.nodes.Keys)
  {
    hide ForUpdate.InSync, SameNodes, ShownAfter, Before, Shelved, Came, Solid;
    CurInPool(c2, s, cur, bs);
  }

  lemma CurInPool(c2: Client, s: Setting, cur: Option<VNode>, bs: seq<Option<VNode>>)
    requires bs != [] && Ended(c2, s, cur, Last(bs), Before(cur, bs, false))
    ensures cur.Some? && Last(bs) != cur ==> cur.value in s.all
  {
  }
}
