/**
 What replaying a list update leaves, and when that is the order the server has.
 */
module ReconcileReplay {
  import opened Seqs
  import opened Lis
  import MoveScripts
  import opened Wire
  import opened Trees
  import opened Reconcile

  lemma {:induction false} StepsSplit(l: Line, a: seq<Op>, b: seq<Op>)
    ensures Steps(l, a + b) == Steps(Steps(l, a), b)
    decreases a
  {
    if a == [] {
      assert a + b == b;
    } else {
      assert (a + b)[1..] == a[1..] + b;
      StepsSplit(Step(l, a[0]), a[1..], b);
    }
  }

  // ----------------------------------------------------------------- removals

  /** Elements of `s` not in `gone`. */
  function Outside(s: seq<VNode>, gone: seq<VNode>): (r: seq<VNode>)
    ensures forall x | x in r :: x in s && x !in gone
    ensures forall x | x in s && x !in gone :: x in r
    ensures |r| <= |s|
  {
    if s == [] then []
    else (if s[0] in gone then [] else [s[0]]) + Outside(s[1..], gone)
  }

  lemma {:induction false} OutsideOne(s: seq<VNode>, x: VNode, gone: seq<VNode>)
    ensures Outside(s, [x] + gone) == Outside(Without(s, x), gone)
  {
    if s != [] {
      OutsideOne(s[1..], x, gone);
      if s[0] != x {
        assert Without(s, x)[1..] == Without(s[1..], x);
      }
    }
  }

  lemma {:induction false} OutsideNone(s: seq<VNode>)
    ensures Outside(s, []) == s
  {
    if s != [] {
      OutsideNone(s[1..]);
    }
  }

  lemma {:induction false} OutsideCommon(s: seq<VNode>, gone: seq<VNode>, t: seq<VNode>)
    requires forall x | x in s :: x in gone <==> x !in t
    ensures Outside(s, gone) == Common(s, t)
  {
    if s != [] {
      OutsideCommon(s[1..], gone, t);
    }
  }

  lemma {:induction false} RemovesReplay(live: seq<VNode>, gone: seq<VNode>, ops: seq<Op>)
    requires ops == seq(|gone|, i requires 0 <= i < |gone| => Remove(gone[i]))
    ensures Steps(Line(live, []), ops) == Line(Outside(live, gone), [])
    decreases gone
  {
    if gone == [] {
      OutsideNone(live);
    } else {
      RemovesReplay(Without(live, gone[0]), gone[1..], ops[1..]);
      OutsideOne(live, gone[0], gone[1..]);
      assert gone == [gone[0]] + gone[1..];
    }
  }

  lemma {:induction false} CommonNone(s: seq<VNode>)
    ensures Common(s, []) == []
  {
    if s != [] {
      CommonNone(s[1..]);
    }
  }

  /** Whatever their order, the removals leave the surviving children in theirs. */
  lemma {:induction false} RemovalReplay(ops: seq<Op>, old_: seq<VNode>, next: seq<VNode>)
    requires IsRemoval(ops, old_, next)
    ensures Steps(Line(old_, []), ops) == Line(Common(old_, next), [])
  {
    if next == [] && old_ != [] {
      CommonNone(old_);
      assert Steps(Step(Line(old_, []), Clear), ops[1..]) == Line([], []);
    } else {
      var gone :| Distinct(gone) && (forall x :: x in gone <==> x in old_ && x !in next)
                  && ops == seq(|gone|, i requires 0 <= i < |gone| => Remove(gone[i]));
      RemovesReplay(old_, gone, ops);
      OutsideCommon(old_, gone, next);
    }
  }

  // ------------------------------------------------------------- the rebuild

  function MovedOf(next: seq<VNode>, kinds: seq<Kind>): (r: seq<VNode>)
    requires |kinds| == |next|
    ensures forall x | x in r :: x in next
  {
    if next == [] then []
    else (if kinds[0] == Moved then [next[0]] else []) + MovedOf(next[1..], kinds[1..])
  }

  /** What is appended during the batch. */
  function AtOnce(next: seq<VNode>, kinds: seq<Kind>, bulk: seq<VNode>): seq<VNode>
    requires |kinds| == |next|
    decreases next
  {
    var big := if |bulk| >= BULK_THRESHOLD then bulk else [];
    if next == [] then big
    else match kinds[0]
      case Kept => AtOnce(next[1..], kinds[1..], bulk)
      case New => AtOnce(next[1..], kinds[1..], bulk + [next[0]])
      case Moved => big + [next[0]] + AtOnce(next[1..], kinds[1..], [])
  }

  /** What is left to the end of the batch. */
  function AtEnd(next: seq<VNode>, kinds: seq<Kind>, bulk: seq<VNode>): seq<VNode>
    requires |kinds| == |next|
    decreases next
  {
    var small := if |bulk| >= BULK_THRESHOLD then [] else bulk;
    if next == [] then small
    else match kinds[0]
      case Kept => AtEnd(next[1..], kinds[1..], bulk)
      case New => AtEnd(next[1..], kinds[1..], bulk + [next[0]])
      case Moved => small + AtEnd(next[1..], kinds[1..], [])
  }

  lemma {:induction false} InsertsReplay(l: Line, xs: seq<VNode>, ops: seq<Op>)
    requires ops == seq(|xs|, i requires 0 <= i < |xs| => Insert(xs[i]))
    ensures Steps(l, ops) == l.(waiting := l.waiting + xs)
    decreases xs
  {
    if xs == [] {
      assert l.waiting + xs == l.waiting;
    } else {
      InsertsReplay(Step(l, ops[0]), xs[1..], ops[1..]);
      assert l.waiting + [xs[0]] + xs[1..] == l.waiting + xs;
    }
  }

  lemma {:induction false} BulkReplay(l: Line, bulk: seq<VNode>)
    ensures Steps(l, FlushBulk(bulk)) ==
              if |bulk| >= BULK_THRESHOLD then l.(live := l.live + bulk) else l.(waiting := l.waiting + bulk)
  {
    if |bulk| >= BULK_THRESHOLD {
      assert Steps(Step(l, Bulk(bulk)), FlushBulk(bulk)[1..]) == Step(l, Bulk(bulk));
    } else {
      InsertsReplay(l, bulk, FlushBulk(bulk));
    }
  }

  lemma {:induction false} MoveReplay(l: Line, x: VNode)
    ensures Steps(l, [Op.Move(x)]) == l.(live := Without(l.live, x) + [x])
  {
    assert [Op.Move(x)][1..] == [];
  }

  lemma {:induction false} RebuildReplay(a: seq<VNode>, b: seq<VNode>, w: seq<VNode>,
                                         next: seq<VNode>, kinds: seq<Kind>, bulk: seq<VNode>)
    requires |kinds| == |next| && Distinct(next)
    requires forall x | x in next :: x !in b && x !in bulk
    ensures Steps(Line(a + b, w), Rebuild(next, kinds, bulk))
            == Line(Outside(a, MovedOf(next, kinds)) + b + AtOnce(next, kinds, bulk), w + AtEnd(next, kinds, bulk))
    decreases next
  {
    var l := Line(a + b, w);
    if next == [] {
      OutsideNone(a);
      BulkReplay(l, bulk);
      assert w + [] == w && a + b + [] == a + b;
    } else if kinds[0] == Moved {
      var x := next[0];
      var big, small := if |bulk| >= BULK_THRESHOLD then bulk else [], if |bulk| >= BULK_THRESHOLD then [] else bulk;
      BulkReplay(l, bulk);
      StepsSplit(l, FlushBulk(bulk) + [Op.Move(x)], Rebuild(next[1..], kinds[1..], []));
      StepsSplit(l, FlushBulk(bulk), [Op.Move(x)]);
      MoveReplay(Line(a + b + big, w + small), x);
      AfterMove(a, b, big, x);
      assert a + b + [] == a + b && w + [] == w;
      RebuildReplay(Without(a, x), b + big + [x], w + small, next[1..], kinds[1..], []);
      OutsideOne(a, x, MovedOf(next[1..], kinds[1..]));
      RebuildJoin(a, b, w, next, kinds, bulk);
    } else if kinds[0] == New {
      assert MovedOf(next, kinds) == MovedOf(next[1..], kinds[1..]);
      RebuildReplay(a, b, w, next[1..], kinds[1..], bulk + [next[0]]);
    } else {
      assert MovedOf(next, kinds) == MovedOf(next[1..], kinds[1..]);
      RebuildReplay(a, b, w, next[1..], kinds[1..], bulk);
    }
  }

  lemma {:induction false} AfterMove(a: seq<VNode>, b: seq<VNode>, big: seq<VNode>, x: VNode)
    requires x !in b && x !in big
    ensures Without(a + b + big, x) + [x] == Without(a, x) + (b + big + [x])
  {
    hide Without;
    WithoutSplit(a + b, big, x);
    WithoutSplit(a, b, x);
    WithoutAbsent(b, x);
    WithoutAbsent(big, x);
    var rest := Without(a, x);
    assert rest + b + big + [x] == rest + (b + big + [x]);
  }

  lemma {:induction false} RebuildJoin(a: seq<VNode>, b: seq<VNode>, w: seq<VNode>,
                                       next: seq<VNode>, kinds: seq<Kind>, bulk: seq<VNode>)
    requires |kinds| == |next| > 0 && kinds[0] == Moved
    ensures var big := if |bulk| >= BULK_THRESHOLD then bulk else [];
            var small := if |bulk| >= BULK_THRESHOLD then [] else bulk;
            && Outside(a, MovedOf(next, kinds)) + b + AtOnce(next, kinds, bulk)
               == Outside(a, [next[0]] + MovedOf(next[1..], kinds[1..])) + (b + big + [next[0]])
                  + AtOnce(next[1..], kinds[1..], [])
            && w + AtEnd(next, kinds, bulk) == w + small + AtEnd(next[1..], kinds[1..], [])
  {
    hide Outside;
  }

  // ------------------------------------------------------------ ranks and runs

  /** Elements from position `p` on whose rank is `k`. */
  function RankFrom(next: seq<VNode>, kinds: seq<Kind>, p: nat, k: nat): seq<VNode>
    requires |kinds| == |next| && p <= |next|
    decreases |next| - p
  {
    if p == |next| then []
    else (if Rank(kinds, p) == k then [next[p]] else []) + RankFrom(next, kinds, p + 1, k)
  }

  lemma {:induction false} RankFromIs(next: seq<VNode>, kinds: seq<Kind>, p: nat, k: nat)
    requires |kinds| == |next| && p <= |next|
    ensures RankFrom(next, kinds, p, k) == OfRank(next[p..], Ranks(kinds)[p..], k)
    decreases |next| - p
  {
    if p < |next| {
      RankFromIs(next, kinds, p + 1, k);
      assert next[p..][1..] == next[p + 1..] && Ranks(kinds)[p..][1..] == Ranks(kinds)[p + 1..];
    }
  }

  lemma {:induction false} RunStep(kinds: seq<Kind>, p: nat)
    requires p < |kinds|
    ensures RunBehind(kinds, p + 1) == if kinds[p] == Moved then 0
            else RunBehind(kinds, p) + if kinds[p] == New then 1 else 0
    ensures RunAhead(kinds, p)
            == if kinds[p] == Moved then 0 else RunAhead(kinds, p + 1) + if kinds[p] == New then 1 else 0
    ensures Rank(kinds, p) == match kinds[p]
                              case Kept => 0
                              case Moved => 1
                              case New => if RunBehind(kinds, p) + RunAhead(kinds, p) >= BULK_THRESHOLD then 1 else 2
  {
  }

  lemma NoneAhead(kinds: seq<Kind>)
    ensures RunAhead(kinds, |kinds|) == 0
  {
  }

  /** The collected run goes where its final length says; so does everything after it. */
  lemma {:induction false} AtOnceRanks(next: seq<VNode>, kinds: seq<Kind>, p: nat, bulk: seq<VNode>)
    requires |kinds| == |next| && p <= |next| && |bulk| == RunBehind(kinds, p)
    ensures AtOnce(next[p..], kinds[p..], bulk)
            == (if |bulk| + RunAhead(kinds, p) >= BULK_THRESHOLD then bulk else []) + RankFrom(next, kinds, p, 1)
    decreases |next| - p
  {
    hide Rank, RunAhead, RunBehind;
    if p == |next| {
      NoneAhead(kinds);
    } else {
      RunStep(kinds, p);
      assert next[p..][1..] == next[p + 1..] && kinds[p..][1..] == kinds[p + 1..];
      match kinds[p]
      case Kept => AtOnceRanks(next, kinds, p + 1, bulk);
      case New => AtOnceRanks(next, kinds, p + 1, bulk + [next[p]]);
      case Moved => AtOnceRanks(next, kinds, p + 1, []);
    }
  }

  lemma {:induction false} AtEndRanks(next: seq<VNode>, kinds: seq<Kind>, p: nat, bulk: seq<VNode>)
    requires |kinds| == |next| && p <= |next| && |bulk| == RunBehind(kinds, p)
    ensures AtEnd(next[p..], kinds[p..], bulk)
            == (if |bulk| + RunAhead(kinds, p) >= BULK_THRESHOLD then [] else bulk) + RankFrom(next, kinds, p, 2)
    decreases |next| - p
  {
    hide Rank;
    if p < |next| {
      RunStep(kinds, p);
      assert next[p..][1..] == next[p + 1..] && kinds[p..][1..] == kinds[p + 1..];
      match kinds[p]
      case Kept => AtEndRanks(next, kinds, p + 1, bulk);
      case New => AtEndRanks(next, kinds, p + 1, bulk + [next[p]]);
      case Moved => AtEndRanks(next, kinds, p + 1, []);
    }
  }

  // ------------------------------------------------------- kept nodes, in order

  /** Two selections of the same distinct elements, both increasing under `pos`, are equal. */
  lemma {:induction false} SameSorted(s: seq<VNode>, t: seq<VNode>, known: seq<VNode>)
    requires Distinct(known)
    requires forall x :: x in s <==> x in t
    requires forall x | x in s :: x in known
    requires InOrder(s, known) && InOrder(t, known)
    ensures s == t
    decreases s
  {
    assert |t| > 0 ==> t[0] in t;
    if s != [] {
      assert s[0] in t && t != [];
      assert t[0] in s;
      FirstLeast(s, known, t[0]);
      FirstLeast(t, known, s[0]);
      NotLater(s, known);
      NotLater(t, known);
      assert s[0] == t[0];
      assert forall x :: x in s <==> x == s[0] || x in s[1..];
      assert forall x :: x in t <==> x == t[0] || x in t[1..];
      SameSorted(s[1..], t[1..], known);
    }
  }

  /** `s` lists elements of `known` in strictly increasing positions. */
  ghost predicate InOrder(s: seq<VNode>, known: seq<VNode>) {
    forall i, j | 0 <= i < j < |s| && s[i] in known && s[j] in known :: IndexOf(known, s[i]) < IndexOf(known, s[j])
  }

  lemma {:induction false} FirstLeast(s: seq<VNode>, known: seq<VNode>, x: VNode)
    requires s != [] && x in s && x in known && s[0] in known && InOrder(s, known)
    ensures IndexOf(known, s[0]) <= IndexOf(known, x)
  {
  }

  lemma {:induction false} NotLater(s: seq<VNode>, known: seq<VNode>)
    requires s != [] && s[0] in known && InOrder(s, known)
    ensures s[0] !in s[1..] && InOrder(s[1..], known)
  {
  }

  lemma {:induction false} OutsideInOrder(s: seq<VNode>, gone: seq<VNode>, known: seq<VNode>)
    requires InOrder(s, known)
    ensures InOrder(Outside(s, gone), known)
    decreases s
  {
    if s != [] {
      assert InOrder(s[1..], known);
      OutsideInOrder(s[1..], gone, known);
      var r := Outside(s[1..], gone);
      assert forall x | x in r && s[0] in known && x in known :: IndexOf(known, s[0]) < IndexOf(known, x);
    }
  }

  lemma {:induction false} KnownInOrder(known: seq<VNode>)
    requires Distinct(known)
    ensures InOrder(known, known)
  {
    forall i, j | 0 <= i < j < |known| ensures IndexOf(known, known[i]) < IndexOf(known, known[j]) {
      IndexOfUnique(known, i);
      IndexOfUnique(known, j);
    }
  }

  /** Kept nodes of the new list, in its order. */
  function KeptOf(next: seq<VNode>, kinds: seq<Kind>): (r: seq<VNode>)
    requires |kinds| == |next|
    ensures forall x | x in r :: x in next
  {
    if next == [] then []
    else (if kinds[0] == Kept then [next[0]] else []) + KeptOf(next[1..], kinds[1..])
  }

  lemma {:induction false} KeptIsRank(next: seq<VNode>, kinds: seq<Kind>, p: nat)
    requires |kinds| == |next| && p <= |next|
    ensures KeptOf(next[p..], kinds[p..]) == RankFrom(next, kinds, p, 0)
    decreases |next| - p
  {
    if p < |next| {
      KeptIsRank(next, kinds, p + 1);
      assert next[p..][1..] == next[p + 1..] && kinds[p..][1..] == kinds[p + 1..];
    }
  }

  /** Which nodes are kept, moved and new. */
  lemma {:induction false} KindSets(next: seq<VNode>, known: seq<VNode>, marks: seq<bool>)
    requires |Common(next, known)| == |marks| && Distinct(next)
    ensures var kinds := Kinds(next, known, marks);
            forall x | x in known && x in next :: x in KeptOf(next, kinds) <==> x !in MovedOf(next, kinds)
    ensures var kinds := Kinds(next, known, marks);
            forall x | x in KeptOf(next, kinds) || x in MovedOf(next, kinds) :: x in known
    decreases next
  {
    if next != [] {
      var rest := if next[0] in known then marks[1..] else marks;
      KindSets(next[1..], known, rest);
    }
  }

  /** The marked elements, in order. */
  function MarkedOf(s: seq<VNode>, marks: seq<bool>): seq<VNode>
    requires |marks| == |s|
  {
    if s == [] then [] else (if marks[0] then [s[0]] else []) + MarkedOf(s[1..], marks[1..])
  }

  lemma {:induction false} MarkedMember(s: seq<VNode>, marks: seq<bool>, x: VNode) returns (i: nat)
    requires |marks| == |s| && x in MarkedOf(s, marks)
    ensures i < |s| && marks[i] && s[i] == x
    decreases s
  {
    if marks[0] && s[0] == x {
      i := 0;
    } else {
      i := MarkedMember(s[1..], marks[1..], x);
      i := i + 1;
    }
  }

  lemma {:induction false} MarkedOfInOrder(s: seq<VNode>, marks: seq<bool>, known: seq<VNode>)
    requires |marks| == |s| && forall x | x in s :: x in known
    requires forall i, j | 0 <= i < j < |s| && marks[i] && marks[j] :: IndexOf(known, s[i]) < IndexOf(known, s[j])
    ensures InOrder(MarkedOf(s, marks), known)
    decreases s
  {
    if s != [] {
      var rest := MarkedOf(s[1..], marks[1..]);
      MarkedOfInOrder(s[1..], marks[1..], known);
      forall x | marks[0] && x in rest && x in known ensures IndexOf(known, s[0]) < IndexOf(known, x) {
        var i := MarkedMember(s[1..], marks[1..], x);
        assert s[i + 1] == x && marks[i + 1];
      }
      ConsInOrder(s[0], rest, marks[0], known);
    }
  }

  lemma {:induction false} ConsInOrder(x: VNode, rest: seq<VNode>, add: bool, known: seq<VNode>)
    requires InOrder(rest, known) && x in known
    requires forall y | add && y in rest && y in known :: IndexOf(known, x) < IndexOf(known, y)
    ensures InOrder((if add then [x] else []) + rest, known)
  {
    var s := (if add then [x] else []) + rest;
    if add {
      assert forall i | 0 < i < |s| :: s[i] == rest[i - 1];
    } else {
      assert s == rest;
    }
  }

  /** Kept nodes are the marked ones of the surviving nodes. */
  lemma {:induction false} KeptMarked(next: seq<VNode>, known: seq<VNode>, marks: seq<bool>)
    requires |Common(next, known)| == |marks|
    ensures KeptOf(next, Kinds(next, known, marks)) == MarkedOf(Common(next, known), marks)
    decreases next
  {
    if next != [] {
      if next[0] in known {
        KeptMarked(next[1..], known, marks[1..]);
        assert Common(next, known)[1..] == Common(next[1..], known);
      } else {
        KeptMarked(next[1..], known, marks);
        assert Common(next, known) == Common(next[1..], known);
      }
    }
  }

  lemma {:induction false} KeptInOrder(next: seq<VNode>, known: seq<VNode>, marks: seq<bool>)
    requires |Common(next, known)| == |marks| && forall x | x in Common(next, known) :: x in known
    requires var s := Common(next, known);
             forall i, j | 0 <= i < j < |s| && marks[i] && marks[j] :: IndexOf(known, s[i]) < IndexOf(known, s[j])
    ensures InOrder(KeptOf(next, Kinds(next, known, marks)), known)
  {
    hide *;
    KeptMarked(next, known, marks);
    MarkedOfInOrder(Common(next, known), marks, known);
  }

  // -------------------------------------------------------------- the theorem

  lemma {:induction false} CommonDistinct(s: seq<VNode>, t: seq<VNode>)
    requires Distinct(s)
    ensures Distinct(Common(s, t))
    decreases s
  {
    if s != [] {
      assert Distinct(s[1..]);
      CommonDistinct(s[1..], t);
      assert s[0] !in s[1..];
    }
  }

  /** The positions the marks are about are those of the surviving nodes among the old children. */
  lemma {:induction false} MarkedInOrder(known: seq<VNode>, s: seq<VNode>, marks: seq<bool>)
    requires forall x | x in s :: x in known
    requires IsLis(MoveScripts.Positions(known, s), marks)
    ensures |marks| == |s|
    ensures forall i, j | 0 <= i < j < |s| && marks[i] && marks[j] :: IndexOf(known, s[i]) < IndexOf(known, s[j])
  {
    var p := MoveScripts.Positions(known, s);
    assert forall i | 0 <= i < |s| :: p[i] == IndexOf(known, s[i]);
  }

  /** Taking the moved nodes out of the old children leaves the kept ones, in the new order too. */
  lemma {:induction false} KeptStay(known: seq<VNode>, next: seq<VNode>, marks: seq<bool>)
    requires Distinct(known) && Distinct(next) && forall x | x in known :: x in next
    requires |Common(next, known)| == |marks| && forall x | x in Common(next, known) :: x in known
    requires var s := Common(next, known);
             forall i, j | 0 <= i < j < |s| && marks[i] && marks[j] :: IndexOf(known, s[i]) < IndexOf(known, s[j])
    ensures var kinds := Kinds(next, known, marks); Outside(known, MovedOf(next, kinds)) == KeptOf(next, kinds)
  {
    var kinds := Kinds(next, known, marks);
    KindSets(next, known, marks);
    KeptInOrder(next, known, marks);
    KnownInOrder(known);
    OutsideInOrder(known, MovedOf(next, kinds), known);
    SameSorted(Outside(known, MovedOf(next, kinds)), KeptOf(next, kinds), known);
  }

  lemma {:induction false} ReplayRebuild(known: seq<VNode>, next: seq<VNode>, marks: seq<bool>)
    requires Distinct(known) && Distinct(next) && forall x | x in known :: x in next
    requires |Common(next, known)| == |marks| && forall x | x in Common(next, known) :: x in known
    requires var s := Common(next, known);
             forall i, j | 0 <= i < j < |s| && marks[i] && marks[j] :: IndexOf(known, s[i]) < IndexOf(known, s[j])
    ensures var kinds := Kinds(next, known, marks);
            Replay(known, Rebuild(next, kinds, [])) == Arranged(next, Ranks(kinds))
  {
    hide *;
    var kinds := Kinds(next, known, marks);
    KeptStay(known, next, marks);
    RebuildLine(known, next, kinds);
  }

  lemma {:induction false} RebuildLine(known: seq<VNode>, next: seq<VNode>, kinds: seq<Kind>)
    requires |kinds| == |next| && Distinct(next)
    requires Outside(known, MovedOf(next, kinds)) == KeptOf(next, kinds)
    ensures Replay(known, Rebuild(next, kinds, [])) == Arranged(next, Ranks(kinds))
  {
    hide Outside, MovedOf, KeptOf, AtOnce, AtEnd, OfRank, RankFrom, Rebuild, RunAhead, Rank, Ranks;
    RebuildReplay(known, [], [], next, kinds, []);
    assert next[0..] == next && kinds[0..] == kinds && Ranks(kinds)[0..] == Ranks(kinds);
    AtOnceRanks(next, kinds, 0, []);
    AtEndRanks(next, kinds, 0, []);
    KeptIsRank(next, kinds, 0);
    RankFromIs(next, kinds, 0, 0);
    RankFromIs(next, kinds, 0, 1);
    RankFromIs(next, kinds, 0, 2);
    assert known + [] == known;
  }

  /** The swap the fast path sends: the two nodes outside the marks. */
  function SwapPair(next: seq<VNode>, known: seq<VNode>, marks: seq<bool>): (VNode, VNode)
    requires |Common(next, known)| == |marks| && TakesSwap(next, known, marks)
  {
    var out := Unmarked(marks);
    (next[out[0]], next[out[1]])
  }

  /**
   Replaying any list update with distinct nodes on a client that shows the old
   children leaves exactly: on the fast path, the surviving children with the
   two unmarked ones exchanged; otherwise the kept nodes, then the moved nodes
   and long runs of new ones, then the other new nodes, each in the new order.
   */
  lemma {:induction false} UpdateReplay(old_: seq<VNode>, next: seq<VNode>, ops: seq<Op>, marks: seq<bool>, cut: nat)
    requires Distinct(old_) && Distinct(next) && IsUpdate(ops, old_, next, marks, cut)
    ensures var known := Common(old_, next);
            && |Common(next, known)| == |marks|
            && Replay(old_, ops) ==
                 if TakesSwap(next, known, marks) then
                   var (a, b) := SwapPair(next, known, marks); Exchange(known, a, b)
                 else Arranged(next, Ranks(Kinds(next, known, marks)))
  {
    hide Common, IsLis, MoveScripts.Positions, IsRemoval, Rebuild, Kinds, Arranged, Ranks, Unmarked, Exchange, Steps,
         IndexOf;
    var known := Common(old_, next);
    CommonDistinct(old_, next);
    MarkedInOrder(known, Common(next, known), marks);
    assert ops == ops[..cut] + ops[cut..];
    StepsSplit(Line(old_, []), ops[..cut], ops[cut..]);
    RemovalReplay(ops[..cut], old_, next);
    if TakesSwap(next, known, marks) {
      var (a, b) := SwapPair(next, known, marks);
      OneStep(Line(known, []), Op.Swap(a, b));
      assert Exchange(known, a, b) + [] == Exchange(known, a, b);
    } else {
      ReplayRebuild(known, next, marks);
    }
  }

  lemma OneStep(l: Line, op: Op)
    ensures Steps(l, [op]) == Step(l, op)
  {
    assert [op][1..] == [];
  }
}
