module Bulks {
  // When new list items are sent one by one, and when as one piece of HTML
  // (flushBulkNew in pkg/dom/reactive.go): twenty make the difference, in what is
  // queued and in the order the client ends up with.

  import opened Seqs
  import opened Wire
  import opened Trees
  import opened Lis
  import MoveScripts
  import opened Reconcile
  import opened ReconcileReplay
  import opened ReconcileOrder

  /** The insertions of `xs`, one by one. */
  function Singles(xs: seq<VNode>): (ops: seq<Op>)
    ensures |ops| == |xs| && forall i | 0 <= i < |xs| :: ops[i] == Insert(xs[i])
  {
    seq(|xs|, i requires 0 <= i < |xs| => Insert(xs[i]))
  }

  lemma {:induction false} FlushIs(bulk: seq<VNode>)
    ensures FlushBulk(bulk) == if |bulk| >= 20 then [Bulk(bulk)] else Singles(bulk)
  {
    if |bulk| < 20 {
      assert FlushBulk(bulk) == Singles(bulk);
    }
  }

  lemma {:induction false} RebuildKept(next: seq<VNode>, kinds: seq<Kind>, bulk: seq<VNode>)
    requires |kinds| == |next| && forall i | 0 <= i < |kinds| :: kinds[i] == Kept
    ensures Rebuild(next, kinds, bulk) == FlushBulk(bulk)
    decreases next
  {
    if next != [] {
      RebuildKept(next[1..], kinds[1..], bulk);
    }
  }

  /** Kept nodes are passed over and new ones collected. */
  lemma {:induction false} RebuildCollects(next: seq<VNode>, kinds: seq<Kind>, bulk: seq<VNode>, n: nat, m: nat)
    requires |kinds| == |next| && n <= m <= |next|
    requires forall i | 0 <= i < n :: kinds[i] == Kept
    requires forall i | n <= i < m :: kinds[i] == New
    ensures Rebuild(next, kinds, bulk) == Rebuild(next[m..], kinds[m..], bulk + next[n..m])
    decreases m
  {
    hide FlushBulk;
    if m == 0 {
      assert next[0..] == next && kinds[0..] == kinds && bulk + next[0..0] == bulk;
    } else if n > 0 {
      RebuildCollects(next[1..], kinds[1..], bulk, n - 1, m - 1);
      assert next[1..][m - 1..] == next[m..] && kinds[1..][m - 1..] == kinds[m..];
      assert next[1..][n - 1..m - 1] == next[n..m];
    } else {
      RebuildCollects(next[1..], kinds[1..], bulk + [next[0]], 0, m - 1);
      assert next[1..][m - 1..] == next[m..] && kinds[1..][m - 1..] == kinds[m..];
      assert bulk + [next[0]] + next[1..][0..m - 1] == bulk + next[0..m];
    }
  }

  /** New items behind the old ones: from twenty on they are one bulk insert, below twenty as many single ones. */
  lemma {:induction false} AppendsQueued(old_: seq<VNode>, news: seq<VNode>, ops: seq<Op>, marks: seq<bool>, cut: nat)
    requires Distinct(old_ + news) && IsUpdate(ops, old_, old_ + news, marks, cut)
    ensures |news| >= 20 ==> ops == [Bulk(news)]
    ensures |news| <= 19 ==> |ops| == |news| && forall i | 0 <= i < |news| :: ops[i] == Insert(news[i])
  {
    hide *;
    var next := old_ + news;
    AppendedKeeps(old_, news);
    AllKept(old_, next, ops, marks, cut, |old_|);
    assert forall x | x in old_ :: x in next;
    OnlyReorder(old_, next, ops, marks, cut);
    KindsQueued(old_, news, Kinds(next, Common(old_, next), marks));
    OffSwap(next, Common(old_, next), marks);
    FlushIs(news);
    SinglesAre(news);
  }

  lemma SinglesAre(xs: seq<VNode>)
    ensures |Singles(xs)| == |xs| && forall i | 0 <= i < |xs| :: Singles(xs)[i] == Insert(xs[i])
  {
  }

  lemma OffSwap(next: seq<VNode>, known: seq<VNode>, marks: seq<bool>)
    requires |Common(next, known)| == |marks| && !TakesSwap(next, known, marks)
    ensures Reorder(next, known, marks) == Rebuild(next, Kinds(next, known, marks), [])
  {
    hide TakesSwap, Common, Kinds, Rebuild;
  }

  lemma {:induction false} KindsQueued(old_: seq<VNode>, news: seq<VNode>, kinds: seq<Kind>)
    requires |kinds| == |old_ + news|
    requires forall i | 0 <= i < |kinds| :: kinds[i] == if i < |old_| then Kept else New
    ensures Rebuild(old_ + news, kinds, []) == FlushBulk(news)
  {
    var next, n := old_ + news, |old_|;
    hide Rebuild, FlushBulk;
    RebuildCollects(next, kinds, [], n, |next|);
    NothingLeft(kinds[|next|..], news);
    assert next[|next|..] == [] && [] + next[n..|next|] == news;
  }

  lemma {:induction false} AppendedKeeps(old_: seq<VNode>, news: seq<VNode>)
    requires Distinct(old_ + news)
    ensures Distinct(old_) && KeepsThenAdds(old_, old_ + news, |old_|)
  {
    PartsDistinct(old_, news);
    hide Distinct, Common;
    AllSurvive(old_, news);
    NewsApart(old_, news);
  }

  lemma AllSurvive(old_: seq<VNode>, news: seq<VNode>)
    ensures Common(old_, old_ + news) == old_ && (old_ + news)[..|old_|] == old_
  {
    hide Common;
    CommonAll(old_, old_ + news);
  }

  lemma {:induction false} NewsApart(old_: seq<VNode>, news: seq<VNode>)
    requires forall x | x in news :: x !in old_
    ensures forall i | |old_| <= i < |old_ + news| :: (old_ + news)[i] !in old_
  {
    forall i | |old_| <= i < |old_ + news| ensures (old_ + news)[i] !in old_ {
      assert (old_ + news)[i] == news[i - |old_|];
    }
  }

  lemma NothingLeft(kinds: seq<Kind>, bulk: seq<VNode>)
    requires |kinds| == 0
    ensures Rebuild([], kinds, bulk) == FlushBulk(bulk)
  {
  }

  lemma {:induction false} PartsDistinct(a: seq<VNode>, b: seq<VNode>)
    requires Distinct(a + b)
    ensures Distinct(a) && Distinct(b) && forall x | x in b :: x !in a
  {
    var s := a + b;
    assert forall i | 0 <= i < |a| :: s[i] == a[i];
    assert forall i | 0 <= i < |b| :: s[|a| + i] == b[i];
  }

  /** Where nothing disappears, nothing but the reordering is queued. */
  lemma {:induction false} OnlyReorder(old_: seq<VNode>, next: seq<VNode>, ops: seq<Op>, marks: seq<bool>, cut: nat)
    requires Distinct(old_) && IsUpdate(ops, old_, next, marks, cut) && (forall x | x in old_ :: x in next)
    ensures |Common(next, Common(old_, next))| == |marks| && ops == Reorder(next, Common(old_, next), marks)
  {
    hide *;
    UpdateMarks(old_, next, ops, marks, cut);
    UpdateParts(old_, next, ops, marks, cut);
    assert ops == ops[..cut] + ops[cut..];
    if next == [] {
      NoneListed(old_);
      NoGone(ops[..cut], old_, next);
    } else {
      NoRemovals(ops[..cut], old_, next);
    }
  }

  lemma UpdateParts(old_: seq<VNode>, next: seq<VNode>, ops: seq<Op>, marks: seq<bool>, cut: nat)
    requires IsUpdate(ops, old_, next, marks, cut) && |Common(next, Common(old_, next))| == |marks|
    ensures cut <= |ops| && IsRemoval(ops[..cut], old_, next)
    ensures ops[cut..] == Reorder(next, Common(old_, next), marks)
  {
    hide Reorder, Common, IsLis, MoveScripts.Positions, IsRemoval;
  }

  lemma {:induction false} NoGone(ops: seq<Op>, old_: seq<VNode>, next: seq<VNode>)
    requires IsRemoval(ops, old_, next) && old_ == [] && next == []
    ensures ops == []
  {
    var gone: seq<VNode> :| Distinct(gone) && (forall x :: x in gone <==> x in old_ && x !in next)
                && ops == seq(|gone|, i requires 0 <= i < |gone| => Remove(gone[i]));
    NoneListed(gone);
  }

  // --------------------------------------------------- new items among kept ones

  /** Without a move in between, all new items are collected. */
  lemma {:induction false} RebuildNews(next: seq<VNode>, kinds: seq<Kind>, bulk: seq<VNode>, old_: seq<VNode>)
    requires |kinds| == |next|
    requires forall i | 0 <= i < |next| :: kinds[i] == if next[i] in old_ then Kept else New
    ensures Rebuild(next, kinds, bulk) == FlushBulk(bulk + Outside(next, old_))
    decreases next
  {
    hide FlushBulk;
    if next == [] {
      assert bulk + [] == bulk;
    } else if next[0] in old_ {
      RebuildNews(next[1..], kinds[1..], bulk, old_);
      assert Outside(next, old_) == Outside(next[1..], old_);
    } else {
      RebuildNews(next[1..], kinds[1..], bulk + [next[0]], old_);
      assert bulk + [next[0]] + Outside(next[1..], old_) == bulk + ([next[0]] + Outside(next[1..], old_));
    }
  }

  lemma {:induction false} UnmovedKinds(next: seq<VNode>, known: seq<VNode>, marks: seq<bool>)
    requires |Common(next, known)| == |marks| && forall k | 0 <= k < |marks| :: marks[k]
    ensures forall i | 0 <= i < |next| :: Kinds(next, known, marks)[i] == if next[i] in known then Kept else New
    decreases next
  {
    hide Common;
    if next != [] {
      CommonStep(next, known);
      UnmovedKinds(next[1..], known, if next[0] in known then marks[1..] else marks);
    }
  }

  /**
   Where the surviving items keep their order, the new ones are queued in theirs,
   wherever they stand among them: twenty or more by one bulk insert, up to nineteen
   one by one; and either way the client has them behind all surviving ones.
   */
  lemma {:induction false} NewAmongKept(old_: seq<VNode>, next: seq<VNode>, ops: seq<Op>, marks: seq<bool>, cut: nat)
    requires Distinct(old_) && Distinct(next) && IsUpdate(ops, old_, next, marks, cut)
    requires Common(next, Common(old_, next)) == Common(old_, next)
    ensures cut <= |ops|
    ensures var news := Outside(next, old_);
            && (|news| >= 20 ==> ops[cut..] == [Bulk(news)])
            && (|news| <= 19 ==> ops[cut..] == Singles(news))
            && Replay(old_, ops) == Common(old_, next) + news
  {
    hide *;
    var known, news := Common(old_, next), Outside(next, old_);
    UpdateMarks(old_, next, ops, marks, cut);
    UpdateParts(old_, next, ops, marks, cut);
    CommonDistinct(old_, next);
    KnownPositions(known);
    SortedAllMarked(MoveScripts.Positions(known, known), marks);
    NoneUnmarked(marks);
    NotSwapped(next, known, marks);
    OffSwap(next, known, marks);
    UnmovedKinds(next, known, marks);
    KnownAre(old_, next);
    RebuildNews(next, Kinds(next, known, marks), [], old_);
    assert [] + news == news;
    FlushIs(news);
    UnmovedReplay(old_, next, ops, cut, news);
  }

  lemma KnownAre(old_: seq<VNode>, next: seq<VNode>)
    ensures forall x | x in next :: x in Common(old_, next) <==> x in old_
  {
    hide Common;
  }

  lemma {:induction false} UnmovedReplay(old_: seq<VNode>, next: seq<VNode>, ops: seq<Op>, cut: nat, news: seq<VNode>)
    requires cut <= |ops| && IsRemoval(ops[..cut], old_, next) && ops[cut..] == FlushBulk(news)
    ensures Replay(old_, ops) == Common(old_, next) + news
  {
    assert ops == ops[..cut] + ops[cut..];
    StepsSplit(Line(old_, []), ops[..cut], ops[cut..]);
    RemovalReplay(ops[..cut], old_, next);
    BulkReplay(Line(Common(old_, next), []), news);
    hide FlushBulk, Common, IsRemoval, Steps;
    assert [] + news == news && Common(old_, next) + news + [] == Common(old_, next) + news;
  }

  // ------------------------------------------------- new items before a moved one

  /** The kinds of a list of new items, one moved and the rest kept. */
  lemma {:induction false} FrontKinds(next: seq<VNode>, known: seq<VNode>, marks: seq<bool>, n: nat)
    requires n <= |next|
    requires (forall i | 0 <= i < n :: next[i] !in known) && (forall i | n <= i < |next| :: next[i] in known)
    requires |Common(next, known)| == |marks| && forall k | 0 <= k < |marks| :: marks[k] <==> k > 0
    ensures forall i | 0 <= i < |next| ::
              Kinds(next, known, marks)[i] == if i < n then New else if i == n then Moved else Kept
    decreases next
  {
    hide Common;
    if next != [] {
      CommonStep(next, known);
      if n > 0 {
        FrontKinds(next[1..], known, marks, n - 1);
        var kinds := Kinds(next, known, marks);
        assert kinds == [New] + Kinds(next[1..], known, marks);
      } else {
        KeptKinds(next[1..], known, marks[1..]);
      }
    }
  }

  lemma {:induction false} KeptKinds(next: seq<VNode>, known: seq<VNode>, marks: seq<bool>)
    requires (forall i | 0 <= i < |next| :: next[i] in known) && |Common(next, known)| == |marks|
    requires forall k | 0 <= k < |marks| :: marks[k]
    ensures forall i | 0 <= i < |next| :: Kinds(next, known, marks)[i] == Kept
    decreases next
  {
    hide Common;
    if next != [] {
      CommonStep(next, known);
      KeptKinds(next[1..], known, marks[1..]);
    }
  }

  /** What is queued for it. */
  lemma {:induction false} FrontQueued(next: seq<VNode>, kinds: seq<Kind>, n: nat)
    requires n < |next| == |kinds|
    requires forall i | 0 <= i < |next| :: kinds[i] == if i < n then New else if i == n then Moved else Kept
    ensures Rebuild(next, kinds, []) == FlushBulk(next[..n]) + [Move(next[n])]
  {
    hide FlushBulk;
    RebuildCollects(next, kinds, [], 0, n);
    assert [] + next[0..n] == next[..n];
    var rest, more := next[n..], kinds[n..];
    assert more[0] == Moved && rest[0] == next[n];
    RebuildKept(rest[1..], more[1..], []);
    FlushIs([]);
    assert FlushBulk(next[..n]) + [Move(next[n])] + [] == FlushBulk(next[..n]) + [Move(next[n])];
  }

  lemma {:induction false} FrontReplay(keep: seq<VNode>, b: VNode, news: seq<VNode>)
    requires b !in keep && b !in news
    ensures Replay(keep + [b], FlushBulk(news) + [Move(b)])
            == if |news| >= 20 then keep + news + [b] else keep + [b] + news
  {
    var l := Line(keep + [b], []);
    StepsSplit(l, FlushBulk(news), [Move(b)]);
    BulkReplay(l, news);
    hide FlushBulk;
    MoveReplay(Steps(l, FlushBulk(news)), b);
    if |news| >= 20 {
      WithoutMiddle(keep, b, news);
    } else {
      assert [] + news == news;
      WithoutMiddle(keep, b, []);
      assert keep + [b] + [] == keep + [b] && keep + [] == keep;
    }
  }

  lemma WithoutMiddle(a: seq<VNode>, x: VNode, b: seq<VNode>)
    requires x !in a && x !in b
    ensures Without(a + [x] + b, x) == a + b
  {
    WithoutSplit(a + [x], b, x);
    WithoutLast(a, x);
    WithoutAbsent(b, x);
  }

  /**
   The last item brought to the front, with `news` before it: sent one by one, up to
   nineteen new items end up behind it on the client; twenty and more before it.
   */
  lemma {:induction false} NewBeforeMoved(keep: seq<VNode>, b: VNode, news: seq<VNode>, ops: seq<Op>, marks: seq<bool>,
                                          cut: nat)
    requires keep != [] && Distinct(news + ([b] + keep)) && IsUpdate(ops, keep + [b], news + ([b] + keep), marks, cut)
    requires |keep| >= 2 || TieBroken(keep + [b], news + ([b] + keep), marks)
    ensures |news| <= 19 ==> Replay(keep + [b], ops) == keep + [b] + news
    ensures |news| >= 20 ==> Replay(keep + [b], ops) == keep + news + [b]
  {
    hide *;
    var old_, next := keep + [b], news + ([b] + keep);
    FrontParts(keep, b, news);
    UpdateMarks(old_, next, ops, marks, cut);
    FrontCommon(keep, b, news);
    FrontMarks(keep, b, marks, news);
    OnlyReorder(old_, next, ops, marks, cut);
    FrontNoSwap(next, old_, marks);
    OffSwap(next, old_, marks);
    FrontKinds(next, old_, marks, |news|);
    FrontQueued(next, Kinds(next, old_, marks), |news|);
    assert next[..|news|] == news && next[|news|] == b;
    FrontReplay(keep, b, news);
  }

  lemma {:induction false} FrontParts(keep: seq<VNode>, b: VNode, news: seq<VNode>)
    requires Distinct(news + ([b] + keep))
    ensures b !in keep && b !in news && Distinct(keep + [b]) && Distinct([b] + keep)
    ensures forall x | x in news :: x !in keep && x != b
    ensures var old_, next := keep + [b], news + ([b] + keep);
            && (forall i | 0 <= i < |news| :: next[i] !in old_) && (forall i | |news| <= i < |next| :: next[i] in old_)
            && (forall x | x in old_ :: x in next)
  {
    PartsDistinct(news, [b] + keep);
    PartsDistinct([b], keep);
    forall x | x in news ensures x !in keep && x != b {
      assert x in keep || x == b ==> x in [b] + keep;
    }
    var old_, next := keep + [b], news + ([b] + keep);
    assert forall i | 0 <= i < |news| :: next[i] == news[i] && news[i] in news;
    forall i | |news| <= i < |next| ensures next[i] in old_ {
      assert next[i] == ([b] + keep)[i - |news|] && next[i] in [b] + keep;
    }
    forall x | x in old_ ensures x in next && x !in news {
      assert x in [b] + keep;
    }
    forall i, j | 0 <= i < j < |old_| ensures old_[i] != old_[j] {
      assert old_[i] in keep;
    }
  }

  lemma {:induction false} FrontCommon(keep: seq<VNode>, b: VNode, news: seq<VNode>)
    requires b !in keep && forall x | x in news :: x !in keep && x != b
    ensures var old_, next := keep + [b], news + ([b] + keep);
            Common(old_, next) == old_ && Common(next, old_) == [b] + keep
  {
    var old_, next := keep + [b], news + ([b] + keep);
    forall x | x in old_ ensures x in next {
      assert x in [b] + keep;
    }
    CommonAll(old_, next);
    CommonBehind(news, [b] + keep, old_);
    forall x | x in [b] + keep ensures x in old_ {
    }
    CommonAll([b] + keep, old_);
  }

  lemma {:induction false} CommonBehind(a: seq<VNode>, s: seq<VNode>, t: seq<VNode>)
    requires forall x | x in a :: x !in t
    ensures Common(a + s, t) == Common(s, t)
    decreases a
  {
    if a == [] {
      assert a + s == s;
    } else {
      assert (a + s)[1..] == a[1..] + s;
      CommonBehind(a[1..], s, t);
    }
  }

  /**
   The one longest increasing subsequence, or of two the one lisIndices takes, leaves
   out the item brought forward.
   */
  lemma {:induction false} FrontMarks(keep: seq<VNode>, b: VNode, marks: seq<bool>, news: seq<VNode>)
    requires var old_, next := keep + [b], news + ([b] + keep);
             && keep != [] && Distinct(old_) && b !in keep
             && Common(old_, next) == old_ && Common(next, old_) == [b] + keep
             && (forall x | x in [b] + keep :: x in old_)
             && IsLis(MoveScripts.Positions(old_, [b] + keep), marks)
             && (|keep| >= 2 || TieBroken(old_, next, marks))
    ensures |marks| == |keep| + 1 && forall k | 0 <= k < |marks| :: marks[k] <==> k > 0
  {
    hide *;
    FrontPlaces(keep, b);
    if |keep| < 2 {
      FrontTie(keep, b, marks, news);
    }
    PlacesMarks(MoveScripts.Positions(keep + [b], [b] + keep), marks);
  }

  lemma {:induction false} PlacesMarks(p: seq<int>, marks: seq<bool>)
    requires |p| >= 2 && (forall k | 0 <= k < |p| :: p[k] == if k == 0 then |p| - 1 else k - 1)
    requires IsLis(p, marks) && (|p| >= 3 || Latest(p, marks))
    ensures |marks| == |p| && forall k | 0 <= k < |marks| :: marks[k] <==> k > 0
  {
    LisSize(p, marks);
    hide IsLis, Latest;
    if |p| >= 3 {
      FrontUnmarked(p, marks);
    } else {
      PairMarks(p, marks);
    }
  }

  lemma LisSize(p: seq<int>, marks: seq<bool>)
    requires IsLis(p, marks)
    ensures |marks| == |p|
  {
  }

  lemma FrontTie(keep: seq<VNode>, b: VNode, marks: seq<bool>, news: seq<VNode>)
    requires var old_, next := keep + [b], news + ([b] + keep);
             && Common(old_, next) == old_ && Common(next, old_) == [b] + keep
             && (forall x | x in [b] + keep :: x in old_) && TieBroken(old_, next, marks)
    ensures Latest(MoveScripts.Positions(keep + [b], [b] + keep), marks)
  {
    hide Common, Latest, MoveScripts.Positions;
  }

  lemma {:induction false} FrontPlaces(keep: seq<VNode>, b: VNode)
    requires Distinct(keep + [b]) && forall x | x in [b] + keep :: x in keep + [b]
    ensures var p := MoveScripts.Positions(keep + [b], [b] + keep);
            |p| == |keep| + 1 && forall k | 0 <= k < |p| :: p[k] == if k == 0 then |p| - 1 else k - 1
  {
    var old_ := keep + [b];
    var p := MoveScripts.Positions(old_, [b] + keep);
    forall k | 0 <= k < |p| ensures p[k] == if k == 0 then |p| - 1 else k - 1 {
      assert ([b] + keep)[k] == old_[if k == 0 then |keep| else k - 1];
      IndexOfUnique(old_, if k == 0 then |keep| else k - 1);
    }
  }

  lemma {:induction false} PairMarks(p: seq<int>, marks: seq<bool>)
    requires |p| == 2 && p[0] == 1 && p[1] == 0 && IsLis(p, marks) && Latest(p, marks)
    ensures !marks[0] && marks[1]
  {
    assert Increasing(p, [0]);
    assert |Marked(marks)| >= 1;
    var i :| i in Marked(marks);
    assert marks[0] && !marks[1] ==> StandsIn(p, marks, 0, 1);
  }

  lemma {:induction false} FrontNoSwap(next: seq<VNode>, known: seq<VNode>, marks: seq<bool>)
    requires |marks| > 0 && forall k | 0 <= k < |marks| :: marks[k] <==> k > 0
    ensures !TakesSwap(next, known, marks)
  {
    hide Common;
    SameIncreasing(Unmarked(marks), [0]);
  }
}
