/**
 Consequences of the replay of a list update.
 */
module ReconcileOrder {
  import opened Seqs
  import opened Lis
  import MoveScripts
  import opened Wire
  import opened Trees
  import opened Reconcile
  import opened ReconcileReplay

  // -------------------------------------------- a permutation, and when the order is right

  lemma {:induction false} OfRankSplit<T>(s: seq<T>, ranks: seq<nat>, k: nat, n: nat)
    requires |ranks| == |s| && n <= |s|
    ensures OfRank(s, ranks, k) == OfRank(s[..n], ranks[..n], k) + OfRank(s[n..], ranks[n..], k)
    decreases n
  {
    if n == 0 {
      assert s[0..] == s && ranks[0..] == ranks && OfRank(s[..0], ranks[..0], k) == [];
    } else {
      OfRankSplit(s[1..], ranks[1..], k, n - 1);
      assert s[..n][1..] == s[1..][..n - 1] && ranks[..n][1..] == ranks[1..][..n - 1];
      assert s[1..][n - 1..] == s[n..] && ranks[1..][n - 1..] == ranks[n..];
    }
  }

  /** Nothing is lost and nothing doubled. */
  lemma {:induction false} ArrangedPermutes<T>(s: seq<T>, ranks: seq<nat>)
    requires |ranks| == |s| && forall r | r in ranks :: r <= 2
    ensures multiset(Arranged(s, ranks)) == multiset(s)
    decreases s
  {
    if s != [] {
      assert ranks[0] in ranks && forall r | r in ranks[1..] :: r in ranks;
      ArrangedPermutes(s[1..], ranks[1..]);
      RanksStep(s, ranks);
      assert s == [s[0]] + s[1..];
      hide OfRank;
      var a, b, c := OfRank(s[1..], ranks[1..], 0), OfRank(s[1..], ranks[1..], 1), OfRank(s[1..], ranks[1..], 2);
      assert multiset(Arranged(s[1..], ranks[1..])) == multiset(a) + multiset(b) + multiset(c);
      assert multiset(Arranged(s, ranks))
             == multiset(OfRank(s, ranks, 0)) + multiset(OfRank(s, ranks, 1)) + multiset(OfRank(s, ranks, 2));
    }
  }

  lemma RanksStep<T>(s: seq<T>, ranks: seq<nat>)
    requires |ranks| == |s| > 0
    ensures forall k :: OfRank(s, ranks, k) == (if ranks[0] == k then [s[0]] else []) + OfRank(s[1..], ranks[1..], k)
  {
  }

  lemma {:induction false} OfRankUniform<T>(s: seq<T>, ranks: seq<nat>, k: nat, j: nat)
    requires |ranks| == |s| && forall i | 0 <= i < |s| :: ranks[i] == j
    ensures OfRank(s, ranks, k) == if k == j then s else []
    decreases s
  {
    if s != [] {
      OfRankUniform(s[1..], ranks[1..], k, j);
    }
  }

  /** Where the block of rank 0 and 1 ends when the ranks are sorted. */
  lemma {:induction false} SortedArranged<T>(s: seq<T>, ranks: seq<nat>, m: nat, n: nat)
    requires |ranks| == |s| && m <= n <= |s|
    requires forall i | 0 <= i < |s| :: ranks[i] == if i < m then 0 else if i < n then 1 else 2
    ensures Arranged(s, ranks) == s
  {
    hide OfRank;
    forall k | 0 <= k <= 2
      ensures OfRank(s, ranks, k)
              == OfRank(s[..m], ranks[..m], k) + (OfRank(s[m..n], ranks[m..n], k) + OfRank(s[n..], ranks[n..], k))
    {
      OfRankSplit(s, ranks, k, m);
      OfRankSplit(s[m..], ranks[m..], k, n - m);
      assert s[m..][..n - m] == s[m..n] && ranks[m..][..n - m] == ranks[m..n];
      assert s[m..][n - m..] == s[n..] && ranks[m..][n - m..] == ranks[n..];
    }
    forall k | 0 <= k <= 2 ensures OfRank(s[..m], ranks[..m], k) == if k == 0 then s[..m] else [] {
      OfRankUniform(s[..m], ranks[..m], k, 0);
    }
    forall k | 0 <= k <= 2 ensures OfRank(s[m..n], ranks[m..n], k) == if k == 1 then s[m..n] else [] {
      OfRankUniform(s[m..n], ranks[m..n], k, 1);
    }
    forall k | 0 <= k <= 2 ensures OfRank(s[n..], ranks[n..], k) == if k == 2 then s[n..] else [] {
      OfRankUniform(s[n..], ranks[n..], k, 2);
    }
    assert s == s[..m] + s[m..n] + s[n..];
  }

  ghost predicate Ascending(ranks: seq<nat>) {
    forall i, j | 0 <= i < j < |ranks| :: ranks[i] <= ranks[j]
  }

  /** How many leading ranks are below `k`. */
  function Leading(ranks: seq<nat>, k: nat): (n: nat)
    ensures n <= |ranks|
    ensures forall i | 0 <= i < n :: ranks[i] < k
    ensures n < |ranks| ==> ranks[n] >= k
  {
    if ranks == [] || ranks[0] >= k then 0 else 1 + Leading(ranks[1..], k)
  }

  lemma {:induction false} AscendingArranged<T>(s: seq<T>, ranks: seq<nat>)
    requires |ranks| == |s| && Ascending(ranks) && forall i | 0 <= i < |ranks| :: ranks[i] <= 2
    ensures Arranged(s, ranks) == s
  {
    var m, n := Leading(ranks, 1), Leading(ranks, 2);
    assert forall i | m <= i < |ranks| :: ranks[i] >= ranks[m] >= 1;
    assert forall i | n <= i < |ranks| :: ranks[i] >= ranks[n] >= 2;
    SortedArranged(s, ranks, m, n);
  }

  /** Where the elements of a rank stand. */
  lemma {:induction false} OfRankMember<T>(s: seq<T>, ranks: seq<nat>, k: nat)
    requires |ranks| == |s|
    ensures forall i | 0 <= i < |s| && ranks[i] == k :: s[i] in OfRank(s, ranks, k)
    ensures forall x | x in OfRank(s, ranks, k) :: exists i :: 0 <= i < |s| && s[i] == x && ranks[i] == k
    decreases s
  {
    if s != [] {
      OfRankMember(s[1..], ranks[1..], k);
      forall x | x in OfRank(s, ranks, k) ensures exists i :: 0 <= i < |s| && s[i] == x && ranks[i] == k {
        if x in OfRank(s[1..], ranks[1..], k) {
          var i :| 0 <= i < |s[1..]| && s[1..][i] == x && ranks[1..][i] == k;
          assert s[i + 1] == x && ranks[i + 1] == k;
        } else {
          assert s[0] == x && ranks[0] == k;
        }
      }
    }
  }

  /** In the arrangement an element of lower rank precedes one of higher rank. */
  lemma {:induction false} ArrangedByRank<T>(s: seq<T>, ranks: seq<nat>, i: nat, j: nat)
    requires |ranks| == |s| && i < |s| && j < |s| && ranks[i] < ranks[j] <= 2
    ensures MoveScripts.Before(Arranged(s, ranks), s[i], s[j])
  {
    forall k | 0 <= k <= 2 && (k == ranks[i] || k == ranks[j]) ensures
        forall l | 0 <= l < |s| && ranks[l] == k :: s[l] in OfRank(s, ranks, k) {
      OfRankMember(s, ranks, k);
    }
    hide OfRank;
    var a, b, c := OfRank(s, ranks, 0), OfRank(s, ranks, 1), OfRank(s, ranks, 2);
    MoveScripts.BeforeConcat(a + b, c, s[i], s[j]);
    MoveScripts.BeforeConcat(a, b, s[i], s[j]);
  }

  /** The arrangement is the given order exactly when the ranks ascend. */
  lemma {:induction false} ArrangedIff<T>(s: seq<T>, ranks: seq<nat>)
    requires Distinct(s) && |ranks| == |s| && forall i | 0 <= i < |ranks| :: ranks[i] <= 2
    ensures Arranged(s, ranks) == s <==> Ascending(ranks)
  {
    if Ascending(ranks) {
      AscendingArranged(s, ranks);
    } else {
      var i, j :| 0 <= i < j < |ranks| && ranks[i] > ranks[j];
      ArrangedByRank(s, ranks, j, i);
    }
  }

  lemma {:induction false} RanksSmall(kinds: seq<Kind>)
    ensures forall i | 0 <= i < |kinds| :: Ranks(kinds)[i] <= 2
    ensures forall r | r in Ranks(kinds) :: r <= 2
  {
    hide RunAhead, RunBehind;
  }

  /**
   Off the fast path the client ends up with the server's children, and in the
   server's order exactly when no kept node follows one that was sent and no
   node appended during the batch follows one left to its end.
   */
  lemma {:induction false} UpdateOrder(old_: seq<VNode>, next: seq<VNode>, ops: seq<Op>, marks: seq<bool>, cut: nat)
    requires Distinct(old_) && Distinct(next) && IsUpdate(ops, old_, next, marks, cut)
    requires !TakesSwap(next, Common(old_, next), marks)
    ensures |Common(next, Common(old_, next))| == |marks|
    ensures multiset(Replay(old_, ops)) == multiset(next)
    ensures Replay(old_, ops) == next <==> Ascending(Ranks(Kinds(next, Common(old_, next), marks)))
  {
    hide IsUpdate, Replay, Kinds, Ranks, Arranged, Common, TakesSwap;
    UpdateReplay(old_, next, ops, marks, cut);
    var kinds := Kinds(next, Common(old_, next), marks);
    RanksSmall(kinds);
    ArrangedPermutes(next, Ranks(kinds));
    ArrangedIff(next, Ranks(kinds));
  }

  lemma {:induction false} ExchangePermutes<T>(s: seq<T>, a: T, b: T)
    requires Distinct(s) && a in s && b in s
    ensures multiset(Exchange(s, a, b)) == multiset(s)
  {
    var i, j := IndexOf(s, a), IndexOf(s, b);
    var t := s[i := b][j := a];
    forall k | 0 <= k < |s| ensures Exchange(s, a, b)[k] == t[k] {
    }
    assert Exchange(s, a, b) == t;
    hide Distinct, Exchange, IndexOf;
    assert multiset(s[i := b]) == multiset(s) - multiset{a} + multiset{b};
    assert multiset(t) == multiset(s[i := b]) - multiset{s[i := b][j]} + multiset{a};
  }

  /** Two sequences without repetition and with the same members. */
  lemma {:induction false} SameBag<T>(s: seq<T>, t: seq<T>)
    requires Distinct(s) && Distinct(t) && forall x :: x in s <==> x in t
    ensures multiset(s) == multiset(t)
  {
    forall x ensures multiset(s)[x] == multiset(t)[x] {
      OnceOnly(s, x);
      OnceOnly(t, x);
    }
  }

  lemma {:induction false} OnceOnly<T>(s: seq<T>, x: T)
    requires Distinct(s)
    ensures multiset(s)[x] == if x in s then 1 else 0
    decreases s
  {
    if s != [] {
      assert s == [s[0]] + s[1..];
      OnceOnly(s[1..], x);
    }
  }

  /** On either path the client ends up with a permutation of the server's children. */
  lemma {:induction false} UpdatePermutes(old_: seq<VNode>, next: seq<VNode>, ops: seq<Op>, marks: seq<bool>, cut: nat)
    requires Distinct(old_) && Distinct(next) && IsUpdate(ops, old_, next, marks, cut)
    ensures multiset(Replay(old_, ops)) == multiset(next)
  {
    var known := Common(old_, next);
    if TakesSwap(next, known, marks) {
      UpdateMarks(old_, next, ops, marks, cut);
      AllKnown(next, known);
      CommonDistinct(old_, next);
      var (a, b) := SwapPair(next, known, marks);
      assert a in next && b in next;
      hide IsUpdate, Common, TakesSwap, Exchange, Distinct;
      UpdateReplay(old_, next, ops, marks, cut);
      ExchangePermutes(known, a, b);
      SameBag(known, next);
    } else {
      hide IsUpdate, Common, TakesSwap;
      UpdateOrder(old_, next, ops, marks, cut);
    }
  }

  lemma {:induction false} AllKnown(next: seq<VNode>, known: seq<VNode>)
    requires |Common(next, known)| == |next|
    ensures forall x | x in next :: x in known
    decreases next
  {
    if next != [] {
      AllKnown(next[1..], known);
    }
  }

  // --------------------------------------------------- updates that keep their order

  /** All marks are set when the positions already increase. */
  lemma {:induction false} SortedAllMarked(p: seq<int>, marks: seq<bool>)
    requires IsLis(p, marks) && forall i, j | 0 <= i < j < |p| :: p[i] < p[j]
    ensures forall i | 0 <= i < |p| :: marks[i]
  {
    var all := seq(|p|, i requires 0 <= i < |p| => i);
    assert Increasing(p, all);
    var every := UpTo(|p|);
    forall i | 0 <= i < |p| ensures marks[i] {
      if !marks[i] {
        assert Marked(marks) <= every - {i};
        SubsetSize(Marked(marks), every - {i});
      }
    }
  }

  /** `next` lists the surviving children as they stand, then new nodes. */
  ghost predicate KeepsThenAdds(old_: seq<VNode>, next: seq<VNode>, n: nat) {
    && n <= |next|
    && Common(old_, next) == next[..n]
    && forall i | n <= i < |next| :: next[i] !in old_
  }

  lemma {:induction false} CommonSelf(next: seq<VNode>, n: nat)
    requires n <= |next| && forall i | n <= i < |next| :: next[i] !in next[..n]
    ensures Common(next, next[..n]) == next[..n]
  {
    CommonPrefix(next, next[..n], n);
  }

  lemma {:induction false} CommonPrefix(s: seq<VNode>, t: seq<VNode>, n: nat)
    requires n <= |s| && (forall i | 0 <= i < n :: s[i] in t) && (forall i | n <= i < |s| :: s[i] !in t)
    ensures Common(s, t) == s[..n]
    decreases s
  {
    if s != [] {
      CommonFirst(s, t);
      assert n > 0 ==> s[0] in t;
      assert n == 0 ==> s[0] !in t;
      hide Common;
      if n == 0 {
        CommonPrefix(s[1..], t, 0);
      } else {
        CommonPrefix(s[1..], t, n - 1);
        FrontFirst(s, n);
      }
    }
  }

  lemma FrontFirst(s: seq<VNode>, n: nat)
    requires 0 < n <= |s|
    ensures s[..n] == [s[0]] + s[1..][..n - 1]
  {
  }

  lemma CommonFirst(s: seq<VNode>, t: seq<VNode>)
    requires s != []
    ensures Common(s, t) == (if s[0] in t then [s[0]] else []) + Common(s[1..], t)
  {
  }

  lemma {:induction false} CommonStep(next: seq<VNode>, known: seq<VNode>)
    requires next != []
    ensures |Common(next, known)| == (if next[0] in known then 1 else 0) + |Common(next[1..], known)|
  {
  }

  lemma {:induction false} KindKeepAdd(next: seq<VNode>, known: seq<VNode>, marks: seq<bool>, n: nat, i: nat)
    requires |Common(next, known)| == |marks| && n <= |next| && i < |next|
    requires (forall i | 0 <= i < n :: next[i] in known) && (forall i | n <= i < |next| :: next[i] !in known)
    requires forall i | 0 <= i < |marks| :: marks[i]
    ensures Kinds(next, known, marks)[i] == if i < n then Kept else New
    decreases next
  {
    hide Common;
    CommonStep(next, known);
    if i > 0 {
      var rest := if n == 0 then marks else marks[1..];
      KindKeepAdd(next[1..], known, rest, if n == 0 then 0 else n - 1, i - 1);
      assert Kinds(next, known, marks)[i] == Kinds(next[1..], known, rest)[i - 1];
    }
  }

  lemma {:induction false} KindsKeepAdd(next: seq<VNode>, known: seq<VNode>, marks: seq<bool>, n: nat)
    requires |Common(next, known)| == |marks| && n <= |next|
    requires (forall i | 0 <= i < n :: next[i] in known) && (forall i | n <= i < |next| :: next[i] !in known)
    requires forall i | 0 <= i < |marks| :: marks[i]
    ensures var kinds := Kinds(next, known, marks);
            forall i | 0 <= i < |next| :: kinds[i] == if i < n then Kept else New
  {
    hide Common, Kinds;
    forall i | 0 <= i < |next| ensures Kinds(next, known, marks)[i] == if i < n then Kept else New {
      KindKeepAdd(next, known, marks, n, i);
    }
  }

  /** In a list without moves every new item belongs to the one run of all of them. */
  lemma {:induction false} OneRun(kinds: seq<Kind>, n: nat, i: nat)
    requires n <= |kinds| && i <= |kinds|
    requires forall k | 0 <= k < |kinds| :: kinds[k] == if k < n then Kept else New
    ensures RunAhead(kinds, i) == |kinds| - (if i < n then n else i)
    ensures RunBehind(kinds, i) == if i < n then 0 else i - n
  {
    AheadRun(kinds, n, i);
    BehindRun(kinds, n, i);
  }

  lemma {:induction false} AheadRun(kinds: seq<Kind>, n: nat, i: nat)
    requires n <= |kinds| && i <= |kinds|
    requires forall k | 0 <= k < |kinds| :: kinds[k] == if k < n then Kept else New
    ensures RunAhead(kinds, i) == |kinds| - (if i < n then n else i)
    decreases |kinds| - i
  {
    if i < |kinds| {
      AheadRun(kinds, n, i + 1);
    }
  }

  lemma {:induction false} BehindRun(kinds: seq<Kind>, n: nat, i: nat)
    requires n <= |kinds| && i <= |kinds|
    requires forall k | 0 <= k < |kinds| :: kinds[k] == if k < n then Kept else New
    ensures RunBehind(kinds, i) == if i < n then 0 else i - n
    decreases i
  {
    if i > 0 {
      BehindRun(kinds, n, i - 1);
    }
  }

  /** Removals, appends, clearing, and removals followed by appends all keep the order. */
  lemma {:induction false} KeepsThenAddsInOrder(old_: seq<VNode>, next: seq<VNode>, ops: seq<Op>, marks: seq<bool>,
                                                cut: nat, n: nat)
    requires Distinct(old_) && Distinct(next) && IsUpdate(ops, old_, next, marks, cut)
    requires KeepsThenAdds(old_, next, n)
    ensures Replay(old_, ops) == next
  {
    var known := Common(old_, next);
    AllKept(old_, next, ops, marks, cut, n);
    UpdateOrder(old_, next, ops, marks, cut);
    hide IsUpdate, Replay, Common, KeepsThenAdds;
    var kinds := Kinds(next, known, marks);
    forall i, j | 0 <= i < j < |kinds| ensures Rank(kinds, i) <= Rank(kinds, j) {
      OneRun(kinds, n, i);
      OneRun(kinds, n, j);
    }
  }

  lemma {:induction false} AllKept(old_: seq<VNode>, next: seq<VNode>, ops: seq<Op>, marks: seq<bool>, cut: nat, n: nat)
    requires Distinct(old_) && Distinct(next) && IsUpdate(ops, old_, next, marks, cut)
    requires KeepsThenAdds(old_, next, n)
    ensures var known := Common(old_, next);
            && |Common(next, known)| == |marks| && !TakesSwap(next, known, marks)
            && forall i | 0 <= i < |next| :: Kinds(next, known, marks)[i] == if i < n then Kept else New
  {
    hide *;
    var known := Common(old_, next);
    UpdateMarks(old_, next, ops, marks, cut);
    CommonDistinct(old_, next);
    KeepFacts(old_, next, n);
    KnownPositions(known);
    SortedAllMarked(MoveScripts.Positions(known, known), marks);
    KindsKeepAdd(next, known, marks, n);
    NoneUnmarked(marks);
    NotSwapped(next, known, marks);
  }

  lemma {:induction false} KeepFacts(old_: seq<VNode>, next: seq<VNode>, n: nat)
    requires KeepsThenAdds(old_, next, n) && Distinct(next)
    ensures var known := Common(old_, next); Common(next, known) == known
    ensures n <= |next|
    ensures forall i | 0 <= i < n :: next[i] in Common(old_, next)
    ensures forall i | n <= i < |next| :: next[i] !in Common(old_, next)
  {
    hide Common;
    assert forall i | n <= i < |next| :: next[i] !in next[..n];
    CommonSelf(next, n);
    assert forall i | 0 <= i < n :: next[i] == next[..n][i];
  }

  lemma NotSwapped(next: seq<VNode>, known: seq<VNode>, marks: seq<bool>)
    requires Unmarked(marks) == []
    ensures !TakesSwap(next, known, marks)
  {
  }

  lemma {:induction false} UpdateMarks(old_: seq<VNode>, next: seq<VNode>, ops: seq<Op>, marks: seq<bool>, cut: nat)
    requires IsUpdate(ops, old_, next, marks, cut)
    ensures var known := Common(old_, next);
            && (forall x | x in Common(next, known) :: x in known)
            && IsLis(MoveScripts.Positions(known, Common(next, known)), marks)
            && |Common(next, known)| == |marks|
  {
  }

  lemma {:induction false} KnownPositions(known: seq<VNode>)
    requires Distinct(known)
    ensures forall i | 0 <= i < |known| :: MoveScripts.Positions(known, known)[i] == i
  {
  }

  lemma {:induction false} NoneUnmarked(marks: seq<bool>)
    requires forall i | 0 <= i < |marks| :: marks[i]
    ensures Unmarked(marks) == []
    decreases marks
  {
    if marks != [] {
      NoneUnmarked(marks[..|marks| - 1]);
    }
  }

  // ------------------------------------------------------- the order may be wrong

  lemma {:induction false} CommonAll(s: seq<VNode>, t: seq<VNode>)
    requires forall x | x in s :: x in t
    ensures Common(s, t) == s
    decreases s
  {
    if s != [] {
      CommonAll(s[1..], t);
    }
  }

  lemma {:induction false} KindKnown(next: seq<VNode>, known: seq<VNode>, marks: seq<bool>, i: nat)
    requires (forall x | x in next :: x in known) && i < |next|
    requires |Common(next, known)| == |marks| == |next|
    ensures Kinds(next, known, marks)[i] == if marks[i] then Kept else Moved
    decreases next
  {
    hide Common;
    CommonStep(next, known);
    assert next[0] in next;
    if i > 0 {
      assert forall x | x in next[1..] :: x in next;
      KindKnown(next[1..], known, marks[1..], i - 1);
      assert Kinds(next, known, marks)[i] == Kinds(next[1..], known, marks[1..])[i - 1];
    }
  }

  /** A reordering: the same nodes, so all are known and all survive. */
  lemma {:induction false} Reordering(old_: seq<VNode>, next: seq<VNode>, ops: seq<Op>, marks: seq<bool>, cut: nat)
    requires IsUpdate(ops, old_, next, marks, cut)
    requires (forall x | x in old_ :: x in next) && (forall x | x in next :: x in old_)
    ensures Common(old_, next) == old_ && Common(next, old_) == next
    ensures IsLis(MoveScripts.Positions(old_, next), marks) && |marks| == |next|
  {
    CommonAll(old_, next);
    CommonAll(next, old_);
  }

  lemma {:induction false} FrontPositions(old_: seq<VNode>, next: seq<VNode>, k: nat)
    requires Distinct(old_) && |old_| >= 1 && next == [old_[|old_| - 1]] + old_[..|old_| - 1] && k < |next|
    ensures forall x | x in next :: x in old_
    ensures MoveScripts.Positions(old_, next)[k] == if k == 0 then |old_| - 1 else k - 1
  {
    forall x | x in next ensures x in old_ {
      assert x == old_[|old_| - 1] || x in old_[..|old_| - 1];
    }
    IndexOfUnique(old_, if k == 0 then |old_| - 1 else k - 1);
  }

  /** The one longest increasing subsequence leaves out the item brought to the front. */
  lemma {:induction false} FrontUnmarked(p: seq<int>, marks: seq<bool>)
    requires |p| >= 3 && IsLis(p, marks)
    requires forall k | 0 <= k < |p| :: p[k] == if k == 0 then |p| - 1 else k - 1
    ensures forall k | 0 <= k < |p| :: marks[k] <==> k > 0
  {
    var idx: seq<nat> := seq(|p| - 1, k requires 0 <= k < |p| - 1 => k + 1);
    assert Increasing(p, idx);
    if marks[0] {
      assert Marked(marks) <= {0};
      SubsetSize(Marked(marks), {0});
    }
    forall k | 0 < k < |p| ensures marks[k] {
      if !marks[k] {
        assert Marked(marks) <= UpTo(|p|) - {0, k};
        SubsetSize(Marked(marks), UpTo(|p|) - {0, k});
      }
    }
  }

  /** Strictly increasing sequences with the same elements are equal. */
  lemma {:induction false} SameIncreasing(s: seq<nat>, t: seq<nat>)
    requires forall i, j | 0 <= i < j < |s| :: s[i] < s[j]
    requires forall i, j | 0 <= i < j < |t| :: t[i] < t[j]
    requires forall x :: x in s <==> x in t
    ensures s == t
    decreases s
  {
    assert |s| > 0 ==> s[0] in s;
    assert |t| > 0 ==> t[0] in t;
    if s != [] {
      assert s[0] == t[0];
      assert forall x :: x in s <==> x == s[0] || x in s[1..];
      assert forall x :: x in t <==> x == t[0] || x in t[1..];
      SameIncreasing(s[1..], t[1..]);
    }
  }

  /**
   The last of three or more items brought to the front stays last on the
   client: the move is sent as an append.
   */
  lemma {:induction false} LastToFront(old_: seq<VNode>, next: seq<VNode>, ops: seq<Op>, marks: seq<bool>, cut: nat)
    requires Distinct(old_) && |old_| >= 3
    requires next == [old_[|old_| - 1]] + old_[..|old_| - 1]
    requires IsUpdate(ops, old_, next, marks, cut)
    ensures Replay(old_, ops) == old_ != next
  {
    hide IsUpdate, Replay, Kinds, Arranged, Common, IsLis, Unmarked, MoveScripts.Positions, Rank;
    assert old_[0] != old_[|old_| - 1] && next[0] == old_[|old_| - 1];
    FrontDistinct(old_, next);
    Reordering(old_, next, ops, marks, cut);
    forall k | 0 <= k < |next|
      ensures MoveScripts.Positions(old_, next)[k] == if k == 0 then |old_| - 1 else k - 1
    {
      FrontPositions(old_, next, k);
    }
    FrontUnmarked(MoveScripts.Positions(old_, next), marks);
    SameIncreasing(Unmarked(marks), [0]);
    UpdateReplay(old_, next, ops, marks, cut);
    var kinds := Kinds(next, old_, marks);
    forall k | 0 <= k < |next| ensures kinds[k] == if k > 0 then Kept else Moved {
      KindKnown(next, old_, marks, k);
    }
    FrontArranged(old_, next, Ranks(kinds)) by {
      forall k | 0 <= k < |next| ensures Rank(kinds, k) == if k > 0 then 0 else 1 {
        RankKnown(kinds, k);
      }
    }
  }

  lemma RankKnown(kinds: seq<Kind>, k: nat)
    requires k < |kinds| && kinds[k] != New
    ensures Rank(kinds, k) == if kinds[k] == Kept then 0 else 1
  {
  }

  lemma {:induction false} FrontDistinct(old_: seq<VNode>, next: seq<VNode>)
    requires Distinct(old_) && |old_| >= 1 && next == [old_[|old_| - 1]] + old_[..|old_| - 1]
    ensures Distinct(next)
    ensures (forall x | x in old_ :: x in next) && (forall x | x in next :: x in old_)
  {
    var n := |old_| - 1;
    assert old_ == old_[..n] + [old_[n]];
    forall x | x in old_ ensures x in next {
      assert x == old_[n] || x in old_[..n];
    }
    forall x | x in next ensures x in old_ {
      assert x == old_[n] || x in old_[..n];
    }
  }

  lemma {:induction false} FrontArranged(old_: seq<VNode>, next: seq<VNode>, ranks: seq<nat>)
    requires |old_| >= 1 && next == [old_[|old_| - 1]] + old_[..|old_| - 1] && |ranks| == |next|
    requires forall k | 0 <= k < |next| :: ranks[k] == if k > 0 then 0 else 1
    ensures Arranged(next, ranks) == old_
  {
    hide OfRank;
    var rest := old_[..|old_| - 1];
    assert next[1..] == rest && next[..1] == [old_[|old_| - 1]];
    forall k | 0 <= k <= 2
      ensures OfRank(next, ranks, k) == (if k == 1 then next[..1] else []) + (if k == 0 then rest else [])
    {
      OfRankSplit(next, ranks, k, 1);
      OfRankUniform(next[..1], ranks[..1], k, 1);
      OfRankUniform(next[1..], ranks[1..], k, 0);
    }
  }

  // ------------------------------------------------------------- exact swaps

  /** Positions when the items at `i` and `j` have changed places. */
  ghost predicate SwappedPositions(p: seq<int>, i: nat, j: nat) {
    && i < j < |p|
    && forall k | 0 <= k < |p| :: p[k] == if k == i then j else if k == j then i else k
  }

  lemma {:induction false} SwapWitness(p: seq<int>, marks: seq<bool>, i: nat, j: nat)
    requires SwappedPositions(p, i, j) && IsLis(p, marks)
    ensures |Marked(marks)| >= |p| - 2
  {
    var idx: seq<nat> :=
      seq(|p| - 2, k requires 0 <= k < |p| - 2 => if k < i then k else if k < j - 1 then k + 1 else k + 2);
    assert Increasing(p, idx);
  }

  /** Marks avoiding three positions are too few. */
  lemma {:induction false} ThreeUnmarked(marks: seq<bool>, a: nat, b: nat, c: nat)
    requires a < b < c < |marks| && !marks[a] && !marks[b] && !marks[c]
    ensures |Marked(marks)| <= |marks| - 3
  {
    assert Marked(marks) <= UpTo(|marks|) - {a, b, c};
    SubsetSize(Marked(marks), UpTo(|marks|) - {a, b, c});
    assert |UpTo(|marks|) - {a, b, c}| == |marks| - 3;
  }

  /** Three or more apart, the two exchanged positions are exactly the ones left out. */
  lemma {:induction false} SwapUnmarked(p: seq<int>, marks: seq<bool>, i: nat, j: nat)
    requires SwappedPositions(p, i, j) && j - i >= 3 && IsLis(p, marks)
    ensures forall k | 0 <= k < |p| :: marks[k] <==> k != i && k != j
  {
    SwapWitness(p, marks, i, j);
    EndsUnmarked(p, marks, i, j);
    hide IsLis, SwappedPositions;
    forall k | 0 <= k < |p| && k != i && k != j ensures marks[k] {
      if !marks[k] {
        if k < i { ThreeUnmarked(marks, k, i, j); }
        else if k < j { ThreeUnmarked(marks, i, k, j); }
        else { ThreeUnmarked(marks, i, j, k); }
      }
    }
  }

  lemma {:induction false} EndsUnmarked(p: seq<int>, marks: seq<bool>, i: nat, j: nat)
    requires SwappedPositions(p, i, j) && j - i >= 3 && IsLis(p, marks) && |Marked(marks)| >= |p| - 2
    ensures !marks[i] && !marks[j] && |marks| == |p|
  {
    assert marks[i] ==> !marks[i + 1] && !marks[i + 2] && !marks[i + 3];
    assert marks[j] ==> !marks[j - 3] && !marks[j - 2] && !marks[j - 1];
    hide IsLis, SwappedPositions;
    if marks[i] {
      ThreeUnmarked(marks, i + 1, i + 2, i + 3);
    }
    if marks[j] {
      ThreeUnmarked(marks, j - 3, j - 2, j - 1);
    }
  }

  lemma {:induction false} UnmarkedTwo(marks: seq<bool>, i: nat, j: nat)
    requires i < j < |marks| && forall k | 0 <= k < |marks| :: marks[k] <==> k != i && k != j
    ensures Unmarked(marks) == [i, j]
  {
    SameIncreasing(Unmarked(marks), [i, j]);
  }

  lemma {:induction false} SwapPositions(old_: seq<VNode>, next: seq<VNode>, i: nat, j: nat)
    requires Distinct(old_) && i < j < |old_| && next == old_[i := old_[j]][j := old_[i]]
    ensures (forall x | x in old_ :: x in next) && (forall x | x in next :: x in old_) && Distinct(next)
    ensures SwappedPositions(MoveScripts.Positions(old_, next), i, j)
    ensures Exchange(old_, next[i], next[j]) == next
  {
    SwapMembers(old_, next, i, j);
    forall k | 0 <= k < |next|
      ensures MoveScripts.Positions(old_, next)[k] == if k == i then j else if k == j then i else k
    {
      IndexOfUnique(old_, if k == i then j else if k == j then i else k);
    }
  }

  lemma {:induction false} SwapMembers(old_: seq<VNode>, next: seq<VNode>, i: nat, j: nat)
    requires Distinct(old_) && i < j < |old_| && next == old_[i := old_[j]][j := old_[i]]
    ensures (forall x | x in old_ :: x in next) && (forall x | x in next :: x in old_) && Distinct(next)
    ensures Exchange(old_, next[i], next[j]) == next
  {
    forall x | x in old_ ensures x in next {
      var k :| 0 <= k < |old_| && old_[k] == x;
      assert next[if k == i then j else if k == j then i else k] == x;
    }
    forall x | x in next ensures x in old_ {
      var k :| 0 <= k < |next| && next[k] == x;
      assert old_[if k == i then j else if k == j then i else k] == x;
    }
  }

  /**
   Two items at least three places apart that change places: the update queues
   one swap and nothing else, and its replay gives the new order.
   */
  lemma {:induction false} DistantSwap(old_: seq<VNode>, next: seq<VNode>, ops: seq<Op>, marks: seq<bool>, cut: nat,
                                       i: nat, j: nat)
    requires Distinct(old_) && i < j < |old_| && j - i >= 3
    requires next == old_[i := old_[j]][j := old_[i]]
    requires IsUpdate(ops, old_, next, marks, cut)
    ensures ops == [Op.Swap(next[i], next[j])]
    ensures Replay(old_, ops) == next
  {
    hide IsUpdate, Replay, Kinds, Arranged, Common, IsLis, Unmarked, MoveScripts.Positions, Rank, Ranks,
         SwappedPositions, Exchange;
    SwapPositions(old_, next, i, j);
    Reordering(old_, next, ops, marks, cut);
    SwapUnmarked(MoveScripts.Positions(old_, next), marks, i, j);
    UnmarkedTwo(marks, i, j);
    UpdateReplay(old_, next, ops, marks, cut);
    NothingRemoved(old_, next, ops, marks, cut);
  }

  lemma {:induction false} NothingRemoved(old_: seq<VNode>, next: seq<VNode>, ops: seq<Op>, marks: seq<bool>, cut: nat)
    requires IsUpdate(ops, old_, next, marks, cut) && next != []
    requires forall x | x in old_ :: x in next
    ensures |Common(next, Common(old_, next))| == |marks| && ops == Reorder(next, Common(old_, next), marks)
  {
    hide Reorder, Common, IsLis, MoveScripts.Positions;
    assert ops == ops[..cut] + ops[cut..];
    UpdateMarks(old_, next, ops, marks, cut);
    NoRemovals(ops[..cut], old_, next);
  }

  lemma {:induction false} NoneListed(gone: seq<VNode>)
    requires Distinct(gone) && forall x :: x !in gone
    ensures gone == []
  {
    assert ToSet(gone) == {};
    DistinctSize(gone);
  }

  lemma {:induction false} NoRemovals(ops: seq<Op>, old_: seq<VNode>, next: seq<VNode>)
    requires IsRemoval(ops, old_, next) && next != [] && forall x | x in old_ :: x in next
    ensures ops == []
  {
    var gone: seq<VNode> :| Distinct(gone) && (forall x :: x in gone <==> x in old_ && x !in next)
                && ops == seq(|gone|, i requires 0 <= i < |gone| => Remove(gone[i]));
    NoneListed(gone);
  }

  // -------------------------------------------------------- no update moves less

  /** Move operations among `ops`. */
  function MovesSent(ops: seq<Op>): nat {
    if ops == [] then 0 else (if ops[0].Move? then 1 else 0) + MovesSent(ops[1..])
  }

  lemma {:induction false} MovesSplit(a: seq<Op>, b: seq<Op>)
    ensures MovesSent(a + b) == MovesSent(a) + MovesSent(b)
    decreases a
  {
    if a == [] {
      assert a + b == b;
    } else {
      assert (a + b)[1..] == a[1..] + b;
      MovesSplit(a[1..], b);
    }
  }

  lemma {:induction false} NoMoves(ops: seq<Op>)
    requires forall o | o in ops :: !o.Move?
    ensures MovesSent(ops) == 0
    decreases ops
  {
    if ops != [] {
      assert ops[0] in ops && forall o | o in ops[1..] :: o in ops;
      NoMoves(ops[1..]);
    }
  }

  lemma {:induction false} RebuildMoves(next: seq<VNode>, kinds: seq<Kind>, bulk: seq<VNode>)
    requires |kinds| == |next|
    ensures MovesSent(Rebuild(next, kinds, bulk)) == |MovedOf(next, kinds)|
    decreases next
  {
    NoMoves(FlushBulk(bulk));
    if next != [] {
      match kinds[0]
      case Kept => RebuildMoves(next[1..], kinds[1..], bulk);
      case New => RebuildMoves(next[1..], kinds[1..], bulk + [next[0]]);
      case Moved =>
        RebuildMoves(next[1..], kinds[1..], []);
        MovesSplit(FlushBulk(bulk) + [Op.Move(next[0])], Rebuild(next[1..], kinds[1..], []));
        MovesSplit(FlushBulk(bulk), [Op.Move(next[0])]);
    }
  }

  /** Unset marks. */
  function Unset(marks: seq<bool>): nat {
    if marks == [] then 0 else (if marks[0] then 0 else 1) + Unset(marks[1..])
  }

  lemma {:induction false} UnsetIs(marks: seq<bool>, n: nat)
    requires n <= |marks|
    ensures Unset(marks[..n]) + |Marked(marks[..n])| == n
    decreases n
  {
    if n == 0 {
      assert Marked(marks[..0]) == {};
    } else {
      UnsetIs(marks, n - 1);
      UnsetLast(marks[..n - 1], marks[n - 1]);
      FrontSnoc(marks, n - 1);
      hide Unset;
      if marks[n - 1] {
        assert Marked(marks[..n]) == Marked(marks[..n - 1]) + {n - 1};
      } else {
        assert Marked(marks[..n]) == Marked(marks[..n - 1]);
      }
    }
  }

  lemma FrontSnoc(marks: seq<bool>, n: nat)
    requires n < |marks|
    ensures marks[..n + 1] == marks[..n] + [marks[n]]
  {
  }

  lemma {:induction false} UnsetLast(marks: seq<bool>, m: bool)
    ensures Unset(marks + [m]) == Unset(marks) + if m then 0 else 1
    decreases marks
  {
    if marks == [] {
      assert [m][1..] == [] && marks + [m] == [m];
    } else {
      assert (marks + [m])[1..] == marks[1..] + [m];
      UnsetLast(marks[1..], m);
    }
  }

  lemma {:induction false} MovedCount(next: seq<VNode>, known: seq<VNode>, marks: seq<bool>)
    requires |Common(next, known)| == |marks|
    ensures |MovedOf(next, Kinds(next, known, marks))| == Unset(marks)
    decreases next
  {
    hide Common;
    if next != [] {
      CommonStep(next, known);
      MovedCount(next[1..], known, if next[0] in known then marks[1..] else marks);
    } else {
      EmptyCommon(known);
    }
  }

  lemma EmptyCommon(known: seq<VNode>)
    ensures Common([], known) == []
  {
  }

  lemma {:induction false} NoMovesRemoving(ops: seq<Op>, old_: seq<VNode>, next: seq<VNode>)
    requires IsRemoval(ops, old_, next)
    ensures MovesSent(ops) == 0
  {
    if next == [] && old_ != [] {
      NoMoves(ops);
    } else {
      var gone: seq<VNode> :| Distinct(gone) && (forall x :: x in gone <==> x in old_ && x !in next)
                  && ops == seq(|gone|, i requires 0 <= i < |gone| => Remove(gone[i]));
      NoMoves(ops);
    }
  }

  /**
   Off the fast path an update sends one move per surviving node outside the
   marks, and no script of single-node moves turns the old order of the
   surviving nodes into the new one moving fewer distinct nodes.
   */
  lemma {:induction false} MovesOptimal(old_: seq<VNode>, next: seq<VNode>, ops: seq<Op>, marks: seq<bool>, cut: nat,
                                        script: seq<MoveScripts.Move<VNode>>)
    requires Distinct(old_) && Distinct(next) && IsUpdate(ops, old_, next, marks, cut)
    requires !TakesSwap(next, Common(old_, next), marks)
    requires MoveScripts.Run(Common(old_, next), script) == Common(next, Common(old_, next))
    ensures MovesSent(ops) == |Common(next, Common(old_, next))| - |Marked(marks)|
    ensures MovesSent(ops) <= |MoveScripts.Moved(script)|
  {
    hide Common, IsLis, MoveScripts.Positions, Kinds, Rebuild, MoveScripts.Run, IsRemoval, Unmarked;
    var known := Common(old_, next);
    var s := Common(next, known);
    CommonDistinct(old_, next);
    CommonDistinct(next, known);
    UpdateMarks(old_, next, ops, marks, cut);
    assert ops == ops[..cut] + ops[cut..];
    MovesSplit(ops[..cut], ops[cut..]);
    NoMovesRemoving(ops[..cut], old_, next);
    RebuildMoves(next, Kinds(next, known, marks), []);
    MovedCount(next, known, marks);
    UnsetIs(marks, |marks|);
    assert marks[..|marks|] == marks;
    MoveScripts.MovesAreMinimal(known, script, s, marks);
  }
}
