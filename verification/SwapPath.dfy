module SwapPath {
  // The fast path of list reconciliation: when exactly two surviving nodes are
  // outside the longest increasing subsequence, one swap is sent. Which updates
  // take it and end up in the right order.

  import opened Seqs
  import opened Wire
  import opened Trees
  import opened Lis
  import opened Reconcile
  import opened ReconcileReplay
  import opened ReconcileOrder
  import MoveScripts

  /** `t` is `s` with the items at `i` and `j` in each other's places. */
  ghost predicate Exchanged(s: seq<VNode>, t: seq<VNode>, i: nat, j: nat) {
    i < j < |s| && t == s[i := s[j]][j := s[i]]
  }

  lemma {:induction false} TwoUnmarked(next: seq<VNode>, known: seq<VNode>, marks: seq<bool>)
    requires |Common(next, known)| == |marks| && TakesSwap(next, known, marks) && Distinct(next)
    ensures var out := Unmarked(marks);
            out[0] < out[1] < |next| && SwapPair(next, known, marks) == (next[out[0]], next[out[1]])
            && next[out[0]] != next[out[1]]
  {
  }

  /** Exchanging what stands at `i` and `j` in `t` turns `s` into `t` only if it stands at `j` and `i` in `s`. */
  lemma {:induction false} ExchangeMeans(s: seq<VNode>, t: seq<VNode>, i: nat, j: nat)
    requires Distinct(s) && Distinct(t) && |s| == |t| && i < j < |t| && (forall x | x in t :: x in s)
    ensures Exchange(s, t[i], t[j]) == t <==> Exchanged(s, t, i, j)
  {
    if Exchange(s, t[i], t[j]) == t {
      assert Exchange(s, t[i], t[j])[i] == t[i] && Exchange(s, t[i], t[j])[j] == t[j];
      assert s[i] == t[j] && s[j] == t[i];
    }
  }

  lemma {:induction false} SwapSize(old_: seq<VNode>, next: seq<VNode>, ops: seq<Op>, marks: seq<bool>, cut: nat)
    requires Distinct(old_) && Distinct(next) && IsUpdate(ops, old_, next, marks, cut)
    requires TakesSwap(next, Common(old_, next), marks)
    ensures var known := Common(old_, next);
            && Distinct(known) && |known| == |next| == |marks| && Common(next, known) == next
            && (forall x | x in next :: x in known) && (forall x | x in known :: x in next)
            && IsLis(MoveScripts.Positions(known, next), marks)
  {
    var known := Common(old_, next);
    UpdateKnown(old_, next, ops, marks, cut);
    AllKnown(next, known) by { assert |Common(next, known)| == |next|; }
    CommonDistinct(old_, next);
    hide Common, Distinct, IsLis, MoveScripts.Positions, IsUpdate, TakesSwap;
    CommonAll(next, known);
    SameSize(known, next);
  }

  lemma UpdateKnown(old_: seq<VNode>, next: seq<VNode>, ops: seq<Op>, marks: seq<bool>, cut: nat)
    requires IsUpdate(ops, old_, next, marks, cut)
    ensures var known := Common(old_, next);
            && (forall x | x in Common(next, known) :: x in known)
            && IsLis(MoveScripts.Positions(known, Common(next, known)), marks) && |marks| == |Common(next, known)|
  {
    hide Common, Reorder, IsRemoval;
  }

  lemma {:induction false} SameSize(s: seq<VNode>, t: seq<VNode>)
    requires Distinct(s) && Distinct(t) && (forall x | x in t :: x in s) && forall x | x in s :: x in t
    ensures |s| == |t|
  {
    DistinctSize(s);
    DistinctSize(t);
    hide Distinct;
    assert ToSet(s) == ToSet(t);
  }

  lemma {:induction false} SwapAt(old_: seq<VNode>, next: seq<VNode>, ops: seq<Op>, marks: seq<bool>, cut: nat)
    requires Distinct(old_) && Distinct(next) && IsUpdate(ops, old_, next, marks, cut)
    requires TakesSwap(next, Common(old_, next), marks)
    ensures Replay(old_, ops) == next <==> Exchanged(Common(old_, next), next, Unmarked(marks)[0], Unmarked(marks)[1])
  {
    var known, out := Common(old_, next), Unmarked(marks);
    SwapSize(old_, next, ops, marks, cut);
    assert |out| == 2;
    TwoUnmarked(next, known, marks);
    UpdateReplay(old_, next, ops, marks, cut);
    hide Common, IsUpdate, Replay, Unmarked, Exchange, Distinct, TakesSwap, SwapPair, IsLis;
    ExchangeMeans(known, next, out[0], out[1]);
  }

  /**
   On the fast path the client gets the new order if and only if the surviving
   nodes are the old ones with two exchanged, and these two are the ones outside
   the marks.
   */
  lemma {:induction false} SwapRightIff(old_: seq<VNode>, next: seq<VNode>, ops: seq<Op>, marks: seq<bool>, cut: nat)
    requires Distinct(old_) && Distinct(next) && IsUpdate(ops, old_, next, marks, cut)
    requires TakesSwap(next, Common(old_, next), marks)
    ensures Replay(old_, ops) == next
            <==> exists i: nat, j: nat :: Exchanged(Common(old_, next), next, i, j) && Unmarked(marks) == [i, j]
  {
    SwapAt(old_, next, ops, marks, cut);
    var out := Unmarked(marks);
    assert |out| == 2;
    hide Common, IsUpdate, Replay, Unmarked, Distinct, TakesSwap, Exchanged;
    assert out == [out[0], out[1]];
  }

  // ------------------------------------------------------- what the caller can see

  lemma {:induction false} UnmarkedBack(marks: seq<bool>, i: nat, j: nat)
    requires Unmarked(marks) == [i, j]
    ensures i < j < |marks| && !marks[i] && !marks[j] && forall k | 0 <= k < |marks| && k != i && k != j :: marks[k]
  {
    var out := Unmarked(marks);
    assert out[0] == i && out[1] == j;
    hide Unmarked;
  }

  /** One or two apart, the exchanged positions are not the ones left out. */
  lemma {:induction false} NearUnmarked(p: seq<int>, marks: seq<bool>, i: nat, j: nat)
    requires SwappedPositions(p, i, j) && j - i <= 2 && IsLis(p, marks) && Latest(p, marks)
    ensures Unmarked(marks) != [i, j]
  {
    hide Unmarked, IsLis, Latest, StandsIn;
    if Unmarked(marks) == [i, j] {
      UnmarkedBack(marks, i, j);
      SizesSame(p, marks);
      if j == i + 1 {
        hide SwappedPositions;
        AdjacentMarked(p, marks, i);
      } else {
        assert j == i + 2;
        hide SwappedPositions;
        MiddleKept(p, marks, i);
      }
    }
  }

  /** Around one item: the last of the three is kept before the middle one. */
  lemma {:induction false} MiddleKept(p: seq<int>, marks: seq<bool>, i: nat)
    requires SwappedPositions(p, i, i + 2) && Latest(p, marks) && |marks| == |p| && !marks[i] && marks[i + 1]
    ensures marks[i + 2]
  {
    if !marks[i + 2] {
      MiddleStands(p, marks, i);
    }
  }

  lemma SizesSame(p: seq<int>, marks: seq<bool>)
    requires Latest(p, marks)
    ensures |p| == |marks|
  {
  }

  /** Next to each other: only one of them is left out. */
  lemma {:induction false} AdjacentMarked(p: seq<int>, marks: seq<bool>, i: nat)
    requires SwappedPositions(p, i, i + 1) && IsLis(p, marks)
    ensures marks[i] || marks[i + 1]
  {
    var idx: seq<nat> := seq(|p| - 1, k requires 0 <= k < |p| - 1 => if k < i then k else k + 1);
    assert Increasing(p, idx);
    assert |Marked(marks)| >= |p| - 1;
    hide IsLis, Increasing, SwappedPositions;
    if !marks[i] && !marks[i + 1] {
      TwoMissing(marks, i, i + 1);
    }
  }

  /** Marks avoiding two positions. */
  lemma {:induction false} TwoMissing(marks: seq<bool>, a: nat, b: nat)
    requires a < b < |marks| && !marks[a] && !marks[b]
    ensures |Marked(marks)| <= |marks| - 2
  {
    assert Marked(marks) <= UpTo(|marks|) - {a, b};
    SubsetSize(Marked(marks), UpTo(|marks|) - {a, b});
  }

  /** Around one item: the last of the three could stand in for the middle one. */
  lemma {:induction false} MiddleStands(p: seq<int>, marks: seq<bool>, i: nat)
    requires SwappedPositions(p, i, i + 2) && |marks| == |p| && !marks[i] && !marks[i + 2]
    ensures StandsIn(p, marks, i + 1, i + 2)
  {
  }

  /**
   As lisIndices chooses the subsequence, the condition is on the two lists alone:
   the fast path is right exactly for two items at least three places apart that
   have changed places.
   */
  lemma {:induction false} SwapRightIffFar(old_: seq<VNode>, next: seq<VNode>, ops: seq<Op>, marks: seq<bool>, cut: nat)
    requires Distinct(old_) && Distinct(next) && IsUpdate(ops, old_, next, marks, cut) && TieBroken(old_, next, marks)
    requires TakesSwap(next, Common(old_, next), marks)
    ensures Replay(old_, ops) == next <==> exists i: nat, j: nat ::
                                            j >= i + 3 && Exchanged(Common(old_, next), next, i, j)
  {
    var known := Common(old_, next);
    SwapSize(old_, next, ops, marks, cut);
    SwapRightIff(old_, next, ops, marks, cut);
    assert Latest(MoveScripts.Positions(known, next), marks);
    hide Unmarked, IsLis, Latest, MoveScripts.Positions, Distinct, Exchanged, Common, IsUpdate, Replay, TakesSwap,
         TieBroken;
    forall i: nat, j: nat | Exchanged(known, next, i, j) ensures Unmarked(marks) == [i, j] <==> j >= i + 3 {
      FarOnly(known, next, marks, i, j);
    }
  }

  lemma {:induction false} FarOnly(known: seq<VNode>, next: seq<VNode>, marks: seq<bool>, i: nat, j: nat)
    requires Distinct(known) && Exchanged(known, next, i, j) && |known| == |next|
    requires forall x | x in next :: x in known
    requires var p := MoveScripts.Positions(known, next); IsLis(p, marks) && Latest(p, marks)
    ensures Unmarked(marks) == [i, j] <==> j >= i + 3
  {
    var p := MoveScripts.Positions(known, next);
    SwapPositions(known, next, i, j);
    assert i < j < |p| == |marks|;
    hide Unmarked, IsLis, Latest, SwappedPositions, MoveScripts.Positions, Distinct;
    if j >= i + 3 {
      SwapUnmarked(p, marks, i, j);
      UnmarkedTwo(marks, i, j);
    } else {
      NearUnmarked(p, marks, i, j);
    }
  }

  /** Two pairs that change places take the fast path and come out wrong, whichever subsequence is chosen. */
  lemma {:induction false} PairsMisordered(a: VNode, b: VNode, c: VNode, d: VNode, ops: seq<Op>, marks: seq<bool>,
                                           cut: nat)
    requires Distinct([a, b, c, d]) && IsUpdate(ops, [a, b, c, d], [c, d, a, b], marks, cut)
    ensures |ops| == 1 && ops[0].Swap? && Replay([a, b, c, d], ops) != [c, d, a, b]
  {
    var old_, next := [a, b, c, d], [c, d, a, b];
    PairsDistinct(a, b, c, d);
    PairsSwapped(a, b, c, d, ops, marks, cut);
    hide IsUpdate, Replay, TakesSwap, Distinct, Common, Unmarked, Exchanged;
    SwapRightIff(old_, next, ops, marks, cut);
    forall i: nat, j: nat | Exchanged(old_, next, i, j) ensures false {
      NotExchanged(a, b, c, d, i, j);
    }
  }

  lemma {:induction false} PairsSwapped(a: VNode, b: VNode, c: VNode, d: VNode, ops: seq<Op>, marks: seq<bool>,
                                        cut: nat)
    requires Distinct([a, b, c, d]) && IsUpdate(ops, [a, b, c, d], [c, d, a, b], marks, cut)
    ensures var old_, next := [a, b, c, d], [c, d, a, b];
            Common(old_, next) == old_ && TakesSwap(next, old_, marks) && |ops| == 1 && ops[0].Swap?
  {
    var old_, next := [a, b, c, d], [c, d, a, b];
    PairsDistinct(a, b, c, d);
    Reordering(old_, next, ops, marks, cut);
    PairsPositions(a, b, c, d);
    PairsMarks(MoveScripts.Positions(old_, next), marks);
    hide IsLis, MoveScripts.Positions, Distinct, Common, Unmarked;
    NothingRemoved(old_, next, ops, marks, cut);
  }

  lemma {:induction false} PairsDistinct(a: VNode, b: VNode, c: VNode, d: VNode)
    requires Distinct([a, b, c, d])
    ensures Distinct([c, d, a, b])
    ensures (forall x | x in [a, b, c, d] :: x in [c, d, a, b]) && (forall x | x in [c, d, a, b] :: x in [a, b, c, d])
    ensures a != b && a != c && a != d && b != c && b != d && c != d
  {
    var s := [a, b, c, d];
    assert s[0] != s[1] && s[0] != s[2] && s[0] != s[3] && s[1] != s[2] && s[1] != s[3] && s[2] != s[3];
  }

  lemma {:induction false} PairsPositions(a: VNode, b: VNode, c: VNode, d: VNode)
    requires Distinct([a, b, c, d]) && forall x | x in [c, d, a, b] :: x in [a, b, c, d]
    ensures MoveScripts.Positions([a, b, c, d], [c, d, a, b]) == [2, 3, 0, 1]
  {
    var s := [a, b, c, d];
    IndexOfUnique(s, 0);
    IndexOfUnique(s, 1);
    IndexOfUnique(s, 2);
    IndexOfUnique(s, 3);
  }

  lemma {:induction false} PairsMarks(p: seq<int>, marks: seq<bool>)
    requires p == [2, 3, 0, 1] && IsLis(p, marks)
    ensures |Unmarked(marks)| == 2
  {
    assert Increasing(p, [0, 1]);
    assert p[0] > p[2] && p[0] > p[3] && p[1] > p[2] && p[1] > p[3];
    assert !(marks[0] && marks[2]) && !(marks[0] && marks[3]) && !(marks[1] && marks[2]) && !(marks[1] && marks[3]);
    if marks[0] || marks[1] {
      assert !marks[2] && !marks[3] && Marked(marks) <= {0, 1};
      if !marks[0] || !marks[1] {
        FewMarks(marks, if marks[0] then 0 else 1);
      }
      UnmarkedTwo(marks, 2, 3);
    } else {
      assert Marked(marks) <= {2, 3};
      if !marks[2] || !marks[3] {
        FewMarks(marks, if marks[2] then 2 else 3);
      }
      UnmarkedTwo(marks, 0, 1);
    }
  }

  lemma {:induction false} FewMarks(marks: seq<bool>, k: nat)
    requires Marked(marks) <= {k}
    ensures |Marked(marks)| <= 1
  {
    SubsetSize(Marked(marks), {k});
  }

  lemma {:induction false} NotExchanged(a: VNode, b: VNode, c: VNode, d: VNode, i: nat, j: nat)
    requires a != b && a != c && a != d && b != c && b != d && c != d
    ensures !Exchanged([a, b, c, d], [c, d, a, b], i, j)
  {
    var s, t := [a, b, c, d], [c, d, a, b];
    assert s[0] != t[0] && s[1] != t[1] && s[2] != t[2];
  }
}
