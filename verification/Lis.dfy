module Lis {
  // The longest-increasing-subsequence step of list reconciliation (pkg/dom/reactive.go, lisIndices).

  /** `idx` lists, in order, positions of a strictly increasing subsequence of `xs`. */
  ghost predicate Increasing(xs: seq<int>, idx: seq<nat>) {
    && (forall k | 0 <= k < |idx| :: idx[k] < |xs|)
    && (forall j, k | 0 <= j < k < |idx| :: idx[j] < idx[k] && xs[idx[j]] < xs[idx[k]])
  }

  /** The positions carrying a mark. */
  function Marked(marks: seq<bool>): set<nat> {
    set i: nat | i < |marks| && marks[i]
  }

  /** `marks` selects a strictly increasing subsequence of `xs`, and none is longer. */
  ghost predicate IsLis(xs: seq<int>, marks: seq<bool>) {
    && |marks| == |xs|
    && (forall i, j | 0 <= i < j < |xs| && marks[i] && marks[j] :: xs[i] < xs[j])
    && (forall idx :: Increasing(xs, idx) ==> |idx| <= |Marked(marks)|)
  }

  /** `m` could stand in for the marked `k`, between the same neighbours. */
  ghost predicate StandsIn(xs: seq<int>, marks: seq<bool>, k: nat, m: nat)
    requires |marks| == |xs| && m < |xs|
  {
    && (forall j | 0 <= j < k && j < |xs| && marks[j] :: xs[j] < xs[m])
    && (forall j | k < j < |xs| && marks[j] :: m < j && xs[m] < xs[j])
  }

  /** The tie-break: of the elements that could take a place in the subsequence, the last one has it. */
  ghost predicate Latest(xs: seq<int>, marks: seq<bool>) {
    |marks| == |xs| && forall k, m | 0 <= k < m < |xs| && marks[k] && !marks[m] :: !StandsIn(xs, marks, k, m)
  }

  lemma {:induction false} NoLongerThanInput(xs: seq<int>, idx: seq<nat>)
    requires Increasing(xs, idx)
    ensures |idx| > 0 ==> |idx| - 1 <= idx[|idx| - 1] < |xs|
  {
    if |idx| > 1 {
      NoLongerThanInput(xs, idx[..|idx| - 1]);
      assert idx[|idx| - 2] < idx[|idx| - 1];
    }
  }

  /** `tails` holds the top of each pile and `tailIdx` where that top stands in `xs`. */
  ghost predicate Tops(xs: seq<int>, tails: seq<int>, tailIdx: seq<int>, level: seq<nat>) {
    && |level| <= |xs|
    && |tails| == |tailIdx|
    && (forall l | 0 <= l < |tails| ::
          0 <= tailIdx[l] < |level| && xs[tailIdx[l]] == tails[l] && level[tailIdx[l]] == l)
    && (forall l, m | 0 <= l < |tails| && tailIdx[l] < m < |level| :: level[m] != l)
  }

  ghost predicate Sorted(tails: seq<int>) {
    forall l, m | 0 <= l < m < |tails| :: tails[l] < tails[m]
  }

  /** No element is smaller than the top of its pile. */
  ghost predicate Covered(xs: seq<int>, tails: seq<int>, level: seq<nat>) {
    && |level| <= |xs|
    && (forall j | 0 <= j < |level| :: level[j] < |tails| && tails[level[j]] <= xs[j])
  }

  /** A larger later element lies on a higher pile. */
  ghost predicate Climbs(xs: seq<int>, level: seq<nat>) {
    && |level| <= |xs|
    && (forall j, k | 0 <= j < k < |level| && xs[j] < xs[k] :: level[j] < level[k])
  }

  ghost predicate Linked(xs: seq<int>, prev: seq<int>, level: seq<nat>) {
    && |level| <= |xs| == |prev|
    && (forall j | 0 <= j < |level| :: LinksBack(xs, prev, level, j))
  }

  /**
   What the pile-building loop keeps after `|level|` elements.  `level[j]` is the
   pile on which element `j` was put: one less than the length of the longest
   increasing subsequence ending at `j`.
   */
  ghost predicate Piles(xs: seq<int>, tails: seq<int>, tailIdx: seq<int>, prev: seq<int>, level: seq<nat>) {
    && Tops(xs, tails, tailIdx, level)
    && Sorted(tails)
    && Covered(xs, tails, level)
    && Climbs(xs, level)
    && Linked(xs, prev, level)
    && (|level| > 0 ==> |tails| > 0)
  }

  /** `prev[j]` ends the chain, or leads to a smaller element one pile lower, the last one there before `j`. */
  ghost predicate LinksBack(xs: seq<int>, prev: seq<int>, level: seq<nat>, j: nat)
    requires |level| <= |xs| == |prev| && j < |level|
  {
    if level[j] == 0 then prev[j] == -1
    else
      && 0 <= prev[j] < j && level[prev[j]] == level[j] - 1 && xs[prev[j]] < xs[j]
      && forall m | prev[j] < m < j :: level[m] != level[j] - 1
  }

  /** The binary search for the leftmost tail not below `val`. */
  method FindPile(tails: seq<int>, val: int) returns (lo: nat)
    requires Sorted(tails)
    ensures Leftmost(tails, lo, val)
  {
    var hi := |tails|;
    lo := 0;
    while lo < hi
      invariant 0 <= lo <= hi <= |tails|
      invariant forall l | 0 <= l < lo :: tails[l] < val
      invariant forall l | hi <= l < |tails| :: tails[l] >= val
    {
      var mid := (lo + hi) / 2;
      if tails[mid] < val {
        lo := mid + 1;
      } else {
        hi := mid;
      }
    }
  }

  method LisIndices(positions: seq<int>) returns (inLIS: seq<bool>)
    ensures IsLis(positions, inLIS) && Latest(positions, inLIS)
  {
    var n := |positions|;
    if n == 0 {
      forall idx | Increasing(positions, idx) ensures |idx| <= 0 {
        NoLongerThanInput(positions, idx);
      }
      return [];
    }
    var tailIdx, prev;
    ghost var tails, level;
    tailIdx, prev, tails, level := BuildPiles(positions);
    NoneLonger(positions, tails, tailIdx, prev, level);
    var start := tailIdx[|tailIdx| - 1];
    inLIS := WalkBack(positions, prev, start, level);
    ChainLatest(positions, tails, tailIdx, prev, level, inLIS);
  }

  /** The loop over the input. */
  method BuildPiles(positions: seq<int>)
    returns (tailIdx: seq<int>, prev: seq<int>, ghost tops: seq<int>, ghost level: seq<nat>)
    ensures |level| == |positions|
    ensures Piles(positions, tops, tailIdx, prev, level)
  {
    hide Piles;
    var n := |positions|;
    var tails: seq<int> := [];
    tailIdx, prev, level := [], seq(n, _ => -1), [];
    NoPiles(positions, prev);
    for i := 0 to n
      invariant |level| == i && |prev| == n && |tails| == |tailIdx|
      invariant Sorted(tails)
      invariant forall j | i <= j < n :: prev[j] == -1
      invariant Piles(positions, tails, tailIdx, prev, level)
    {
      var val := positions[i];
      var lo := FindPile(tails, val);
      ghost var tails0, tailIdx0, prev0 := tails, tailIdx, prev;
      if lo > 0 {
        prev := prev[i := tailIdx[lo - 1]];
      }
      if lo == |tails| {
        tails, tailIdx := tails + [val], tailIdx + [i];
      } else {
        tails, tailIdx := tails[lo := val], tailIdx[lo := i];
      }
      PutOnPile(positions, tails0, tailIdx0, prev0, level, lo, prev);
      level := level + [lo];
    }
    tops := tails;
  }

  lemma NoPiles(xs: seq<int>, prev: seq<int>)
    requires |prev| == |xs|
    ensures Piles(xs, [], [], prev, [])
  {
  }

  /** The pile for `val` found by the binary search. */
  ghost predicate Leftmost(tails: seq<int>, lo: nat, val: int) {
    && lo <= |tails|
    && (forall l | 0 <= l < lo :: tails[l] < val)
    && (forall l | lo <= l < |tails| :: tails[l] >= val)
  }

  function Put(s: seq<int>, lo: nat, v: int): seq<int>
    requires lo <= |s|
  {
    if lo == |s| then s + [v] else s[lo := v]
  }

  /** One turn of the pile-building loop: `val` goes on the leftmost pile whose top is not smaller. */
  lemma PutOnPile(xs: seq<int>, tails: seq<int>, tailIdx: seq<int>, prev: seq<int>, level: seq<nat>,
                  lo: nat, prev': seq<int>)
    requires Piles(xs, tails, tailIdx, prev, level) && |level| < |xs|
    requires Leftmost(tails, lo, xs[|level|])
    requires prev[|level|] == -1
    requires prev' == if lo > 0 then prev[|level| := tailIdx[lo - 1]] else prev
    ensures Piles(xs, Put(tails, lo, xs[|level|]), Put(tailIdx, lo, |level|), prev', level + [lo])
    ensures Sorted(Put(tails, lo, xs[|level|]))
  {
    PutLinks(xs, tails, tailIdx, prev, level, lo, prev');
    PutClimbs(xs, tails, level, lo);
    PutCovers(xs, tails, level, lo);
    PutTops(xs, tails, tailIdx, level, lo);
    PutSorts(tails, lo, xs[|level|]);
  }

  lemma PutTops(xs: seq<int>, tails: seq<int>, tailIdx: seq<int>, level: seq<nat>, lo: nat)
    requires Tops(xs, tails, tailIdx, level) && |level| < |xs| && lo <= |tails|
    ensures Tops(xs, Put(tails, lo, xs[|level|]), Put(tailIdx, lo, |level|), level + [lo])
  {
  }

  lemma PutSorts(tails: seq<int>, lo: nat, val: int)
    requires Sorted(tails) && Leftmost(tails, lo, val)
    ensures Sorted(Put(tails, lo, val))
  {
  }

  lemma PutLinks(xs: seq<int>, tails: seq<int>, tailIdx: seq<int>, prev: seq<int>, level: seq<nat>,
                 lo: nat, prev': seq<int>)
    requires Tops(xs, tails, tailIdx, level) && Linked(xs, prev, level) && |level| < |xs|
    requires Leftmost(tails, lo, xs[|level|])
    requires prev[|level|] == -1
    requires prev' == if lo > 0 then prev[|level| := tailIdx[lo - 1]] else prev
    ensures Linked(xs, prev', level + [lo])
  {
    var level' := level + [lo];
    forall j | 0 <= j < |level'| ensures LinksBack(xs, prev', level', j) {
      assert j < |level| ==> LinksBack(xs, prev, level, j);
    }
  }

  lemma PutClimbs(xs: seq<int>, tails: seq<int>, level: seq<nat>, lo: nat)
    requires Covered(xs, tails, level) && Climbs(xs, level) && |level| < |xs|
    requires Leftmost(tails, lo, xs[|level|])
    ensures Climbs(xs, level + [lo])
  {
    forall j | 0 <= j < |level| && xs[j] < xs[|level|] ensures level[j] < lo {
      assert tails[level[j]] <= xs[j];
    }
  }

  lemma PutCovers(xs: seq<int>, tails: seq<int>, level: seq<nat>, lo: nat)
    requires Covered(xs, tails, level) && |level| < |xs|
    requires Leftmost(tails, lo, xs[|level|])
    ensures Covered(xs, Put(tails, lo, xs[|level|]), level + [lo])
  {
  }

  /** Element `idx[m]` of an increasing subsequence lies on pile `m` or higher. */
  lemma {:induction false} LevelsClimb(xs: seq<int>, tails: seq<int>, tailIdx: seq<int>, prev: seq<int>,
                                       level: seq<nat>, idx: seq<nat>, m: nat)
    requires Piles(xs, tails, tailIdx, prev, level) && |level| == |xs|
    requires Increasing(xs, idx) && m < |idx|
    ensures m <= level[idx[m]] < |tails|
  {
    if m > 0 {
      LevelsClimb(xs, tails, tailIdx, prev, level, idx, m - 1);
      assert idx[m - 1] < idx[m] && xs[idx[m - 1]] < xs[idx[m]];
    }
  }

  lemma NoneLonger(xs: seq<int>, tails: seq<int>, tailIdx: seq<int>, prev: seq<int>, level: seq<nat>)
    requires Piles(xs, tails, tailIdx, prev, level) && |level| == |xs|
    ensures forall idx :: Increasing(xs, idx) ==> |idx| <= |tails|
  {
    forall idx | Increasing(xs, idx) && |idx| > 0 ensures |idx| <= |tails| {
      LevelsClimb(xs, tails, tailIdx, prev, level, idx, |idx| - 1);
    }
  }

  /** The reconstruction loop: follow `prev` from `start`, the top of the last pile. */
  method WalkBack(xs: seq<int>, prev: seq<int>, start: nat, ghost level: seq<nat>) returns (inLIS: seq<bool>)
    requires Linked(xs, prev, level) && start < |level| == |xs|
    ensures |inLIS| == |xs| == |prev|
    ensures forall i, j | 0 <= i < j < |xs| && inLIS[i] && inLIS[j] :: xs[i] < xs[j]
    ensures |Marked(inLIS)| == level[start] + 1
    ensures Chain(prev, start, inLIS, -1)
  {
    inLIS := seq(|xs|, _ => false);
    var k: int := start;
    ghost var size: int := level[start] + 1;
    ghost var left := size;   // elements still to be marked
    assert Marked(inLIS) == {};
    LinkedSizes(xs, prev, level);
    NoChain(prev, start, inLIS);
    assert Rising(xs, inLIS, k);
    hide Chain, Followed, Marked, Linked, LinksBack, Rising;
    while k >= 0
      invariant -1 <= k < |xs| == |inLIS|
      invariant left == if k == -1 then 0 else level[k] + 1
      invariant |Marked(inLIS)| == size - left
      invariant Rising(xs, inLIS, k)
      invariant Chain(prev, start, inLIS, k)
      invariant k >= 0 ==> k == start || Followed(prev, inLIS, k)
      decreases k
    {
      BackOne(xs, prev, level, k);
      RisingMore(xs, inLIS, k, prev[k]);
      MarkOne(inLIS, k);
      ChainGrows(prev, start, inLIS, k);
      inLIS := inLIS[k := true];
      left := left - 1;
      k := prev[k];
    }
    RisingAll(xs, inLIS);
  }

  /** What is marked increases, and `k` could go in front of it. */
  ghost predicate Rising(xs: seq<int>, marks: seq<bool>, k: int) {
    && |marks| == |xs| && k < |xs|
    && (forall i | 0 <= i < |xs| && marks[i] :: k < i && (k >= 0 ==> xs[k] < xs[i]))
    && (forall i, j | 0 <= i < j < |xs| && marks[i] && marks[j] :: xs[i] < xs[j])
  }

  lemma RisingMore(xs: seq<int>, marks: seq<bool>, k: nat, p: int)
    requires Rising(xs, marks, k) && -1 <= p < k && (p >= 0 ==> xs[p] < xs[k])
    ensures Rising(xs, marks[k := true], p) && !marks[k] && forall i | 0 <= i < |marks| && marks[i] :: k < i
  {
  }

  lemma RisingAll(xs: seq<int>, marks: seq<bool>)
    requires Rising(xs, marks, -1)
    ensures forall i, j | 0 <= i < j < |xs| && marks[i] && marks[j] :: xs[i] < xs[j]
  {
  }

  lemma LinkedSizes(xs: seq<int>, prev: seq<int>, level: seq<nat>)
    requires Linked(xs, prev, level)
    ensures |level| <= |xs| == |prev|
  {
  }

  lemma BackOne(xs: seq<int>, prev: seq<int>, level: seq<nat>, k: nat)
    requires Linked(xs, prev, level) && k < |level| <= |xs| == |prev|
    ensures -1 <= prev[k] < k && (prev[k] == -1 <==> level[k] == 0)
    ensures prev[k] >= 0 ==> level[prev[k]] == level[k] - 1 && xs[prev[k]] < xs[k]
  {
    assert LinksBack(xs, prev, level, k);
  }

  lemma NoChain(prev: seq<int>, start: nat, marks: seq<bool>)
    requires |marks| == |prev| && forall i | 0 <= i < |marks| :: !marks[i]
    ensures Chain(prev, start, marks, start)
  {
  }

  lemma MarkOne(marks: seq<bool>, k: nat)
    requires k < |marks| && !marks[k]
    ensures |Marked(marks[k := true])| == |Marked(marks)| + 1
  {
    assert Marked(marks[k := true]) == Marked(marks) + {k};
  }

  /** A later marked element leads to `i`. */
  ghost predicate Followed(prev: seq<int>, marks: seq<bool>, i: nat) {
    |marks| == |prev| && exists s :: i < s < |marks| && marks[s] && prev[s] == i
  }

  /** Every marked element but the first found was reached from a marked one; `k` comes next. */
  ghost predicate Chain(prev: seq<int>, start: nat, marks: seq<bool>, k: int) {
    Reached(prev, start, marks) && Leads(prev, marks, k)
  }

  ghost predicate Reached(prev: seq<int>, start: nat, marks: seq<bool>) {
    |marks| == |prev| && forall i | 0 <= i < |marks| && marks[i] :: i == start || Followed(prev, marks, i)
  }

  ghost predicate Leads(prev: seq<int>, marks: seq<bool>, k: int) {
    |marks| == |prev| && forall i | 0 <= i < |marks| && marks[i] && prev[i] != k :: 0 <= prev[i] < i && marks[prev[i]]
  }

  lemma FollowedMore(prev: seq<int>, marks: seq<bool>, k: nat, i: nat)
    requires k < |marks| && Followed(prev, marks, i)
    ensures Followed(prev, marks[k := true], i)
  {
    var s :| i < s < |marks| && marks[s] && prev[s] == i;
    assert marks[k := true][s];
  }

  lemma {:induction false} ReachedMore(prev: seq<int>, start: nat, marks: seq<bool>, k: nat)
    requires Reached(prev, start, marks) && k < |marks| && (k == start || Followed(prev, marks, k))
    ensures Reached(prev, start, marks[k := true])
  {
    var marks' := marks[k := true];
    hide Followed;
    forall i | 0 <= i < |marks| && marks'[i] ensures i == start || Followed(prev, marks', i) {
      if i != start {
        assert marks[i] || i == k;
        FollowedMore(prev, marks, k, i);
      }
    }
  }

  lemma {:induction false} ChainGrows(prev: seq<int>, start: nat, marks: seq<bool>, k: nat)
    requires Chain(prev, start, marks, k) && k < |marks| && -1 <= prev[k] < k
    requires (k == start || Followed(prev, marks, k)) && forall i | 0 <= i < |marks| && marks[i] :: k < i
    ensures Chain(prev, start, marks[k := true], prev[k])
    ensures prev[k] >= 0 ==> Followed(prev, marks[k := true], prev[k])
  {
    ReachedMore(prev, start, marks, k);
    hide Reached;
    assert marks[k := true][k];
  }

  /** Following the last card of each pile keeps the last of several candidates. */
  lemma {:induction false} ChainLatest(xs: seq<int>, tails: seq<int>, tailIdx: seq<int>, prev: seq<int>,
                                       level: seq<nat>, marks: seq<bool>)
    requires Piles(xs, tails, tailIdx, prev, level) && |level| == |xs| > 0 && |marks| == |xs|
    requires Chain(prev, tailIdx[|tailIdx| - 1], marks, -1)
    ensures Latest(xs, marks)
  {
    forall k, m | 0 <= k < m < |xs| && marks[k] && !marks[m] ensures !StandsIn(xs, marks, k, m) {
      if StandsIn(xs, marks, k, m) {
        NotLower(xs, prev, level, marks, k, m, tailIdx[|tailIdx| - 1]);
        NotHigher(xs, tails, tailIdx, prev, level, marks, k, m);
      }
    }
  }

  /** A later stand-in would lie on a lower pile: the chain took the last card. */
  lemma {:induction false} NotHigher(xs: seq<int>, tails: seq<int>, tailIdx: seq<int>, prev: seq<int>,
                                     level: seq<nat>, marks: seq<bool>, k: nat, m: nat)
    requires Piles(xs, tails, tailIdx, prev, level) && |level| == |xs| > 0 && |marks| == |xs|
    requires Chain(prev, tailIdx[|tailIdx| - 1], marks, -1)
    requires k < m < |xs| && marks[k] && StandsIn(xs, marks, k, m)
    ensures level[m] < level[k]
  {
    if k == tailIdx[|tailIdx| - 1] {
      assert level[m] < |tails|;
    } else {
      assert Followed(prev, marks, k);
      var s :| k < s < |marks| && marks[s] && prev[s] == k;
      assert m < s && xs[m] < xs[s];
      hide StandsIn, Chain, Tops, Sorted, Covered;
      assert LinksBack(xs, prev, level, s) && level[m] < level[s];
    }
  }

  /** A stand-in lies on the same pile or a higher one. */
  lemma {:induction false} NotLower(xs: seq<int>, prev: seq<int>, level: seq<nat>, marks: seq<bool>, k: nat, m: nat,
                                     start: nat)
    requires Climbs(xs, level) && Linked(xs, prev, level) && |level| == |xs| == |marks| && Chain(prev, start, marks, -1)
    requires k < m < |xs| && marks[k] && StandsIn(xs, marks, k, m)
    ensures level[k] <= level[m]
  {
    assert LinksBack(xs, prev, level, k);
    if level[k] > 0 {
      assert marks[prev[k]];
    }
  }
}
