module Limiters {
  // The token bucket (pkg/ratelimit/limiter.go) over exact reals: its constant-size
  // state decides exactly what the whole history of calls decides.

  /** The positions from `from` on that were answered with yes. */
  function Yes(d: seq<bool>, from: nat): set<nat> {
    set i: nat | from <= i < |d| && d[i]
  }

  lemma {:induction false} YesSnoc(d: seq<bool>, b: bool, from: nat)
    requires from <= |d|
    ensures |Yes(d + [b], from)| == |Yes(d, from)| + if b then 1 else 0
  {
    assert Yes(d + [b], from) == Yes(d, from) + if b then {|d|} else {};
  }

  /** What happened so far: the creation time, the times of the calls and their answers. */
  datatype History = History(created: real, times: seq<real>, answers: seq<bool>)

  ghost predicate Whole(h: History) {
    |h.times| == |h.answers|
  }

  /** Windows start at the creation (0) or at the call before position `k`. */
  function Start(h: History, k: nat): real
    requires k <= |h.times|
  {
    if k == 0 then h.created else h.times[k - 1]
  }

  /** Tokens added in a stretch of time. */
  function Earned(rate: real, elapsed: real): real {
    elapsed * rate
  }

  lemma EarnedAdds(rate: real, a: real, b: real, c: real)
    ensures Earned(rate, a - c) == Earned(rate, a - b) + Earned(rate, b - c)
    ensures Earned(rate, 0.0) == 0.0
  {
  }

  /** Yes-answers in the window from start `k` on. */
  function Used(h: History, k: nat): nat {
    |Yes(h.answers, if k == 0 then 0 else k - 1)|
  }

  /** What is left at time `now` of the window from start `k`. */
  function Left(h: History, rate: real, burst: int, k: nat, now: real): real
    requires k <= |h.times|
  {
    burst as real + Earned(rate, now - Start(h, k)) - Used(h, k) as real
  }

  function Last(h: History): real {
    Start(h, |h.times|)
  }

  /**
   One more call at `now` fits: in every window that ends with it, and in the one
   it opens itself, it stays within burst plus rate times the time elapsed.
   */
  ghost predicate Fits(h: History, rate: real, burst: int, now: real) {
    && burst >= 1
    && forall k | 0 <= k <= |h.times| :: Used(h, k) as real + 1.0 <= burst as real + Earned(rate, now - Start(h, k))
  }

  lemma FitsIs(h: History, rate: real, burst: int, now: real)
    ensures Fits(h, rate, burst, now) <==> burst >= 1 && forall k | 0 <= k <= |h.times| ::
              Used(h, k) as real + 1.0 <= burst as real + (now - Start(h, k)) * rate
  {
    hide Used;
  }

  function Then(h: History, now: real, ok: bool): History {
    h.(times := h.times + [now], answers := h.answers + [ok])
  }

  /** `level` is what is left of the tightest window at the time of the last call. */
  ghost predicate IsLevel(h: History, rate: real, burst: int, level: real) {
    && (forall k | 0 <= k <= |h.times| :: level <= Left(h, rate, burst, k, Last(h)))
    && (exists k :: 0 <= k <= |h.times| && level == Left(h, rate, burst, k, Last(h)))
  }

  lemma {:induction false} LeftThen(h: History, rate: real, burst: int, k: nat, now: real, ok: bool)
    requires Whole(h) && k <= |h.times|
    ensures Left(Then(h, now, ok), rate, burst, k, now)
            == Left(h, rate, burst, k, Last(h)) + Earned(rate, now - Last(h)) - if ok then 1.0 else 0.0
  {
    YesSnoc(h.answers, ok, if k == 0 then 0 else k - 1);
    assert Start(Then(h, now, ok), k) == Start(h, k);
    EarnedAdds(rate, now, Last(h), Start(h, k));
    hide Earned, Yes;
  }

  /** The window a call opens holds that call alone. */
  lemma {:induction false} LeftOwn(h: History, rate: real, burst: int, now: real, ok: bool)
    requires Whole(h)
    ensures Left(Then(h, now, ok), rate, burst, |h.times| + 1, now) == burst as real - if ok then 1.0 else 0.0
  {
    YesSnoc(h.answers, ok, |h.times|);
    EarnedAdds(rate, now, now, now);
    hide Earned;
  }

  /** The bucket's arithmetic keeps track of the tightest window. */
  lemma {:induction false} LevelStep(h: History, rate: real, burst: int, level: real, now: real, ok: bool)
    requires Whole(h) && IsLevel(h, rate, burst, level)
    ensures var refilled := level + Earned(rate, now - Last(h));
            var capped := if refilled > burst as real then burst as real else refilled;
            IsLevel(Then(h, now, ok), rate, burst, capped - if ok then 1.0 else 0.0)
  {
    hide Earned, Used, Left;
    var refilled := level + Earned(rate, now - Last(h));
    var h' := Then(h, now, ok);
    var n := |h.times|;
    var level' := (if refilled > burst as real then burst as real else refilled) - if ok then 1.0 else 0.0;
    LeftOwn(h, rate, burst, now, ok);
    forall k | 0 <= k <= |h'.times| ensures level' <= Left(h', rate, burst, k, Last(h')) {
      if k <= n {
        LeftThen(h, rate, burst, k, now, ok);
      }
    }
    var k :| 0 <= k <= n && level == Left(h, rate, burst, k, Last(h));
    LeftThen(h, rate, burst, k, now, ok);
    if refilled > burst as real {
      assert level' == Left(h', rate, burst, n + 1, Last(h'));
    } else {
      assert level' == Left(h', rate, burst, k, Last(h'));
    }
  }

  /** There is a token exactly when the call fits in every window. */
  lemma {:induction false} LevelDecides(h: History, rate: real, burst: int, level: real, now: real)
    requires Whole(h) && IsLevel(h, rate, burst, level)
    ensures var refilled := level + Earned(rate, now - Last(h));
            var capped := if refilled > burst as real then burst as real else refilled;
            capped >= 1.0 <==> Fits(h, rate, burst, now)
  {
    hide Earned, Used;
    var refilled := level + Earned(rate, now - Last(h));
    forall k | 0 <= k <= |h.times|
      ensures Left(h, rate, burst, k, Last(h)) + Earned(rate, now - Last(h))
              == burst as real + Earned(rate, now - Start(h, k)) - Used(h, k) as real
    {
      EarnedAdds(rate, now, Last(h), Start(h, k));
    }
    var k :| 0 <= k <= |h.times| && level == Left(h, rate, burst, k, Last(h));
    assert refilled == burst as real + Earned(rate, now - Start(h, k)) - Used(h, k) as real;
  }

  class Limiter {
    const maxTokens: int
    const rate: real
    var tokens: real
    var lastTime: real
    ghost var history: History

    /** Every answer so far was decided by the windows, and the tokens are what is left of the tightest one. */
    ghost predicate Valid()
      reads this
    {
      && Whole(history) && lastTime == Last(history)
      && IsLevel(history, rate, maxTokens, tokens)
      && Decided(history, rate, maxTokens)
    }

    constructor (rate: real, burst: int, now: real)
      ensures Valid() && history == History(now, [], []) && this.rate == rate && maxTokens == burst
    {
      this.rate, maxTokens, tokens, lastTime := rate, burst, burst as real, now;
      history := History(now, [], []);
      new;
      assert Left(history, rate, burst, 0, now) == burst as real;
    }

    method Allow(now: real) returns (ok: bool)
      requires Valid()
      modifies this
      ensures Valid() && history == Then(old(history), now, ok)
      ensures ok <==> Fits(old(history), rate, maxTokens, now)
      ensures ok <==> maxTokens >= 1 && forall k | 0 <= k <= |old(history).times| ::
                Used(old(history), k) as real + 1.0 <= maxTokens as real + (now - Start(old(history), k)) * rate
    {
      FitsIs(history, rate, maxTokens, now);
      hide IsLevel, Fits, Decided, Used;
      LevelDecides(history, rate, maxTokens, tokens, now);
      ghost var before := history;
      var elapsed := now - lastTime;
      lastTime := now;
      ghost var level := tokens;
      assert elapsed * rate == Earned(rate, now - Last(before));
      tokens := tokens + elapsed * rate;
      if tokens > maxTokens as real {
        tokens := maxTokens as real;
      }
      ok := tokens >= 1.0;
      if ok {
        tokens := tokens - 1.0;
      }
      LevelStep(before, rate, maxTokens, level, now, ok);
      DecidedThen(before, rate, maxTokens, now, ok);
      history := Then(before, now, ok);
    }
  }

  /** The history up to call `n`. */
  function Upto(h: History, n: nat): History
    requires Whole(h) && n <= |h.times|
  {
    h.(times := h.times[..n], answers := h.answers[..n])
  }

  /** Every answer is what the windows say. */
  ghost predicate Decided(h: History, rate: real, burst: int)
    requires Whole(h)
  {
    forall n | 0 <= n < |h.times| :: h.answers[n] <==> Fits(Upto(h, n), rate, burst, h.times[n])
  }

  lemma {:induction false} DecidedThen(h: History, rate: real, burst: int, now: real, ok: bool)
    requires Whole(h) && Decided(h, rate, burst) && (ok <==> Fits(h, rate, burst, now))
    ensures Decided(Then(h, now, ok), rate, burst)
  {
    var h' := Then(h, now, ok);
    hide Fits;
    forall n | 0 <= n < |h'.times| ensures h'.answers[n] <==> Fits(Upto(h', n), rate, burst, h'.times[n]) {
      assert n < |h.times| ==> Upto(h', n) == Upto(h, n);
      assert n == |h.times| ==> Upto(h', n) == h;
    }
  }

  ghost predicate Ascending(h: History) {
    forall i, j | 0 <= i < j <= |h.times| :: Start(h, i) <= Start(h, j)
  }

  lemma {:induction false} WithinShare(h: History, rate: real, burst: int, k: nat, now: real)
    requires Whole(h) && Decided(h, rate, burst) && Ascending(h) && now >= Last(h)
    requires rate >= 0.0 && burst >= 0 && k <= |h.times|
    ensures Used(h, k) as real <= burst as real + Earned(rate, now - Start(h, k))
    decreases |h.times|
  {
    var n := |h.times|;
    hide Earned, Fits;
    assert k < n ==> Start(h, k) <= Start(h, n);
    Growing(rate, Start(h, k), Last(h), now);
    if n > 0 {
      LastAnswer(h, rate, burst, k);
      DecidedBefore(h, rate, burst);
      if !h.answers[n - 1] && k < n {
        var before := Upto(h, n - 1);
        assert forall j | 0 <= j < n :: Start(before, j) == Start(h, j);
        hide Decided, Used;
        assert Last(before) <= h.times[n - 1] by { assert Start(h, n - 1) <= Start(h, n); }
        WithinShare(before, rate, burst, k, h.times[n - 1]);
      }
    }
  }

  /** What the last answer adds to a window. */
  lemma {:induction false} UsedLast(h: History, k: nat)
    requires Whole(h) && 0 < |h.times| && k <= |h.times|
    ensures var n := |h.times|;
            Used(h, k) == (if k < n then Used(Upto(h, n - 1), k) else 0) + if h.answers[n - 1] then 1 else 0
  {
    var n := |h.times|;
    var d := h.answers[..n - 1];
    assert h.answers == d + [h.answers[n - 1]];
    YesSnoc(d, h.answers[n - 1], if k == 0 then 0 else k - 1);
  }

  /** A yes fits its windows; a no adds nothing to them. */
  lemma {:induction false} LastAnswer(h: History, rate: real, burst: int, k: nat)
    requires Whole(h) && Decided(h, rate, burst) && 0 < |h.times| && k <= |h.times|
    ensures var n := |h.times|;
            && (h.answers[n - 1] ==> Used(h, k) as real <= burst as real + Earned(rate, Last(h) - Start(h, k)))
            && (!h.answers[n - 1] && k == n ==> Used(h, k) == 0)
            && (!h.answers[n - 1] && k < n ==> Used(h, k) == Used(Upto(h, n - 1), k))
  {
    hide Earned, Used;
    var n := |h.times|;
    UsedLast(h, k);
    if h.answers[n - 1] {
      var before := Upto(h, n - 1);
      assert Fits(before, rate, burst, h.times[n - 1]);
      assert k < n ==> Start(before, k) == Start(h, k);
      EarnedAdds(rate, Last(h), Last(h), Last(h));
    }
  }

  lemma {:induction false} DecidedBefore(h: History, rate: real, burst: int)
    requires Whole(h) && Decided(h, rate, burst) && |h.times| > 0
    ensures Decided(Upto(h, |h.times| - 1), rate, burst)
  {
    var before := Upto(h, |h.times| - 1);
    hide Fits;
    forall n | 0 <= n < |before.times|
      ensures before.answers[n] <==> Fits(Upto(before, n), rate, burst, before.times[n])
    {
      assert Upto(before, n) == Upto(h, n);
    }
  }

  lemma {:induction false} Growing(rate: real, a: real, b: real, c: real)
    requires rate >= 0.0 && a <= b <= c
    ensures 0.0 <= Earned(rate, b - a) <= Earned(rate, c - a)
  {
    EarnedAdds(rate, c, b, a);
    assert 0.0 <= (c - b) * rate && 0.0 <= (b - a) * rate;
  }

  /**
   No window, from the creation or any call to any later time, ever holds more
   yes-answers than burst plus rate times the time elapsed.
   */
  lemma {:induction false} NeverExceeded(h: History, rate: real, burst: int, k: nat, now: real)
    requires Whole(h) && Decided(h, rate, burst) && Ascending(h) && now >= Last(h)
    requires rate >= 0.0 && burst >= 0 && k <= |h.times|
    ensures |set i: nat | (if k == 0 then 0 else k - 1) <= i < |h.answers| && h.answers[i]| as real
            <= burst as real + (now - (if k == 0 then h.created else h.times[k - 1])) * rate
  {
    hide Decided, Ascending;
    WithinShare(h, rate, burst, k, now);
    assert Yes(h.answers, if k == 0 then 0 else k - 1)
        == set i: nat | (if k == 0 then 0 else k - 1) <= i < |h.answers| && h.answers[i];
  }

  /** In particular at most burst calls are let through at one instant. */
  lemma {:induction false} BurstAtOnce(h: History, rate: real, burst: int, k: nat)
    requires Whole(h) && Decided(h, rate, burst) && Ascending(h) && rate >= 0.0 && burst >= 0
    requires k <= |h.times| && Start(h, k) == Last(h)
    ensures Used(h, k) <= burst
  {
    hide Decided, Ascending, Used, Earned;
    WithinShare(h, rate, burst, k, Last(h));
    EarnedAdds(rate, Last(h), Last(h), Last(h));
  }
}
