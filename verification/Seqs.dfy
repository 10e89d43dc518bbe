/**
 Facts about sequences shared by the models.
 */
module Seqs {

  ghost predicate Distinct<T>(s: seq<T>) {
    forall i, j | 0 <= i < j < |s| :: s[i] != s[j]
  }

  /** `s` with every occurrence of `x` dropped. */
  function Without<T(==)>(s: seq<T>, x: T): (r: seq<T>)
    ensures forall y | y in s && y != x :: y in r
    ensures forall y | y in r :: y in s && y != x
    ensures |r| <= |s|
  {
    if s == [] then []
    else if s[0] == x then Without(s[1..], x)
    else [s[0]] + Without(s[1..], x)
  }

  lemma {:induction false} WithoutAbsent<T>(s: seq<T>, x: T)
    requires x !in s
    ensures Without(s, x) == s
  {
    if s != [] {
      assert x !in s[1..];
      WithoutAbsent(s[1..], x);
    }
  }

  lemma {:induction false} WithoutSplit<T>(a: seq<T>, b: seq<T>, x: T)
    ensures Without(a + b, x) == Without(a, x) + Without(b, x)
  {
    if a == [] {
      assert a + b == b;
    } else {
      assert (a + b)[1..] == a[1..] + b;
      WithoutSplit(a[1..], b, x);
    }
  }

  lemma WithoutLast<T>(s: seq<T>, x: T)
    requires x !in s
    ensures Without(s + [x], x) == s
  {
    WithoutSplit(s, [x], x);
    WithoutAbsent(s, x);
  }

  /** Dropping the element at `i` of a sequence without repetition. */
  lemma WithoutAt<T>(s: seq<T>, i: nat)
    requires Distinct(s) && i < |s|
    ensures Without(s, s[i]) == s[..i] + s[i + 1..]
  {
    var a, x, b := s[..i], s[i], s[i + 1..];
    assert s == a + [x] + b && x !in a && x !in b;
    hide Distinct;
    WithoutSplit(a + [x], b, x);
    WithoutLast(a, x);
    WithoutAbsent(b, x);
  }

  lemma WithoutDistinct<T>(s: seq<T>, x: T)
    requires Distinct(s)
    ensures Distinct(Without(s, x))
  {
    if x in s {
      var i :| 0 <= i < |s| && s[i] == x;
      WithoutAt(s, i);
    } else {
      WithoutAbsent(s, x);
    }
  }

  /** Position of `x` in `s`. */
  function IndexOf<T(==)>(s: seq<T>, x: T): (i: nat)
    requires x in s
    ensures i < |s| && s[i] == x && x !in s[..i]
  {
    if s[0] == x then 0
    else
      var i := 1 + IndexOf(s[1..], x);
      assert s[..i] == [s[0]] + s[1..][..i - 1];
      i
  }

  lemma IndexOfUnique<T>(s: seq<T>, i: nat)
    requires Distinct(s) && i < |s|
    ensures IndexOf(s, s[i]) == i
  {
  }

  function ToSet<T>(s: seq<T>): set<T> {
    set x | x in s
  }

  lemma {:induction false} DistinctSize<T>(s: seq<T>)
    requires Distinct(s)
    ensures |ToSet(s)| == |s|
  {
    if s != [] {
      var front := s[..|s| - 1];
      DistinctSize(front);
      assert s == front + [s[|s| - 1]];
      assert ToSet(s) == ToSet(front) + {s[|s| - 1]};
    }
  }

  lemma SubsetSize<T>(a: set<T>, b: set<T>)
    requires a <= b
    ensures |a| <= |b|
  {
    assert b == a + (b - a);
  }

  function UpTo(n: nat): (r: set<nat>)
    ensures forall i: nat :: i in r <==> i < n
    ensures |r| == n
  {
    if n == 0 then {} else UpTo(n - 1) + {n - 1}
  }

  /** `s` with `a` and `b` in each other's places. */
  function Exchange<T(==)>(s: seq<T>, a: T, b: T): (r: seq<T>)
    ensures |r| == |s|
  {
    seq(|s|, i requires 0 <= i < |s| => if s[i] == a then b else if s[i] == b then a else s[i])
  }

  lemma Regroup<T>(a: seq<T>, b: seq<T>, c: seq<T>)
    ensures a + (b + c) == (a + b) + c
  {
  }
}
