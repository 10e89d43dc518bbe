module MoveScripts {
  // Why the reconciler moves the items outside a longest increasing subsequence:
  // no sequence of single-node moves reaches the new order touching fewer nodes.

  import opened Seqs
  import opened Lis

  /** Take `node` out of the list and put it back so that `to` elements precede it. */
  datatype Move<T> = Move(node: T, to: nat)

  function Apply<T(==)>(s: seq<T>, m: Move<T>): seq<T> {
    var rest := Without(s, m.node);
    var k := if m.to <= |rest| then m.to else |rest|;
    rest[..k] + [m.node] + rest[k..]
  }

  function Run<T(==)>(s: seq<T>, script: seq<Move<T>>): seq<T>
    decreases script
  {
    if script == [] then s else Run(Apply(s, script[0]), script[1..])
  }

  function Moved<T(==)>(script: seq<Move<T>>): set<T> {
    set m | m in script :: m.node
  }

  /** Where in `was` the elements of `next` stood, in the new order. */
  function Positions<T(==)>(was: seq<T>, next: seq<T>): (p: seq<int>)
    requires forall x | x in next :: x in was
    ensures |p| == |next|
    ensures forall i | 0 <= i < |p| :: 0 <= p[i] < |was| && was[p[i]] == next[i]
  {
    seq(|next|, i requires 0 <= i < |next| => IndexOf(was, next[i]))
  }

  /** Somewhere in `s`, an `a` precedes a `b`. */
  ghost predicate Before<T>(s: seq<T>, a: T, b: T) {
    exists i, j :: 0 <= i < j < |s| && s[i] == a && s[j] == b
  }

  lemma BeforeConcat<T>(s: seq<T>, t: seq<T>, a: T, b: T)
    ensures Before(s + t, a, b) <==> Before(s, a, b) || Before(t, a, b) || (a in s && b in t)
  {
    var u := s + t;
    if Before(s, a, b) {
      var i, j :| 0 <= i < j < |s| && s[i] == a && s[j] == b;
      assert u[i] == a && u[j] == b;
    }
    if Before(t, a, b) {
      var i, j :| 0 <= i < j < |t| && t[i] == a && t[j] == b;
      assert u[|s| + i] == a && u[|s| + j] == b;
    }
    if a in s && b in t {
      var i :| 0 <= i < |s| && s[i] == a;
      var j :| 0 <= j < |t| && t[j] == b;
      assert u[i] == a && u[|s| + j] == b;
    }
    if Before(u, a, b) {
      var i, j :| 0 <= i < j < |u| && u[i] == a && u[j] == b;
      if |s| <= i {
        assert t[i - |s|] == a && t[j - |s|] == b;
      } else if |s| <= j {
        assert s[i] == a && t[j - |s|] == b;
      }
    }
  }

  lemma {:induction false} BeforeWithout<T>(s: seq<T>, x: T, a: T, b: T)
    requires x != a && x != b
    ensures Before(Without(s, x), a, b) <==> Before(s, a, b)
  {
    if s != [] {
      BeforeWithout(s[1..], x, a, b);
      assert s == [s[0]] + s[1..];
      BeforeConcat([s[0]], s[1..], a, b);
      BeforeConcat([s[0]], Without(s[1..], x), a, b);
    }
  }

  /** A move leaves every pair of other elements in its order. */
  lemma MoveKeepsOthers<T>(s: seq<T>, m: Move<T>, a: T, b: T)
    requires m.node != a && m.node != b
    ensures Before(Apply(s, m), a, b) <==> Before(s, a, b)
  {
    BeforeWithout(s, m.node, a, b);
    var rest := Without(s, m.node);
    var k := if m.to <= |rest| then m.to else |rest|;
    assert rest == rest[..k] + rest[k..];
    BeforeConcat(rest[..k], rest[k..], a, b);
    BeforeConcat(rest[..k] + [m.node], rest[k..], a, b);
    BeforeConcat(rest[..k], [m.node], a, b);
  }

  lemma {:induction false} ScriptKeepsOthers<T>(s: seq<T>, script: seq<Move<T>>, a: T, b: T)
    requires a !in Moved(script) && b !in Moved(script)
    ensures Before(Run(s, script), a, b) <==> Before(s, a, b)
    decreases script
  {
    if script != [] {
      assert script[0] in script;
      MoveKeepsOthers(s, script[0], a, b);
      assert forall m | m in script[1..] :: m in script;
      ScriptKeepsOthers(Apply(s, script[0]), script[1..], a, b);
    }
  }

  /** Positions below `n` of the elements of `t` outside `out`, in order. */
  function Staying<T(==)>(t: seq<T>, out: set<T>, n: nat): (idx: seq<nat>)
    requires n <= |t|
    ensures forall k | 0 <= k < |idx| :: idx[k] < n && t[idx[k]] !in out
    ensures forall j, k | 0 <= j < k < |idx| :: idx[j] < idx[k]
  {
    if n == 0 then []
    else if t[n - 1] in out then Staying(t, out, n - 1)
    else Staying(t, out, n - 1) + [n - 1]
  }

  lemma {:induction false} StayingSize<T>(t: seq<T>, out: set<T>, n: nat)
    requires Distinct(t) && n <= |t|
    ensures |Staying(t, out, n)| + |ToSet(t[..n]) * out| == n
  {
    if n > 0 {
      StayingSize(t, out, n - 1);
      OneMore(t, out, n);
    }
  }

  lemma {:induction false} OneMore<T>(t: seq<T>, out: set<T>, n: nat)
    requires Distinct(t) && 0 < n <= |t|
    ensures |ToSet(t[..n]) * out| == |ToSet(t[..n - 1]) * out| + if t[n - 1] in out then 1 else 0
  {
    var x := t[n - 1];
    assert t[..n] == t[..n - 1] + [x];
    assert ToSet(t[..n]) == ToSet(t[..n - 1]) + {x};
    assert x !in t[..n - 1];
    if x in out {
      assert ToSet(t[..n]) * out == ToSet(t[..n - 1]) * out + {x};
    } else {
      assert ToSet(t[..n]) * out == ToSet(t[..n - 1]) * out;
    }
  }

  /** Elements a script never moves stand at increasing old positions. */
  lemma StayingIncreases<T>(was: seq<T>, script: seq<Move<T>>, next: seq<T>)
    requires Distinct(was) && Distinct(next)
    requires Run(was, script) == next
    requires forall x | x in next :: x in was
    ensures Increasing(Positions(was, next), Staying(next, Moved(script), |next|))
  {
    var idx := Staying(next, Moved(script), |next|);
    var p := Positions(was, next);
    forall j, k | 0 <= j < k < |idx| ensures p[idx[j]] < p[idx[k]] {
      var a, b := next[idx[j]], next[idx[k]];
      assert Before(next, a, b);
      ScriptKeepsOthers(was, script, a, b);
      var x, y :| 0 <= x < y < |was| && was[x] == a && was[y] == b;
      IndexOfUnique(was, x);
      IndexOfUnique(was, y);
    }
  }

  /**
   Whatever script of single-node moves turns `was` into `next`, it moves at
   least as many distinct nodes as lie outside the marks of `lisIndices`.
   */
  lemma MovesAreMinimal<T>(was: seq<T>, script: seq<Move<T>>, next: seq<T>, marks: seq<bool>)
    requires Distinct(was) && Distinct(next)
    requires forall x | x in next :: x in was
    requires IsLis(Positions(was, next), marks)
    requires Run(was, script) == next
    ensures |Moved(script)| >= |next| - |Marked(marks)|
  {
    StayingIncreases(was, script, next);
    hide Run, IsLis, Distinct;
    StayingSize(next, Moved(script), |next|);
    assert next[..|next|] == next;
    SubsetSize(ToSet(next) * Moved(script), Moved(script));
  }
}
