module Signals {
  // Signals, their observers and derived signals (pkg/dom/signals.go): setting a
  // source brings every derived signal up to date, although equal values cut the
  // propagation short, and calls every live observer of a changed signal once.

  import opened Seqs
  import opened Dom

  /** An entry of a signal's observer list; unsubscribing leaves a hole. */
  datatype Slot = Hole | Derived(target: nat) | Callback(tag: nat)

  /** An observer's call, with the signal that made it. */
  datatype Call<V> = Call(signal: nat, tag: nat, value: V)

  /** All signals of a program, numbered in the order of their creation. */
  datatype Net<V> = Net(values: seq<V>, dirty: seq<bool>, observers: seq<seq<Slot>>, log: seq<Call<V>>)

  /** Derived signals are created after their source and observe it through one slot. */
  ghost predicate Wired<V>(n: Net<V>, source: seq<Option<nat>>) {
    && |n.values| == |n.dirty| == |n.observers| == |source|
    && (forall s, i | 0 <= s < |n.observers| && 0 <= i < |n.observers[s]| && n.observers[s][i].Derived? ::
          IsChild(n.observers[s][i].target, s, source))
    && (forall s, i, j | 0 <= s < |n.observers| && 0 <= i < j < |n.observers[s]| && n.observers[s][i].Derived? ::
          n.observers[s][j] != n.observers[s][i])
    && (forall t: nat, s: nat | IsChild(t, s, source) :: Derived(t) in n.observers[s])
  }

  ghost predicate IsChild(t: nat, s: nat, source: seq<Option<nat>>) {
    s < t < |source| && source[t] == Some(s)
  }

  // -------------------------------------------------------------- propagation

  ghost predicate SameLayout<V>(n: Net<V>, n': Net<V>) {
    |n'.values| == |n.values| && |n'.dirty| == |n.dirty| && n'.observers == n.observers
  }

  /** Targets come later than the signal they observe. */
  predicate Forward<V>(n: Net<V>) {
    && |n.values| == |n.dirty| == |n.observers|
    && forall s, i | 0 <= s < |n.observers| && 0 <= i < |n.observers[s]| && n.observers[s][i].Derived? ::
         s < n.observers[s][i].target < |n.values|
  }

  /** `Set` on signal `s`. */
  function SetTo<V(==)>(n: Net<V>, derive: (nat, V) -> V, s: nat, v: V): (r: Net<V>)
    requires Forward(n) && s < |n.values|
    ensures SameLayout(n, r)
    decreases |n.values| - s, 1, 0
  {
    if n.values[s] == v then n
    else Notify(n.(values := n.values[s := v], dirty := n.dirty[s := true]), derive, s, v, 0)
  }

  /** The loop over the observers of `s`, from `i` on. */
  function Notify<V(==)>(n: Net<V>, derive: (nat, V) -> V, s: nat, v: V, i: nat): (r: Net<V>)
    requires Forward(n) && s < |n.values| && i <= |n.observers[s]|
    ensures SameLayout(n, r)
    decreases |n.values| - s, 0, |n.observers[s]| - i
  {
    if i == |n.observers[s]| then n else Notify(CallOne(n, derive, s, v, i), derive, s, v, i + 1)
  }

  function CallOne<V(==)>(n: Net<V>, derive: (nat, V) -> V, s: nat, v: V, i: nat): (r: Net<V>)
    requires Forward(n) && s < |n.values| && i < |n.observers[s]|
    ensures SameLayout(n, r)
    decreases |n.values| - s, 0, 0
  {
    match n.observers[s][i]
    case Hole => n
    case Derived(t) => SetTo(n, derive, t, derive(t, v))
    case Callback(tag) => n.(log := n.log + [Call(s, tag, v)])
  }

  // ------------------------------------------------------------------ subtrees

  /** `x` is `t` or derived from it, directly or not. */
  ghost predicate Under(source: seq<Option<nat>>, t: nat, x: nat)
    decreases x
  {
    x == t || (x < |source| && source[x].Some? && source[x].value < x && Under(source, t, source[x].value))
  }

  lemma {:induction false} UnderAbove(source: seq<Option<nat>>, t: nat, x: nat)
    requires Under(source, t, x)
    ensures t <= x
    decreases x
  {
    if x != t {
      UnderAbove(source, t, source[x].value);
    }
  }

  lemma {:induction false} UnderChild(source: seq<Option<nat>>, s: nat, t: nat, x: nat)
    requires IsChild(t, s, source) && Under(source, t, x)
    ensures Under(source, s, x) && x != s
    decreases x
  {
    UnderAbove(source, t, x);
    if x != t {
      UnderChild(source, s, t, source[x].value);
    }
  }

  /** Two signals derived from the same one have nothing below them in common. */
  lemma {:induction false} Apart(source: seq<Option<nat>>, s: nat, t: nat, u: nat, x: nat)
    requires IsChild(t, s, source) && IsChild(u, s, source) && t != u
    requires Under(source, t, x)
    ensures !Under(source, u, x)
    decreases x
  {
    if x == t {
      if Under(source, u, s) {
        UnderAbove(source, u, s);
      }
    } else if x == u {
      UnderAbove(source, t, s);
    } else {
      Apart(source, s, t, u, source[x].value);
    }
  }

  /** `x` is below a child of `s` whose slot is at `i` or later. */
  ghost predicate UnderFrom<V>(n: Net<V>, source: seq<Option<nat>>, s: nat, i: nat, x: nat)
    requires s < |n.observers|
  {
    exists j :: i <= j < |n.observers[s]| && n.observers[s][j].Derived? && Under(source, n.observers[s][j].target, x)
  }

  lemma WiredKept<V>(n: Net<V>, n': Net<V>, source: seq<Option<nat>>)
    requires Wired(n, source) && SameLayout(n, n')
    ensures Wired(n', source)
  {
  }

  // ------------------------------------------------------------------- frames

  /** Setting a signal leaves every value and log entry that is not below it alone. */
  lemma {:induction false} SetFrame<V>(n: Net<V>, derive: (nat, V) -> V, source: seq<Option<nat>>, s: nat, v: V, x: nat)
    requires Wired(n, source) && Forward(n) && s < |n.values| && x < |n.values|
    ensures var n' := SetTo(n, derive, s, v);
            n'.values[s] == v && (!Under(source, s, x) ==> n'.values[x] == n.values[x])
    decreases |n.values| - s, 1, 0
  {
    if n.values[s] != v {
      var n1 := n.(values := n.values[s := v], dirty := n.dirty[s := true]);
      NotifyFrame(n1, derive, source, s, v, 0, x);
      NotifyFrame(n1, derive, source, s, v, 0, s);
      if UnderFrom(n1, source, s, 0, x) {
        UnderFromUnder(n1, source, s, 0, x);
      }
      if UnderFrom(n1, source, s, 0, s) {
        UnderFromUnder(n1, source, s, 0, s);
      }
    }
  }

  lemma {:induction false} UnderFromUnder<V>(n: Net<V>, source: seq<Option<nat>>, s: nat, i: nat, x: nat)
    requires Wired(n, source) && s < |n.values| && UnderFrom(n, source, s, i, x)
    ensures Under(source, s, x) && x != s
  {
    var j :| i <= j < |n.observers[s]| && n.observers[s][j].Derived? && Under(source, n.observers[s][j].target, x);
    UnderChild(source, s, n.observers[s][j].target, x);
  }

  lemma {:induction false} NotifyFrame<V>(n: Net<V>, derive: (nat, V) -> V, source: seq<Option<nat>>, s: nat, v: V,
                                          i: nat, x: nat)
    requires Wired(n, source) && Forward(n) && s < |n.values| && i <= |n.observers[s]| && x < |n.values|
    ensures !UnderFrom(n, source, s, i, x) ==> Notify(n, derive, s, v, i).values[x] == n.values[x]
    decreases |n.values| - s, 0, |n.observers[s]| - i
  {
    if i < |n.observers[s]| {
      var n1 := CallOne(n, derive, s, v, i);
      CallFrame(n, derive, source, s, v, i, x);
      WiredKept(n, n1, source);
      NotifyFrame(n1, derive, source, s, v, i + 1, x);
    }
  }

  lemma {:induction false} CallFrame<V>(n: Net<V>, derive: (nat, V) -> V, source: seq<Option<nat>>, s: nat, v: V,
                                        i: nat, x: nat)
    requires Wired(n, source) && Forward(n) && s < |n.values| && i < |n.observers[s]| && x < |n.values|
    ensures var n1 := CallOne(n, derive, s, v, i);
            && (n.observers[s][i].Derived?
              ==> n1.values[n.observers[s][i].target] == derive(n.observers[s][i].target, v))
            && (!(n.observers[s][i].Derived? && Under(source, n.observers[s][i].target, x))
              ==> n1.values[x] == n.values[x])
    decreases |n.values| - s, 0, 0
  {
    match n.observers[s][i]
    case Derived(t) => SetFrame(n, derive, source, t, derive(t, v), x);
    case _ =>
  }

  // -------------------------------------------------------------- consistency

  /** A derived signal has the value its source gives it. */
  ghost predicate Current<V>(n: Net<V>, derive: (nat, V) -> V, source: seq<Option<nat>>, t: nat)
    requires t < |n.values| == |source|
  {
    source[t].Some? && source[t].value < t ==> n.values[t] == derive(t, n.values[source[t].value])
  }

  ghost predicate AllCurrent<V>(n: Net<V>, derive: (nat, V) -> V, source: seq<Option<nat>>)
    requires |n.values| == |source|
  {
    forall t | 0 <= t < |source| :: Current(n, derive, source, t)
  }

  /** Setting `s` leaves everything derived from it current. */
  lemma {:induction false} SetCurrent<V>(n: Net<V>, derive: (nat, V) -> V, source: seq<Option<nat>>, s: nat, v: V,
                                         x: nat)
    requires Wired(n, source) && Forward(n) && s < |n.values| && x < |n.values|
    requires Under(source, s, x) && x != s
    requires forall u | 0 <= u < |source| && u != s && Under(source, s, u) :: Current(n, derive, source, u)
    ensures Current(SetTo(n, derive, s, v), derive, source, x)
    decreases |n.values| - s, 1, 0
  {
    if n.values[s] != v {
      var n1 := n.(values := n.values[s := v], dirty := n.dirty[s := true]);
      forall u | 0 <= u < |source| && u != s && Under(source, s, u)
                 && !(exists j :: 0 <= j < |n1.observers[s]| && n1.observers[s][j] == Derived(u))
        ensures Current(n1, derive, source, u)
      {
        NotAChild(n1, source, s, u);
        assert Current(n, derive, source, u);
      }
      assert CurrentUpTo(n1, derive, source, s, 0);
      NotifyCurrent(n1, derive, source, s, v, 0, x);
    }
  }

  /** A signal without a slot at `s` is not derived from it. */
  lemma {:induction false} NotAChild<V>(n: Net<V>, source: seq<Option<nat>>, s: nat, u: nat)
    requires Wired(n, source) && s < |n.observers| && u < |source| && u != s && Under(source, s, u)
    requires !exists j :: 0 <= j < |n.observers[s]| && n.observers[s][j] == Derived(u)
    ensures source[u] != Some(s)
  {
    assert Derived(u) !in n.observers[s];
    UnderAbove(source, s, u);
    assert !IsChild(u, s, source);
  }

  /** Children of `s` in slots before `i` are current, and so is everything below any child. */
  ghost predicate CurrentUpTo<V>(n: Net<V>, derive: (nat, V) -> V, source: seq<Option<nat>>, s: nat, i: nat)
    requires s < |n.values| == |source| == |n.observers|
  {
    forall u | 0 <= u < |source| && u != s && Under(source, s, u)
               && !(exists j :: i <= j < |n.observers[s]| && n.observers[s][j] == Derived(u)) ::
      Current(n, derive, source, u)
  }

  lemma {:induction false} NotifyCurrent<V>(n: Net<V>, derive: (nat, V) -> V, source: seq<Option<nat>>, s: nat, v: V,
                                            i: nat, x: nat)
    requires Wired(n, source) && Forward(n) && s < |n.values| && i <= |n.observers[s]| && x < |n.values|
    requires Under(source, s, x) && x != s && n.values[s] == v
    requires CurrentUpTo(n, derive, source, s, i)
    ensures Current(Notify(n, derive, s, v, i), derive, source, x)
    decreases |n.values| - s, 0, |n.observers[s]| - i
  {
    if i < |n.observers[s]| {
      var n1 := CallOne(n, derive, s, v, i);
      forall u | 0 <= u < |source| && u != s && Under(source, s, u)
                 && !(exists j :: i + 1 <= j < |n1.observers[s]| && n1.observers[s][j] == Derived(u))
        ensures Current(n1, derive, source, u)
      {
        CallCurrent(n, derive, source, s, v, i, u);
      }
      CallFrame(n, derive, source, s, v, i, s);
      if n.observers[s][i].Derived? && Under(source, n.observers[s][i].target, s) {
        UnderAbove(source, n.observers[s][i].target, s);
      }
      WiredKept(n, n1, source);
      NotifyCurrent(n1, derive, source, s, v, i + 1, x);
    }
  }

  lemma {:induction false} CallCurrent<V>(n: Net<V>, derive: (nat, V) -> V, source: seq<Option<nat>>, s: nat, v: V,
                                          i: nat, u: nat)
    requires Wired(n, source) && Forward(n) && s < |n.values| && i < |n.observers[s]| && u < |n.values|
    requires Under(source, s, u) && u != s && n.values[s] == v
    requires CurrentUpTo(n, derive, source, s, i)
    requires !(exists j :: i + 1 <= j < |n.observers[s]| && n.observers[s][j] == Derived(u))
    ensures Current(CallOne(n, derive, s, v, i), derive, source, u)
    decreases |n.values| - s, 0, 0
  {
    match n.observers[s][i]
    case Derived(t) =>
      CallFrame(n, derive, source, s, v, i, u);
      if Under(source, t, s) {
        UnderAbove(source, t, s);
      }
      CallFrame(n, derive, source, s, v, i, s);
      if u != t {
        assert Current(n, derive, source, u);
        if Under(source, t, u) {
          forall w | 0 <= w < |source| && w != t && Under(source, t, w) ensures Current(n, derive, source, w) {
            ChildSlots(n, source, s, t, i, w);
          }
          SetCurrent(n, derive, source, t, derive(t, v), u);
        } else {
          CallFrame(n, derive, source, s, v, i, source[u].value);
        }
      }
    case _ =>
      assert Current(n, derive, source, u);
  }

  /** What is strictly below a child is no child itself. */
  lemma {:induction false} ChildSlots<V>(n: Net<V>, source: seq<Option<nat>>, s: nat, t: nat, i: nat, w: nat)
    requires Wired(n, source) && IsChild(t, s, source) && w < |source| && w != t && Under(source, t, w)
    ensures Under(source, s, w) && w != s
    ensures forall j | i <= j < |n.observers[s]| :: n.observers[s][j] != Derived(w)
  {
    UnderChild(source, s, t, w);
    forall j | i <= j < |n.observers[s]| ensures n.observers[s][j] != Derived(w) {
      if n.observers[s][j] == Derived(w) {
        assert IsChild(w, s, source);
        UnderAbove(source, t, s);
      }
    }
  }

  /** After a set on a root signal every derived signal equals its derive function of its source. */
  lemma {:induction false} SetKeepsCurrent<V>(n: Net<V>, derive: (nat, V) -> V, source: seq<Option<nat>>, root: nat,
                                              v: V)
    requires Wired(n, source) && Forward(n) && AllCurrent(n, derive, source) && root < |source| && source[root].None?
    ensures var n' := SetTo(n, derive, root, v);
            Wired(n', source) && AllCurrent(n', derive, source) && n'.values[root] == v
  {
    var n' := SetTo(n, derive, root, v);
    WiredKept(n, n', source);
    SetFrame(n, derive, source, root, v, root);
    forall t | 0 <= t < |source| ensures Current(n', derive, source, t) {
      assert Current(n, derive, source, t);
      if Under(source, root, t) && t != root {
        SetCurrent(n, derive, source, root, v, t);
      } else if source[t].Some? && source[t].value < t {
        SetFrame(n, derive, source, root, v, t);
        SetFrame(n, derive, source, root, v, source[t].value);
      }
    }
  }

  // -------------------------------------------------------------------- calls

  /** The calls made by signal `x`. */
  function CallsOf<V>(log: seq<Call<V>>, x: nat): seq<Call<V>> {
    if log == [] then []
    else CallsOf(log[..|log| - 1], x) + if log[|log| - 1].signal == x then [log[|log| - 1]] else []
  }

  /** One call for each live observer, in the order of registration. */
  function Notified<V>(slots: seq<Slot>, x: nat, v: V): seq<Call<V>> {
    if slots == [] then []
    else (if slots[0].Callback? then [Call(x, slots[0].tag, v)] else []) + Notified(slots[1..], x, v)
  }

  /** Calls made by `x` on the way from `n` to `n'`: its observers once if it has changed, otherwise none. */
  ghost predicate CalledOnce<V>(n: Net<V>, n': Net<V>, x: nat)
    requires x < |n.values| == |n'.values| == |n.observers|
  {
    CallsOf(n'.log, x)
    == CallsOf(n.log, x) + if n'.values[x] != n.values[x] then Notified(n.observers[x], x, n'.values[x]) else []
  }

  lemma {:induction false} CallsSnoc<V>(log: seq<Call<V>>, c: Call<V>, x: nat)
    ensures CallsOf(log + [c], x) == CallsOf(log, x) + if c.signal == x then [c] else []
  {
    assert (log + [c])[..|log|] == log;
  }

  /** Every live observer of a changed signal is called exactly once, in order; no other observer is called. */
  lemma {:induction false} SetCalls<V>(n: Net<V>, derive: (nat, V) -> V, source: seq<Option<nat>>, s: nat, v: V, x: nat)
    requires Wired(n, source) && Forward(n) && s < |n.values| && x < |n.values|
    ensures CalledOnce(n, SetTo(n, derive, s, v), x)
    decreases |n.values| - s, 1, 0
  {
    if n.values[s] != v {
      var n1 := n.(values := n.values[s := v], dirty := n.dirty[s := true]);
      if x == s {
        NotifyOwnCalls(n1, derive, source, s, v, 0);
        SetFrame(n, derive, source, s, v, s);
        assert n.observers[s][0..] == n.observers[s];
      } else {
        NotifyCalls(n1, derive, source, s, v, 0, x);
      }
    }
  }

  /** The signal's own observers from `i` on. */
  lemma {:induction false} NotifyOwnCalls<V>(n: Net<V>, derive: (nat, V) -> V, source: seq<Option<nat>>, s: nat,
                                             v: V, i: nat)
    requires Wired(n, source) && Forward(n) && s < |n.values| && i <= |n.observers[s]|
    ensures CallsOf(Notify(n, derive, s, v, i).log, s) == CallsOf(n.log, s) + Notified(n.observers[s][i..], s, v)
    decreases |n.values| - s, 0, |n.observers[s]| - i
  {
    var slots := n.observers[s];
    if i < |slots| {
      var n1 := CallOne(n, derive, s, v, i);
      OwnCall(n, derive, source, s, v, i);
      WiredKept(n, n1, source);
      NotifyOwnCalls(n1, derive, source, s, v, i + 1);
      NotifiedFirst(slots, s, v, i);
      hide CallsOf, Notified;
      Regroup(CallsOf(n.log, s), Notified([slots[i]], s, v), Notified(slots[i + 1..], s, v));
    }
  }

  lemma NotifiedFirst<V>(slots: seq<Slot>, s: nat, v: V, i: nat)
    requires i < |slots|
    ensures Notified(slots[i..], s, v) == Notified([slots[i]], s, v) + Notified(slots[i + 1..], s, v)
  {
    assert slots[i..][1..] == slots[i + 1..] && [slots[i]][1..] == [];
    var rest := Notified<V>(slots[i + 1..], s, v);
    assert [] + rest == rest;
  }

  lemma {:induction false} OwnCall<V>(n: Net<V>, derive: (nat, V) -> V, source: seq<Option<nat>>, s: nat, v: V, i: nat)
    requires Wired(n, source) && Forward(n) && s < |n.values| && i < |n.observers[s]|
    ensures CallsOf(CallOne(n, derive, s, v, i).log, s) == CallsOf(n.log, s) + Notified([n.observers[s][i]], s, v)
    decreases |n.values| - s, 0, 0
  {
    assert [n.observers[s][i]][1..] == [];
    match n.observers[s][i]
    case Derived(t) =>
      SetCalls(n, derive, source, t, derive(t, v), s);
      SetFrame(n, derive, source, t, derive(t, v), s);
      if Under(source, t, s) {
        UnderAbove(source, t, s);
      }
    case Callback(tag) => CallsSnoc(n.log, Call(s, tag, v), s);
    case Hole =>
  }

  /** The observers of another signal. */
  lemma {:induction false} NotifyCalls<V>(n: Net<V>, derive: (nat, V) -> V, source: seq<Option<nat>>, s: nat, v: V,
                                          i: nat, x: nat)
    requires Wired(n, source) && Forward(n) && s < |n.values| && i <= |n.observers[s]| && x < |n.values| && x != s
    ensures CalledOnce(n, Notify(n, derive, s, v, i), x)
    decreases |n.values| - s, 0, |n.observers[s]| - i
  {
    if i < |n.observers[s]| {
      var n1 := CallOne(n, derive, s, v, i);
      WiredKept(n, n1, source);
      NotifyCalls(n1, derive, source, s, v, i + 1, x);
      OneCalls(n, derive, source, s, v, i, x);
      CalledThen(n, n1, Notify(n1, derive, s, v, i + 1), x);
    }
  }

  lemma {:induction false} OneCalls<V>(n: Net<V>, derive: (nat, V) -> V, source: seq<Option<nat>>, s: nat, v: V,
                                       i: nat, x: nat)
    requires Wired(n, source) && Forward(n) && s < |n.values| && i < |n.observers[s]| && x < |n.values| && x != s
    ensures var n1 := CallOne(n, derive, s, v, i);
            && CalledOnce(n, n1, x)
            && (n1.values[x] == n.values[x] || Notify(n1, derive, s, v, i + 1).values[x] == n1.values[x])
    decreases |n.values| - s, 0, 0
  {
    match n.observers[s][i]
    case Derived(t) =>
      SetCalls(n, derive, source, t, derive(t, v), x);
      OneOfThem(n, derive, source, s, v, i, x);
    case Callback(tag) => CallsSnoc(n.log, Call(s, tag, v), x);
    case Hole =>
  }

  lemma CalledThen<V>(n: Net<V>, n1: Net<V>, n2: Net<V>, x: nat)
    requires x < |n.values| == |n.observers| && SameLayout(n, n1) && SameLayout(n1, n2)
    requires CalledOnce(n, n1, x) && CalledOnce(n1, n2, x)
    requires n1.values[x] == n.values[x] || n2.values[x] == n1.values[x]
    ensures CalledOnce(n, n2, x)
  {
  }

  /** At most one child's propagation reaches `x`. */
  lemma {:induction false} OneOfThem<V>(n: Net<V>, derive: (nat, V) -> V, source: seq<Option<nat>>, s: nat, v: V,
                                        i: nat, x: nat)
    requires Wired(n, source) && Forward(n) && s < |n.values| && i < |n.observers[s]| && x < |n.values|
    requires n.observers[s][i].Derived?
    ensures var n1 := CallOne(n, derive, s, v, i);
            n1.values[x] == n.values[x] || Notify(n1, derive, s, v, i + 1).values[x] == n1.values[x]
  {
    var t := n.observers[s][i].target;
    var n1 := CallOne(n, derive, s, v, i);
    if Under(source, t, x) {
      forall j | i + 1 <= j < |n.observers[s]| && n.observers[s][j].Derived?
        ensures !Under(source, n.observers[s][j].target, x)
      {
        Apart(source, s, t, n.observers[s][j].target, x);
      }
      WiredKept(n, n1, source);
      NotifyFrame(n1, derive, source, s, v, i + 1, x);
    } else {
      CallFrame(n, derive, source, s, v, i, x);
    }
  }

  // ---------------------------------------------------------------- dirty flags

  /** On the way from `n` to `n'` signal `x` was marked if it has changed, and its mark otherwise left as it was. */
  ghost predicate MarkedIff<V>(n: Net<V>, n': Net<V>, x: nat)
    requires x < |n.values| == |n'.values| == |n.dirty| == |n'.dirty|
  {
    n'.dirty[x] <==> n.dirty[x] || n'.values[x] != n.values[x]
  }

  /** A set marks exactly the signals whose value it changes, derived ones included. */
  lemma {:induction false} SetMarks<V>(n: Net<V>, derive: (nat, V) -> V, source: seq<Option<nat>>, s: nat, v: V, x: nat)
    requires Wired(n, source) && Forward(n) && s < |n.values| && x < |n.values|
    ensures MarkedIff(n, SetTo(n, derive, s, v), x)
    decreases |n.values| - s, 1, 0
  {
    if n.values[s] != v {
      var n1 := n.(values := n.values[s := v], dirty := n.dirty[s := true]);
      NotifyMarks(n1, derive, source, s, v, 0, x);
      SetFrame(n, derive, source, s, v, s);
    }
  }

  lemma {:induction false} NotifyMarks<V>(n: Net<V>, derive: (nat, V) -> V, source: seq<Option<nat>>, s: nat, v: V,
                                          i: nat, x: nat)
    requires Wired(n, source) && Forward(n) && s < |n.values| && i <= |n.observers[s]| && x < |n.values|
    ensures MarkedIff(n, Notify(n, derive, s, v, i), x)
    decreases |n.values| - s, 0, |n.observers[s]| - i
  {
    if i < |n.observers[s]| {
      var n1 := CallOne(n, derive, s, v, i);
      WiredKept(n, n1, source);
      NotifyMarks(n1, derive, source, s, v, i + 1, x);
      OneMarks(n, derive, source, s, v, i, x);
    }
  }

  lemma {:induction false} OneMarks<V>(n: Net<V>, derive: (nat, V) -> V, source: seq<Option<nat>>, s: nat, v: V,
                                       i: nat, x: nat)
    requires Wired(n, source) && Forward(n) && s < |n.values| && i < |n.observers[s]| && x < |n.values|
    ensures var n1 := CallOne(n, derive, s, v, i);
            && MarkedIff(n, n1, x)
            && (n1.values[x] == n.values[x] || Notify(n1, derive, s, v, i + 1).values[x] == n1.values[x])
    decreases |n.values| - s, 0, 0
  {
    match n.observers[s][i]
    case Derived(t) =>
      SetMarks(n, derive, source, t, derive(t, v), x);
      OneOfThem(n, derive, source, s, v, i, x);
    case Callback(tag) =>
    case Hole =>
  }

  /** What one set after the other makes of the signals. */
  function SetAll<V(==)>(n: Net<V>, derive: (nat, V) -> V, sets: seq<(nat, V)>): (r: Net<V>)
    requires Forward(n) && forall i | 0 <= i < |sets| :: sets[i].0 < |n.values|
    ensures SameLayout(n, r)
    decreases sets
  {
    if sets == [] then n else SetAll(SetTo(n, derive, sets[0].0, sets[0].1), derive, sets[1..])
  }

  /** The set at `i` changes the value of `x`. */
  ghost predicate ChangedAt<V>(n: Net<V>, derive: (nat, V) -> V, sets: seq<(nat, V)>, x: nat, i: nat)
    requires Forward(n) && x < |n.values| && forall i | 0 <= i < |sets| :: sets[i].0 < |n.values|
    requires i < |sets|
  {
    SetAll(n, derive, sets[..i + 1]).values[x] != SetAll(n, derive, sets[..i]).values[x]
  }

  /**
   Over any run of sets after a flush, a signal is dirty if and only if one of them
   changed its value, even where its value is the old one again.
   */
  lemma {:induction false} DirtySinceFlush<V>(n: Net<V>, derive: (nat, V) -> V, source: seq<Option<nat>>,
                                              sets: seq<(nat, V)>, x: nat)
    requires Wired(n, source) && Forward(n) && x < |n.values| && forall i | 0 <= i < |sets| :: sets[i].0 < |n.values|
    requires !n.dirty[x]
    ensures SetAll(n, derive, sets).dirty[x] <==> exists i | 0 <= i < |sets| :: ChangedAt(n, derive, sets, x, i)
  {
    MarksSinceFlush(n, derive, source, sets, x);
  }

  lemma {:induction false} MarksSinceFlush<V>(n: Net<V>, derive: (nat, V) -> V, source: seq<Option<nat>>,
                                              sets: seq<(nat, V)>, x: nat)
    requires Wired(n, source) && Forward(n) && x < |n.values| && forall i | 0 <= i < |sets| :: sets[i].0 < |n.values|
    ensures SetAll(n, derive, sets).dirty[x]
            <==> (n.dirty[x] || exists i | 0 <= i < |sets| :: ChangedAt(n, derive, sets, x, i))
    decreases |sets|
  {
    if sets != [] {
      var k := |sets| - 1;
      MarksSinceFlush(n, derive, source, sets[..k], x);
      LastMarks(n, derive, source, sets, x);
      forall i | 0 <= i < k ensures ChangedAt(n, derive, sets[..k], x, i) <==> ChangedAt(n, derive, sets, x, i) {
        assert sets[..k][..i] == sets[..i] && sets[..k][..i + 1] == sets[..i + 1];
      }
      hide ChangedAt, SetAll;
    }
  }

  lemma {:induction false} LastMarks<V>(n: Net<V>, derive: (nat, V) -> V, source: seq<Option<nat>>,
                                        sets: seq<(nat, V)>, x: nat)
    requires Wired(n, source) && Forward(n) && x < |n.values| && forall i | 0 <= i < |sets| :: sets[i].0 < |n.values|
    requires sets != []
    ensures var k := |sets| - 1;
            SetAll(n, derive, sets).dirty[x]
            <==> SetAll(n, derive, sets[..k]).dirty[x] || ChangedAt(n, derive, sets, x, k)
  {
    var k := |sets| - 1;
    var n1 := SetAll(n, derive, sets[..k]);
    SetAllSnoc(n, derive, sets[..k], sets[k]);
    assert sets[..k] + [sets[k]] == sets && sets[..k + 1] == sets;
    WiredKept(n, n1, source);
    SetMarks(n1, derive, source, sets[k].0, sets[k].1, x);
    hide SetAll, SetTo;
  }

  lemma {:induction false} SetAllSnoc<V>(n: Net<V>, derive: (nat, V) -> V, front: seq<(nat, V)>, last: (nat, V))
    requires Forward(n) && (forall i | 0 <= i < |front| :: front[i].0 < |n.values|) && last.0 < |n.values|
    ensures Forward(SetAll(n, derive, front))
    ensures SetAll(n, derive, front + [last]) == SetTo(SetAll(n, derive, front), derive, last.0, last.1)
    decreases front
  {
    if front == [] {
      assert ([] + [last])[1..] == [];
    } else {
      assert (front + [last])[1..] == front[1..] + [last];
      SetAllSnoc(SetTo(n, derive, front[0].0, front[0].1), derive, front[1..], last);
    }
  }

  // -------------------------------------------------------------- unsubscribing

  function Unsubscribed<V>(n: Net<V>, s: nat, i: nat): Net<V>
    requires s < |n.observers| && i < |n.observers[s]|
  {
    n.(observers := n.observers[s := n.observers[s][i := Hole]])
  }

  /** The calls that are not made by the observer `tag` of signal `s`. */
  function Silent<V>(calls: seq<Call<V>>, s: nat, tag: nat): seq<Call<V>>
    decreases calls
  {
    if calls == [] then []
    else
      var last := calls[|calls| - 1];
      Silent(calls[..|calls| - 1], s, tag) + if last.signal == s && last.tag == tag then [] else [last]
  }

  /** No other slot of signal `s` has the observer of slot `i`. */
  ghost predicate Alone<V>(n: Net<V>, s: nat, i: nat, tag: nat) {
    && s < |n.observers| && i < |n.observers[s]| && n.observers[s][i] == Callback(tag)
    && forall j | 0 <= j < |n.observers[s]| && j != i :: n.observers[s][j] != Callback(tag)
  }

  /** `n'` is `n` with the slot emptied; behind `before` it has made the same calls but for those of the slot. */
  ghost predicate Muted<V>(n: Net<V>, n': Net<V>, s: nat, i: nat, tag: nat, before: seq<Call<V>>) {
    && Alone(n, s, i, tag)
    && n' == Unsubscribed(n, s, i).(log := n'.log)
    && before <= n.log && n'.log == before + Silent(n.log[|before|..], s, tag)
  }

  lemma {:induction false} MutedCall<V>(n: Net<V>, n': Net<V>, s: nat, i: nat, tag: nat, before: seq<Call<V>>,
                                        c: Call<V>)
    requires Muted(n, n', s, i, tag, before)
    ensures var n1 := n.(log := n.log + [c]);
            Muted(n1, if c.signal == s && c.tag == tag then n' else n'.(log := n'.log + [c]), s, i, tag, before)
  {
    var more := n.log[|before|..];
    var all := (n.log + [c])[|before|..];
    assert all == more + [c] && all[..|all| - 1] == more;
    assert before + (Silent(more, s, tag) + [c]) == before + Silent(more, s, tag) + [c];
  }

  lemma {:induction false} MutedSet<V>(n: Net<V>, n': Net<V>, derive: (nat, V) -> V, x: nat, v: V, s: nat, i: nat,
                                       tag: nat, before: seq<Call<V>>)
    requires Forward(n) && Forward(n') && x < |n.values| && Muted(n, n', s, i, tag, before)
    ensures Muted(SetTo(n, derive, x, v), SetTo(n', derive, x, v), s, i, tag, before)
    decreases |n.values| - x, 1, 0
  {
    if n.values[x] != v {
      var n1 := n.(values := n.values[x := v], dirty := n.dirty[x := true]);
      var n2 := n'.(values := n'.values[x := v], dirty := n'.dirty[x := true]);
      MutedNotify(n1, n2, derive, x, v, 0, s, i, tag, before);
    }
  }

  lemma {:induction false} MutedNotify<V>(n: Net<V>, n': Net<V>, derive: (nat, V) -> V, x: nat, v: V, j: nat, s: nat,
                                          i: nat, tag: nat, before: seq<Call<V>>)
    requires Forward(n) && Forward(n') && x < |n.values| && j <= |n.observers[x]| && Muted(n, n', s, i, tag, before)
    ensures Muted(Notify(n, derive, x, v, j), Notify(n', derive, x, v, j), s, i, tag, before)
    decreases |n.values| - x, 0, |n.observers[x]| - j
  {
    if j < |n.observers[x]| {
      MutedOne(n, n', derive, x, v, j, s, i, tag, before);
      MutedNotify(CallOne(n, derive, x, v, j), CallOne(n', derive, x, v, j), derive, x, v, j + 1, s, i, tag, before);
    }
  }

  lemma {:induction false} MutedOne<V>(n: Net<V>, n': Net<V>, derive: (nat, V) -> V, x: nat, v: V, j: nat, s: nat,
                                       i: nat, tag: nat, before: seq<Call<V>>)
    requires Forward(n) && Forward(n') && x < |n.values| && j < |n.observers[x]| && Muted(n, n', s, i, tag, before)
    ensures j < |n'.observers[x]|
    ensures Muted(CallOne(n, derive, x, v, j), CallOne(n', derive, x, v, j), s, i, tag, before)
    decreases |n.values| - x, 0, 0
  {
    match n.observers[x][j]
    case Hole =>
    case Derived(t) => MutedSet(n, n', derive, t, derive(t, v), s, i, tag, before);
    case Callback(other) => MutedCall(n, n', s, i, tag, before, Call(x, other, v));
  }

  /**
   Setting any signal after an observer has unsubscribed: the values, across all
   signals, are those it would have led to otherwise, and exactly the calls of that
   observer are missing, the others being made in the same order.
   */
  lemma {:induction false} UnsubscribedCalls<V>(n: Net<V>, derive: (nat, V) -> V, x: nat, v: V, s: nat, i: nat,
                                                tag: nat)
    requires Forward(n) && x < |n.values| && Alone(n, s, i, tag)
    ensures Forward(Unsubscribed(n, s, i))
    ensures var r, r' := SetTo(n, derive, x, v), SetTo(Unsubscribed(n, s, i), derive, x, v);
            && r'.values == r.values && r'.dirty == r.dirty
            && n.log <= r.log && r'.log == n.log + Silent(r.log[|n.log|..], s, tag)
  {
    var n' := Unsubscribed(n, s, i);
    assert n.log[|n.log|..] == [] && n.log + [] == n.log;
    MutedSet(n, n', derive, x, v, s, i, tag, n.log);
  }

  // --------------------------------------------------------- the program's signals

  class Store<V(==)> {
    const derive: (nat, V) -> V
    var values: seq<V>
    var dirty: seq<bool>
    var observers: seq<seq<Slot>>
    var log: seq<Call<V>>
    ghost var source: seq<Option<nat>>

    ghost function State(): Net<V>
      reads this
    {
      Net(values, dirty, observers, log)
    }

    /** Derived signals are wired to their sources and up to date. */
    ghost predicate Valid()
      reads this
    {
      Wired(State(), source) && AllCurrent(State(), derive, source)
    }

    constructor (derive: (nat, V) -> V)
      ensures Valid() && State() == Net([], [], [], []) && this.derive == derive
    {
      this.derive := derive;
      values, dirty, observers, log, source := [], [], [], [], [];
    }

    method NewSignal(initial: V) returns (id: nat)
      requires Valid()
      modifies this
      ensures Valid() && id == |old(values)| && values == old(values) + [initial]
      ensures source == old(source) + [None] && log == old(log)
      ensures observers == old(observers) + [[]] && dirty == old(dirty) + [false]
    {
      id := |values|;
      ghost var before := State();
      values, dirty, observers := values + [initial], dirty + [false], observers + [[]];
      source := source + [None];
      GrownWired(before, State(), old(source), source);
      GrownCurrent(before, State(), derive, old(source), source);
    }

    /** `Computed`: a signal derived from `s`. */
    method Computed(s: nat) returns (id: nat)
      requires Valid() && s < |values|
      modifies this
      ensures Valid() && id == |old(values)| && values == old(values) + [derive(id, old(values)[s])]
      ensures source == old(source) + [Some(s)] && log == old(log)
      ensures observers == old(observers)[s := old(observers)[s] + [Derived(id)]] + [[]]
      ensures dirty == old(dirty) + [false]
    {
      id := |values|;
      ghost var before := State();
      var first := derive(id, values[s]);
      values, dirty, observers := values + [first], dirty + [false], observers + [[]];
      observers := observers[s := observers[s] + [Derived(id)]];
      source := source + [Some(s)];
      GrownWired(before, State(), old(source), source);
      GrownCurrent(before, State(), derive, old(source), source);
    }

    method Observe(s: nat, tag: nat) returns (index: nat)
      requires Valid() && s < |values|
      modifies this
      ensures Valid() && index == |old(observers)[s]|
      ensures State() == old(State()).(observers := old(observers)[s := old(observers)[s] + [Callback(tag)]])
      ensures source == old(source)
    {
      index := |observers[s]|;
      ghost var before := State();
      observers := observers[s := observers[s] + [Callback(tag)]];
      SameChildren(before, State(), derive, source);
    }

    /** What `Observe` returns: the slot becomes a hole, and no other observer moves. */
    method Unsubscribe(s: nat, index: nat)
      requires Valid() && s < |values| && index < |observers[s]| && !observers[s][index].Derived?
      modifies this
      ensures Valid() && State() == Unsubscribed(old(State()), s, index) && source == old(source)
      ensures |observers[s]| == |old(observers)[s]| && observers[s][index] == Hole
      ensures forall j | 0 <= j < |observers[s]| && j != index :: observers[s][j] == old(observers)[s][j]
    {
      ghost var before := State();
      observers := observers[s := observers[s][index := Hole]];
      SameChildren(before, State(), derive, source);
    }

    /** `Set` with its loop over a copy of the observers. */
    method Set(s: nat, v: V)
      requires Forward(State()) && s < |values|
      modifies this
      ensures State() == SetTo(old(State()), derive, s, v) && source == old(source)
      decreases |values| - s
    {
      if values[s] == v {
        return;
      }
      values := values[s := v];
      dirty := dirty[s := true];
      var snapshot := observers[s];
      ghost var start := State();
      for i := 0 to |snapshot|
        invariant SameLayout(start, State()) && Forward(State()) && source == old(source)
        invariant Notify(start, derive, s, v, 0) == Notify(State(), derive, s, v, i)
      {
        match snapshot[i]
        case Hole =>
        case Derived(t) => Set(t, derive(t, v));
        case Callback(tag) => log := log + [Call(s, tag, v)];
      }
    }

    /** A set by the program on a signal that is not derived. */
    method SetRoot(root: nat, v: V)
      requires Valid() && root < |values| && source[root].None?
      modifies this
      ensures Valid() && source == old(source) && observers == old(observers)
      ensures |values| == |old(values)| && values[root] == v
      ensures forall x | 0 <= x < |values| && !Under(source, root, x) :: values[x] == old(values)[x]
      ensures forall x | 0 <= x < |values| :: CalledOnce(old(State()), State(), x)
      ensures |dirty| == |old(dirty)| == |values|
      ensures forall x | 0 <= x < |values| :: dirty[x] <==> old(dirty)[x] || values[x] != old(values)[x]
    {
      ghost var before := State();
      SetKeepsCurrent(before, derive, source, root, v);
      Set(root, v);
      forall x | 0 <= x < |values|
        ensures CalledOnce(before, State(), x) && (dirty[x] <==> before.dirty[x] || values[x] != before.values[x])
        ensures !Under(source, root, x) ==> values[x] == before.values[x]
      {
        SetCalls(before, derive, source, root, v, x);
        SetMarks(before, derive, source, root, v, x);
        SetFrame(before, derive, source, root, v, x);
      }
    }

    method IsDirty(s: nat) returns (yes: bool)
      requires s < |dirty|
      ensures yes == dirty[s]
    {
      yes := dirty[s];
    }

    /** Clears the mark of one signal. */
    method Flush(s: nat)
      requires Valid() && s < |values|
      modifies this`dirty
      ensures Valid() && |dirty| == |old(dirty)|
      ensures forall x | 0 <= x < |dirty| :: dirty[x] == (x != s && old(dirty)[x])
    {
      ghost var before := State();
      dirty := dirty[s := false];
      FlagsKept(before, State(), derive, source);
    }
  }

  /** Adding a signal at the end, derived or not, keeps the wiring. */
  lemma {:induction false} GrownWired<V>(n: Net<V>, n': Net<V>, source: seq<Option<nat>>, source': seq<Option<nat>>)
    requires Wired(n, source) && |source'| == |source| + 1 && source'[..|source|] == source
    requires |n'.values| == |n'.dirty| == |n'.observers| == |source'|
    requires var t := |source|;
             && (source'[t].Some? ==> source'[t].value < t)
             && n'.observers[t] == []
             && forall s | 0 <= s < t ::
               n'.observers[s] == n.observers[s] + if source'[t] == Some(s) then [Derived(t)] else []
    ensures Wired(n', source')
  {
    var t := |source|;
    assert forall u: nat, s: nat | u < t :: IsChild(u, s, source') <==> IsChild(u, s, source);
    forall s, i | 0 <= s < |n'.observers| && 0 <= i < |n'.observers[s]| && n'.observers[s][i].Derived?
      ensures IsChild(n'.observers[s][i].target, s, source')
    {
      if i < |n.observers[s]| {
        assert IsChild(n.observers[s][i].target, s, source);
      }
    }
    forall u: nat, s: nat | IsChild(u, s, source') ensures Derived(u) in n'.observers[s] {
      if u < t {
        assert IsChild(u, s, source);
      }
    }
    forall s, i, j | 0 <= s < |n'.observers| && 0 <= i < j < |n'.observers[s]| && n'.observers[s][i].Derived?
      ensures n'.observers[s][j] != n'.observers[s][i]
    {
      assert IsChild(n.observers[s][i].target, s, source);
    }
  }

  lemma {:induction false} GrownCurrent<V>(n: Net<V>, n': Net<V>, derive: (nat, V) -> V, source: seq<Option<nat>>,
                                           source': seq<Option<nat>>)
    requires |n.values| == |source| && AllCurrent(n, derive, source)
    requires |source'| == |source| + 1 == |n'.values| && source'[..|source|] == source
             && n'.values[..|source|] == n.values
    requires var t := |source|;
             source'[t].Some? && source'[t].value < t
             ==> n'.values[t] == derive(t, n.values[source'[t].value])
    ensures AllCurrent(n', derive, source')
  {
    forall u | 0 <= u < |source'| ensures Current(n', derive, source', u) {
      if u < |source| {
        assert Current(n, derive, source, u);
        assert source'[u] == source[u] && n'.values[u] == n.values[u];
      }
    }
  }

  lemma FlagsKept<V>(n: Net<V>, n': Net<V>, derive: (nat, V) -> V, source: seq<Option<nat>>)
    requires Wired(n, source) && AllCurrent(n, derive, source)
    requires n' == n.(dirty := n'.dirty) && |n'.dirty| == |n.dirty|
    ensures Wired(n', source) && AllCurrent(n', derive, source)
  {
    forall t | 0 <= t < |source| ensures Current(n', derive, source, t) {
      assert Current(n, derive, source, t);
    }
  }

  /** Observers that derive nothing come and go freely. */
  lemma {:induction false} SameChildren<V>(n: Net<V>, n': Net<V>, derive: (nat, V) -> V, source: seq<Option<nat>>)
    requires Wired(n, source) && AllCurrent(n, derive, source) && n' == n.(observers := n'.observers)
             && |n'.observers| == |n.observers|
    requires forall s, i | 0 <= s < |n.observers| && 0 <= i < |n.observers[s]| && n.observers[s][i].Derived? ::
               i < |n'.observers[s]| && n'.observers[s][i] == n.observers[s][i]
    requires forall s, i | 0 <= s < |n'.observers| && 0 <= i < |n'.observers[s]| && n'.observers[s][i].Derived? ::
               i < |n.observers[s]| && n'.observers[s][i] == n.observers[s][i]
    ensures Wired(n', source) && AllCurrent(n', derive, source)
  {
    forall t | 0 <= t < |source| ensures Current(n', derive, source, t) {
      assert Current(n, derive, source, t);
    }
    forall t: nat, s: nat | IsChild(t, s, source) ensures Derived(t) in n'.observers[s] {
      var i :| 0 <= i < |n.observers[s]| && n.observers[s][i] == Derived(t);
      assert n'.observers[s][i] == Derived(t);
    }
  }
}
