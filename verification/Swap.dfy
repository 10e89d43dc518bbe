module Swaps {
  // OpSwapNodes on the client (pkg/wasm/patch.go:432-462): three cases of moving
  // nodes one after the other, one meaning.

  import opened Seqs
  import opened Wire
  import opened Dom
  import opened Client

  lemma {:induction false} PutBeforeSplit(x: seq<Ref>, sib: Ref, y: seq<Ref>, r: Ref)
    requires sib !in x
    ensures PutBefore(x + [sib] + y, r, sib) == x + [r, sib] + y
  {
    if x != [] {
      assert (x + [sib] + y)[1..] == x[1..] + [sib] + y;
      PutBeforeSplit(x[1..], sib, y, r);
    }
  }

  lemma {:induction false} WithoutMiddle(x: seq<Ref>, r: Ref, y: seq<Ref>)
    requires r !in x && r !in y
    ensures Without(x + [r] + y, r) == x + y
  {
    WithoutSplit(x + [r], y, r);
    WithoutLast(x, r);
    WithoutAbsent(y, r);
  }

  /** Moving within one child list changes that list only. */
  lemma {:induction false} InsertAmong(h: Heap, p: Ref, r: Ref, sib: Ref)
    requires p in h && r in h && p != r && r != sib
    requires h[r].parent == Some(p) && ParentOf(h, sib) == Some(p)
    ensures InsertBefore(h, p, r, sib) == h[p := h[p].(children := PutBefore(Without(h[p].children, r), r, sib))]
  {
  }

  lemma {:induction false} AppendAmong(h: Heap, p: Ref, r: Ref)
    requires p in h && r in h && p != r && h[r].parent == Some(p)
    ensures Append(h, p, r) == h[p := h[p].(children := Without(h[p].children, r) + [r])]
  {
  }

  /** b after a, next to it. */
  lemma {:induction false} Adjacent(x: seq<Ref>, a: Ref, b: Ref, y: seq<Ref>)
    requires Distinct(x + [a] + [b] + y)
    ensures PutBefore(Without(x + [a] + [b] + y, b), b, a) == Exchange(x + [a] + [b] + y, a, b)
  {
    var s := x + [a] + [b] + y;
    Outside(x, a, b, y);
    WithoutMiddle(x + [a], b, y);
    PutBeforeSplit(x, a, y, b);
    assert x + [b, a] + y == Exchange(s, a, b);
  }

  lemma {:induction false} Outside(x: seq<Ref>, a: Ref, b: Ref, y: seq<Ref>)
    requires Distinct(x + [a] + [b] + y)
    ensures a != b && a !in x && b !in x && a !in y && b !in y
  {
    var s := x + [a] + [b] + y;
    assert s[|x|] == a && s[|x| + 1] == b;
    assert forall i | 0 <= i < |x| :: x[i] == s[i];
    assert forall i | 0 <= i < |y| :: y[i] == s[|x| + 2 + i];
  }

  /** The child list after a has been put in front of b. */
  function Fronted(cs: seq<Ref>, a: Ref, b: Ref): seq<Ref> {
    PutBefore(Without(cs, a), a, b)
  }

  /** a before b: what putting a in front of b leaves. */
  lemma {:induction false} FrontedAfter(x: seq<Ref>, a: Ref, m: seq<Ref>, b: Ref, y: seq<Ref>)
    requires Distinct(x + [a] + m + [b] + y)
    ensures Fronted(x + [a] + m + [b] + y, a, b) == (x + m + [a]) + [b] + y
  {
    Separate(x, a, m, b, y);
    hide Distinct;
    assert x + [a] + m + [b] + y == x + [a] + (m + [b] + y);
    WithoutMiddle(x, a, m + [b] + y);
    assert x + (m + [b] + y) == (x + m) + [b] + y;
    PutBeforeSplit(x + m, b, y, a);
    assert (x + m) + [a, b] + y == (x + m + [a]) + [b] + y;
  }

  /** a before b, with something in between. */
  lemma {:induction false} Apart(x: seq<Ref>, a: Ref, m: seq<Ref>, b: Ref, y: seq<Ref>)
    requires Distinct(x + [a] + m + [b] + y) && m != []
    ensures PutBefore(Without(Fronted(x + [a] + m + [b] + y, a, b), b), b, m[0])
            == Exchange(x + [a] + m + [b] + y, a, b)
  {
    hide Fronted, Exchange, Distinct;
    Separate(x, a, m, b, y);
    FrontedAfter(x, a, m, b, y);
    WithoutMiddle(x + m + [a], b, y);
    BackIn(x, m, a, b, y);
    ExchangeEnds(x, a, m, b, y);
  }

  lemma {:induction false} BackIn(x: seq<Ref>, m: seq<Ref>, a: Ref, b: Ref, y: seq<Ref>)
    requires m != [] && m[0] !in x
    ensures PutBefore(x + m + [a] + y, b, m[0]) == x + [b] + m + [a] + y
  {
    assert x + m + [a] + y == x + [m[0]] + (m[1..] + [a] + y);
    PutBeforeSplit(x, m[0], m[1..] + [a] + y, b);
    assert x + [b, m[0]] + (m[1..] + [a] + y) == x + [b] + m + [a] + y;
  }

  lemma {:induction false} ExchangeEnds(x: seq<Ref>, a: Ref, m: seq<Ref>, b: Ref, y: seq<Ref>)
    requires a != b && a !in x && b !in x && a !in y && b !in y && a !in m && b !in m
    ensures Exchange(x + [a] + m + [b] + y, a, b) == x + [b] + m + [a] + y
    ensures Exchange(x + [a] + m + [b] + y, b, a) == Exchange(x + [a] + m + [b] + y, a, b)
  {
  }

  lemma {:induction false} Separate(x: seq<Ref>, a: Ref, m: seq<Ref>, b: Ref, y: seq<Ref>)
    requires Distinct(x + [a] + m + [b] + y)
    ensures a != b && a !in x && b !in x && a !in y && b !in y && a !in m && b !in m
    ensures m != [] ==> m[0] !in x
    ensures y != [] ==> y[0] !in x && y[0] !in m
  {
    var s := x + [a] + m + [b] + y;
    assert s[|x|] == a && s[|x| + 1 + |m|] == b;
    assert forall i | 0 <= i < |x| :: x[i] == s[i];
    assert forall i | 0 <= i < |m| :: m[i] == s[|x| + 1 + i];
    assert forall i | 0 <= i < |y| :: y[i] == s[|x| + |m| + 2 + i];
  }

  /** b before a: what putting a in front of b leaves. */
  lemma {:induction false} FrontedBefore(x: seq<Ref>, b: Ref, m: seq<Ref>, a: Ref, y: seq<Ref>)
    requires Distinct(x + [b] + m + [a] + y)
    ensures Fronted(x + [b] + m + [a] + y, a, b) == (x + [a]) + [b] + (m + y)
  {
    Separate(x, b, m, a, y);
    hide Distinct;
    WithoutMiddle(x + [b] + m, a, y);
    assert x + [b] + m + y == x + [b] + (m + y);
    PutBeforeSplit(x, b, m + y, a);
    assert x + [a, b] + (m + y) == (x + [a]) + [b] + (m + y);
  }

  /** b before a. */
  lemma {:induction false} Behind(x: seq<Ref>, b: Ref, m: seq<Ref>, a: Ref, y: seq<Ref>)
    requires Distinct(x + [b] + m + [a] + y)
    ensures (if y == [] then Without(Fronted(x + [b] + m + [a] + y, a, b), b) + [b]
             else PutBefore(Without(Fronted(x + [b] + m + [a] + y, a, b), b), b, y[0]))
            == Exchange(x + [b] + m + [a] + y, a, b)
  {
    hide Fronted, Exchange, Distinct;
    Separate(x, b, m, a, y);
    FrontedBefore(x, b, m, a, y);
    WithoutMiddle(x + [a], b, m + y);
    ExchangeEnds(x, b, m, a, y);
    if y == [] {
      assert x + [a] + (m + y) + [b] == x + [a] + m + [b] + y;
    } else {
      Further(x, a, m, b, y);
    }
  }

  lemma {:induction false} Further(x: seq<Ref>, a: Ref, m: seq<Ref>, b: Ref, y: seq<Ref>)
    requires y != [] && y[0] !in x && y[0] !in m && y[0] != a
    ensures PutBefore(x + [a] + (m + y), b, y[0]) == x + [a] + m + [b] + y
  {
    assert x + [a] + (m + y) == (x + [a] + m) + [y[0]] + y[1..];
    PutBeforeSplit(x + [a] + m, y[0], y[1..], b);
    assert (x + [a] + m) + [b, y[0]] + y[1..] == x + [a] + m + [b] + y;
  }

  /** The client's list operations, on one child list without repetition. */
  function SwappedKids(cs: seq<Ref>, a: Ref, b: Ref): seq<Ref>
    requires a in cs
  {
    var i := IndexOf(cs, a);
    if i + 1 < |cs| && cs[i + 1] == b then PutBefore(Without(cs, b), b, a)
    else if i + 1 == |cs| then Without(Fronted(cs, a, b), b) + [b]
    else PutBefore(Without(Fronted(cs, a, b), b), b, cs[i + 1])
  }

  lemma {:induction false} ListSwap(cs: seq<Ref>, a: Ref, b: Ref)
    requires Distinct(cs) && a in cs && b in cs && a != b
    ensures SwappedKids(cs, a, b) == Exchange(cs, a, b)
  {
    hide Fronted, Exchange, Without, PutBefore;
    var i, j := IndexOf(cs, a), IndexOf(cs, b);
    if j == i + 1 {
      assert cs == cs[..i] + [a] + [b] + cs[j + 1..];
      Adjacent(cs[..i], a, b, cs[j + 1..]);
    } else if i < j {
      var m := cs[i + 1..j];
      assert cs == cs[..i] + [a] + m + [b] + cs[j + 1..];
      Apart(cs[..i], a, m, b, cs[j + 1..]);
      assert m[0] == cs[i + 1];
    } else {
      var y := cs[i + 1..];
      assert cs == cs[..j] + [b] + cs[j + 1..i] + [a] + y;
      Behind(cs[..j], b, cs[j + 1..i], a, y);
    }
  }

  /** Swapping two siblings exchanges them in their parent's child list and does nothing else. */
  lemma {:induction false} SwapExchanges(h: Heap, p: Ref, a: Ref, b: Ref)
    requires Forest(h) && p in h && a in h[p].children && b in h[p].children && a != b && p != a && p != b
    ensures SwapRefs(h, a, b) == h[p := h[p].(children := Exchange(h[p].children, a, b))]
  {
    assert NodeOk(h, p);
    hide Forest;
    var cs := h[p].children;
    var i := IndexOf(cs, a);
    ListSwap(cs, a, b);
    hide Exchange, Without, PutBefore;
    SwapSteps(h, p, a, b);
  }

  lemma {:induction false} SwapSteps(h: Heap, p: Ref, a: Ref, b: Ref)
    requires p in h && NodeOk(h, p) && a in h[p].children && b in h[p].children && a != b && p != a && p != b
    ensures SwapRefs(h, a, b) == h[p := h[p].(children := SwappedKids(h[p].children, a, b))]
  {
    hide Without, PutBefore, InsertBefore, Append;
    var cs := h[p].children;
    var i := IndexOf(cs, a);
    assert NextSibling(h, a) == if i + 1 < |cs| then Some(cs[i + 1]) else None;
    if i + 1 < |cs| && cs[i + 1] == b {
      InsertAmong(h, p, b, a);
    } else {
      InsertAmong(h, p, a, b);
      var h1 := InsertBefore(h, p, a, b);
      assert h1 == h[p := h[p].(children := Fronted(cs, a, b))];
      if i + 1 < |cs| {
        assert cs[i + 1] != a && cs[i + 1] in cs;
        InsertAmong(h1, p, b, cs[i + 1]);
      } else {
        AppendAmong(h1, p, b);
      }
    }
  }

  /** A child list in another order is as good as before. */
  lemma {:induction false} ReorderForest(h: Heap, p: Ref, cs: seq<Ref>)
    requires Forest(h) && p in h && Distinct(cs) && forall x :: x in cs <==> x in h[p].children
    ensures Forest(h[p := h[p].(children := cs)])
  {
    var h' := h[p := h[p].(children := cs)];
    forall q | q in h' ensures NodeOk(h', q) {
      assert NodeOk(h, q);
    }
  }

  lemma {:induction false} ExchangeDistinct<T>(cs: seq<T>, a: T, b: T)
    requires Distinct(cs) && a in cs && b in cs
    ensures Distinct(Exchange(cs, a, b)) && forall x :: x in Exchange(cs, a, b) <==> x in cs
  {
    var i, j := IndexOf(cs, a), IndexOf(cs, b);
    var ds := Exchange(cs, a, b);
    assert ds[i] == b && ds[j] == a;
    forall x | x in cs ensures x in ds {
      var k := IndexOf(cs, x);
      assert x != a && x != b ==> ds[k] == x;
    }
  }

  /** `p` with the child list `cs`. */
  function Reseat(c: Client, p: Ref, cs: seq<Ref>): Client {
    c.(heap := c.heap[p := At(c.heap, p).(children := cs)])
  }

  /** Moving a child of a container sends it to the end. */
  lemma {:induction false} MoveAmong(c: Client, container: uint32, id: uint32, p: Ref)
    requires id in c.nodes && container in c.nodes && c.nodes[container] == p && p in c.heap && c.nodes[id] in c.heap
    requires c.nodes[id] != p && c.heap[c.nodes[id]].parent == Some(p)
    ensures forall tag, attrs ::
              Apply(c, InsertNode(id, container, 0, tag, attrs))
              == Reseat(c, p, Without(Kids(c.heap, p), c.nodes[id]) + [c.nodes[id]])
  {
    var r := c.nodes[id];
    AppendAmong(c.heap, p, r);
    assert Detach(Detach(c.heap, r), r) == Detach(c.heap, r);
  }
}
