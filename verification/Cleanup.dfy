/**
 cleanupDescendants (pkg/wasm/patch.go:652-666): the recursive walk drops exactly the ids below a node.
 */
module Cleanup {
  import opened Seqs
  import opened Wire
  import opened Dom
  import opened Client

  /** Children are nodes of the page, further from the top than their parents. */
  ghost predicate Ranked(h: Heap, rank: Ref -> nat) {
    forall r, x | r in h && x in h[r].children :: x in h && rank(x) > rank(r)
  }

  /** Text nodes have neither ids of their own nor children. */
  ghost predicate PlainTexts(h: Heap) {
    forall r | r in h && IsText(h[r]) :: h[r].bwId == None && h[r].children == []
  }

  /** What is reachable from the nodes of a list. */
  function Reached(h: Heap, cs: seq<Ref>): set<Ref> {
    if cs == [] then {} else Closure(h, {cs[0]}) + Reached(h, cs[1..])
  }

  lemma {:induction false} ReachedMember(h: Heap, cs: seq<Ref>, x: Ref) returns (c: Ref)
    requires x in Reached(h, cs)
    ensures c in cs && x in Closure(h, {c})
  {
    hide Closure;
    if x in Closure(h, {cs[0]}) {
      c := cs[0];
    } else {
      c := ReachedMember(h, cs[1..], x);
    }
  }

  lemma {:induction false} ReachedAll(h: Heap, cs: seq<Ref>, c: Ref)
    requires c in cs
    ensures Closure(h, {c}) <= Reached(h, cs)
  {
    hide Closure;
    if c != cs[0] {
      ReachedAll(h, cs[1..], c);
    }
  }

  lemma {:induction false} ReachedSnoc(h: Heap, cs: seq<Ref>, c: Ref)
    ensures Reached(h, cs + [c]) == Reached(h, cs) + Closure(h, {c})
  {
    hide Closure;
    if cs == [] {
      assert [c][1..] == [];
    } else {
      assert (cs + [c])[1..] == cs[1..] + [c];
      ReachedSnoc(h, cs[1..], c);
    }
  }

  /** Below a node is what its children reach. */
  lemma {:induction false} ClosureOfKids(h: Heap, rank: Ref -> nat, r: Ref)
    requires Ranked(h, rank) && r in h
    ensures Closure(h, {r}) == {r} + Reached(h, h[r].children)
  {
    var cs, t := h[r].children, {r} + Reached(h, h[r].children);
    hide Closure;
    forall p, x | p in t && x in Kids(h, p) && x in h ensures x in t {
      if p == r {
        ReachedAll(h, cs, x);
      } else {
        var c := ReachedMember(h, cs, p);
        ReachedAll(h, cs, c);
      }
    }
    ClosureLeast(h, {r}, t);
    forall x | x in Reached(h, cs) ensures x in Closure(h, {r}) {
      var c := ReachedMember(h, cs, x);
      assert r in Closure(h, {r}) && c in Kids(h, r);
      ClosureLeast(h, {c}, Closure(h, {r}));
    }
  }

  /** Nothing a node reaches is closer to the top. */
  lemma {:induction false} ReachesDown(h: Heap, rank: Ref -> nat, c: Ref, x: Ref)
    requires Ranked(h, rank) && x in Closure(h, {c})
    ensures rank(x) >= rank(c)
  {
    hide Closure;
    var t := set y | y in Closure(h, {c}) && rank(y) >= rank(c);
    forall p, y | p in t && y in Kids(h, p) && y in h ensures y in t {
    }
    ClosureLeast(h, {c}, t);
  }

  lemma {:induction false} NotReachedByKids(h: Heap, rank: Ref -> nat, r: Ref)
    requires Ranked(h, rank) && r in h
    ensures r !in Reached(h, h[r].children)
  {
    if r in Reached(h, h[r].children) {
      var c := ReachedMember(h, h[r].children, r);
      ReachesDown(h, rank, c, r);
    }
  }

  lemma {:induction false} ChildIds(h: Heap, rank: Ref -> nat, c: Ref)
    requires Ranked(h, rank) && c in h
    ensures BwIds(h, Closure(h, {c})) == IdsBelow(h, c) + (if h[c].bwId.Some? then {h[c].bwId.value} else {})
  {
    hide Closure;
    ClosureOfKids(h, rank, c);
    NotReachedByKids(h, rank, c);
  }

  lemma {:induction false} TextIds(h: Heap, rank: Ref -> nat, c: Ref)
    requires Ranked(h, rank) && PlainTexts(h) && c in h && IsText(h[c])
    ensures BwIds(h, Closure(h, {c})) == {}
  {
    hide Closure;
    ClosureOfKids(h, rank, c);
    assert Reached(h, []) == {};
  }

  /** The recursive walk over the element children. */
  method CleanupDescendants(h: Heap, nodes: map<uint32, Ref>, el: Ref, ghost rank: Ref -> nat, ghost height: nat)
    returns (left: map<uint32, Ref>)
    requires Ranked(h, rank) && PlainTexts(h) && el in h
    requires forall x | x in Closure(h, {el}) :: rank(x) <= height
    ensures left == nodes - IdsBelow(h, el)
    decreases height - rank(el)
  {
    hide Closure, IdsBelow, BwIds;
    left := nodes;
    var children := h[el].children;
    ghost var done: set<uint32> := {};
    assert el in Closure(h, {el});
    NothingReached(h);
    for i := 0 to |children|
      invariant done == BwIds(h, Reached(h, children[..i])) && left == nodes - done
    {
      var child := children[i];
      assert child in children && children[..i + 1] == children[..i] + [child];
      ChildWithin(h, rank, el, child, height);
      ReachedSnoc(h, children[..i], child);
      MoreIds(h, Reached(h, children[..i]), Closure(h, {child}));
      if IsText(h[child]) {
        TextIds(h, rank, child);
      } else {
        left := CleanupDescendants(h, left, child, rank, height);
        if h[child].bwId.Some? {
          left := left - {h[child].bwId.value};
        }
        ChildIds(h, rank, child);
      }
      done := done + BwIds(h, Closure(h, {child}));
    }
    assert children[..|children|] == children;
    AllBelow(h, rank, el);
  }

  lemma NothingReached(h: Heap)
    ensures BwIds(h, Reached(h, [])) == {}
  {
  }

  lemma {:induction false} MoreIds(h: Heap, a: set<Ref>, b: set<Ref>)
    ensures BwIds(h, a + b) == BwIds(h, a) + BwIds(h, b)
  {
  }

  lemma {:induction false} AllBelow(h: Heap, rank: Ref -> nat, el: Ref)
    requires Ranked(h, rank) && el in h
    ensures IdsBelow(h, el) == BwIds(h, Reached(h, h[el].children))
  {
    hide Closure;
    ClosureOfKids(h, rank, el);
    NotReachedByKids(h, rank, el);
    assert Closure(h, {el}) - {el} == Reached(h, h[el].children);
  }

  lemma {:induction false} ChildWithin(h: Heap, rank: Ref -> nat, el: Ref, child: Ref, height: nat)
    requires Ranked(h, rank) && el in h && child in h[el].children
    requires forall x | x in Closure(h, {el}) :: rank(x) <= height
    ensures child in h && rank(el) < rank(child) <= height
    ensures forall x | x in Closure(h, {child}) :: rank(x) <= height
  {
    hide Closure;
    ClosureOfKids(h, rank, el);
    ReachedAll(h, h[el].children, child);
    assert child in Closure(h, {child});
  }
}
