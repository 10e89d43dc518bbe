/**
 The children of a tree's elements as lists of ids, and what attaching nodes one
 after the other makes of them. Attaching all nodes of a tree in preorder puts
 every child list in order, whatever it was before; attaching only the texts
 puts them behind the elements.
 */
module Links {
  import opened Seqs
  import opened Wire
  import opened Dom
  import opened Client
  import opened Trees
  import opened Emission
  import opened Solids

  datatype Which = All | Texts | Elements

  predicate Takes(w: Which, v: VNode) {
    w == All || (w == Texts <==> v.VText?)
  }

  function Pick(vs: seq<VNode>, w: Which): seq<VNode> {
    if vs == [] then [] else (if Takes(w, vs[0]) then [vs[0]] else []) + Pick(vs[1..], w)
  }

  function RootIds(vs: seq<VNode>): seq<uint32> {
    if vs == [] then [] else [vs[0].id] + RootIds(vs[1..])
  }

  /** The attachments below `v` in preorder. */
  function Edges(v: VNode, w: Which): seq<Deferred>
    decreases v
  {
    if v.VElem? then EdgesAll(v.children, v.id, w) else []
  }

  function EdgesAll(vs: seq<VNode>, parent: uint32, w: Which): seq<Deferred>
    decreases vs
  {
    if vs == [] then []
    else (if Takes(w, vs[0]) then [Deferred(vs[0].id, parent)] else []) + Edges(vs[0], w) + EdgesAll(vs[1..], parent, w)
  }

  /** A tree with every text behind its element siblings. */
  function Rearranged(v: VNode): (r: VNode)
    ensures r.id == v.id && r.VElem? == v.VElem?
    decreases v
  {
    match v
    case VText(_, _) => v
    case VElem(id, tag, attrs, styles, children) =>
      VElem(id, tag, attrs, styles, RearrangedElements(children) + Pick(children, Texts))
  }

  function RearrangedElements(vs: seq<VNode>): seq<VNode>
    decreases vs
  {
    if vs == [] then []
    else (if vs[0].VElem? then [Rearranged(vs[0])] else []) + RearrangedElements(vs[1..])
  }

  // -------------------------------------------------------- lists of child ids

  type Rows = map<uint32, seq<uint32>>

  function Row(k: Rows, x: uint32): seq<uint32> {
    if x in k then k[x] else []
  }

  /** A node goes to the end of its parent's list. */
  function Hang(k: Rows, e: Deferred): Rows {
    k[e.parent := Without(Row(k, e.parent), e.node) + [e.node]]
  }

  function HangAll(k: Rows, es: seq<Deferred>): Rows
    decreases es
  {
    if es == [] then k else HangAll(Hang(k, es[0]), es[1..])
  }

  /** The nodes attached to `x`. */
  function Targets(es: seq<Deferred>, x: uint32): seq<uint32> {
    if es == [] then [] else (if es[0].parent == x then [es[0].node] else []) + Targets(es[1..], x)
  }

  function MovedToEnd(s: seq<uint32>, ts: seq<uint32>): seq<uint32>
    decreases ts
  {
    if ts == [] then s else MovedToEnd(Without(s, ts[0]) + [ts[0]], ts[1..])
  }

  function Minus(s: seq<uint32>, ts: seq<uint32>): seq<uint32> {
    if s == [] then [] else (if s[0] in ts then [] else [s[0]]) + Minus(s[1..], ts)
  }

  lemma {:induction false} HangAllRow(k: Rows, es: seq<Deferred>, x: uint32)
    ensures Row(HangAll(k, es), x) == MovedToEnd(Row(k, x), Targets(es, x))
    decreases es
  {
    if es != [] {
      HangAllRow(Hang(k, es[0]), es[1..], x);
      var t := Targets(es[1..], x);
      assert ([es[0].node] + t)[0] == es[0].node && ([es[0].node] + t)[1..] == t && [] + t == t;
    }
  }

  lemma {:induction false} MinusAppend(s: seq<uint32>, t: uint32, ts: seq<uint32>)
    ensures Minus(s + [t], ts) == Minus(s, ts) + if t in ts then [] else [t]
    decreases s
  {
    if s == [] {
      assert s + [t] == [t] && [t][1..] == [];
    } else {
      MinusAppend(s[1..], t, ts);
      assert s + [t] == [s[0]] + (s[1..] + [t]) && s == [s[0]] + s[1..];
      MinusFirst(s[0], s[1..] + [t], ts);
      MinusFirst(s[0], s[1..], ts);
      hide Minus;
      Regroup(if s[0] in ts then [] else [s[0]], Minus(s[1..], ts), if t in ts then [] else [t]);
    }
  }

  lemma MinusFirst(x: uint32, s: seq<uint32>, ts: seq<uint32>)
    ensures Minus([x] + s, ts) == (if x in ts then [] else [x]) + Minus(s, ts)
  {
    assert ([x] + s)[1..] == s;
  }

  lemma {:induction false} MinusWithout(s: seq<uint32>, t: uint32, ts: seq<uint32>)
    requires Distinct(s) && t !in ts
    ensures Minus(Without(s, t), ts) == Minus(s, [t] + ts)
    decreases s
  {
    if s != [] {
      if s[0] == t {
        assert t !in s[1..];
        WithoutAbsent(s[1..], t);
        MinusMore(s[1..], t, ts);
      } else {
        assert Without(s, t) == [s[0]] + Without(s[1..], t);
        MinusWithout(s[1..], t, ts);
      }
    }
  }

  lemma {:induction false} MinusMore(s: seq<uint32>, t: uint32, ts: seq<uint32>)
    requires t !in s
    ensures Minus(s, [t] + ts) == Minus(s, ts)
    decreases s
  {
    if s != [] {
      assert t !in s[1..];
      MinusMore(s[1..], t, ts);
    }
  }

  /** Moving `ts` to the end one by one: what is left of `s`, then `ts`. */
  lemma {:induction false} MovedIs(s: seq<uint32>, ts: seq<uint32>)
    requires Distinct(s) && Distinct(ts)
    ensures MovedToEnd(s, ts) == Minus(s, ts) + ts
    decreases ts
  {
    if ts == [] {
      MinusNone(s);
    } else {
      var t, rest := ts[0], ts[1..];
      assert ts == [t] + rest;
      var s1 := Without(s, t) + [t];
      WithoutDistinct(s, t);
      AppendDistinct(Without(s, t), t);
      RestDistinct(ts);
      MovedFirst(s, t, rest);
      hide Distinct, Without, MovedToEnd, Minus;
      MovedIs(s1, rest);
      MinusAppend(Without(s, t), t, rest);
      MinusWithout(s, t, rest);
      Regroup(Minus(s, ts), [t], rest);
    }
  }

  lemma RestDistinct(ts: seq<uint32>)
    requires Distinct(ts) && ts != []
    ensures Distinct(ts[1..]) && ts[0] !in ts[1..]
  {
  }

  lemma MovedFirst(s: seq<uint32>, t: uint32, rest: seq<uint32>)
    ensures MovedToEnd(s, [t] + rest) == MovedToEnd(Without(s, t) + [t], rest)
  {
    assert ([t] + rest)[1..] == rest;
  }

  lemma {:induction false} AppendDistinct(s: seq<uint32>, t: uint32)
    requires Distinct(s) && t !in s
    ensures Distinct(s + [t])
  {
  }

  lemma {:induction false} MinusNone(s: seq<uint32>)
    ensures Minus(s, []) == s
    decreases s
  {
    if s != [] {
      MinusNone(s[1..]);
    }
  }

  lemma {:induction false} MinusAll(s: seq<uint32>, ts: seq<uint32>)
    requires forall x | x in s :: x in ts
    ensures Minus(s, ts) == []
    decreases s
  {
    if s != [] {
      assert s[0] in s;
      MinusAll(s[1..], ts);
    }
  }

  // ------------------------------------------------------ what the edges reach

  /** Every element of `v` is given the picked children, in order, by `es`. */
  ghost predicate Listing(v: VNode, es: seq<Deferred>, w: Which)
    decreases v
  {
    v.VElem? ==>
      Targets(es, v.id) == RootIds(Pick(v.children, w)) && forall x | x in v.children :: Listing(x, es, w)
  }

  lemma {:induction false} TargetsSplit(a: seq<Deferred>, b: seq<Deferred>, x: uint32)
    ensures Targets(a + b, x) == Targets(a, x) + Targets(b, x)
    decreases a
  {
    if a == [] {
      assert a + b == b;
    } else {
      TargetsSplit(a[1..], b, x);
      assert a + b == [a[0]] + (a[1..] + b) && a == [a[0]] + a[1..];
      TargetsFirst(a[0], a[1..] + b, x);
      TargetsFirst(a[0], a[1..], x);
      hide Targets;
      Regroup(if a[0].parent == x then [a[0].node] else [], Targets(a[1..], x), Targets(b, x));
    }
  }

  lemma TargetsFirst(e: Deferred, es: seq<Deferred>, x: uint32)
    ensures Targets([e] + es, x) == (if e.parent == x then [e.node] else []) + Targets(es, x)
  {
    assert ([e] + es)[1..] == es;
  }

  lemma {:induction false} TargetsNone(es: seq<Deferred>, x: uint32)
    requires forall e | e in es :: e.parent != x
    ensures Targets(es, x) == []
    decreases es
  {
    if es != [] {
      assert es[0] in es;
      TargetsNone(es[1..], x);
    }
  }

  lemma {:induction false} ListingWithin(v: VNode, a: seq<Deferred>, b: seq<Deferred>, c: seq<Deferred>, w: Which)
    requires Listing(v, b, w) && forall e | e in a || e in c :: e.parent !in Ids(v)
    ensures Listing(v, a + b + c, w)
    decreases v
  {
    if v.VElem? {
      TargetsSplit(a + b, c, v.id);
      TargetsSplit(a, b, v.id);
      TargetsNone(a, v.id);
      TargetsNone(c, v.id);
      forall x | x in v.children ensures Listing(x, a + b + c, w) {
        IdsInside(v.children, x);
        ListingWithin(x, a, b, c, w);
      }
    }
  }

  lemma {:induction false} IdsInside(vs: seq<VNode>, v: VNode)
    requires v in vs
    ensures Ids(v) <= IdsOf(vs) && v.id in Ids(v)
    decreases vs
  {
    if vs[0] != v {
      IdsInside(vs[1..], v);
    }
  }

  lemma {:induction false} EdgeIds(v: VNode, w: Which, e: Deferred)
    requires e in Edges(v, w)
    ensures e.parent in Ids(v) && e.node in IdsOf(VKids(v))
    decreases v
  {
    EdgeAllIds(v.children, v.id, w, e);
  }

  lemma {:induction false} EdgeAllIds(vs: seq<VNode>, parent: uint32, w: Which, e: Deferred)
    requires e in EdgesAll(vs, parent, w)
    ensures e.node in IdsOf(vs) && (e.parent in IdsOf(vs) || e.parent == parent)
    decreases vs
  {
    assert vs[0].id in Ids(vs[0]);
    if e in EdgesAll(vs[1..], parent, w) {
      EdgeAllIds(vs[1..], parent, w, e);
    } else if e in Edges(vs[0], w) {
      EdgeIds(vs[0], w, e);
      hide Edges;
      assert vs[0].VElem? ==> IdsOf(vs[0].children) <= Ids(vs[0]);
    }
  }

  lemma {:induction false} EdgesListing(v: VNode, w: Which)
    requires Proper(v)
    ensures Listing(v, Edges(v, w), w)
    decreases v
  {
    if v.VElem? {
      EdgesAllListing(v.children, v.id, w);
    }
  }

  lemma {:induction false} EdgesAllListing(vs: seq<VNode>, parent: uint32, w: Which)
    requires ProperAll(vs) && parent !in IdsOf(vs)
    ensures Targets(EdgesAll(vs, parent, w), parent) == RootIds(Pick(vs, w))
    ensures forall v | v in vs :: Listing(v, EdgesAll(vs, parent, w), w)
    decreases vs
  {
    if vs != [] {
      var v, rest := vs[0], vs[1..];
      var a := if Takes(w, v) then [Deferred(v.id, parent)] else [];
      var b, c := Edges(v, w), EdgesAll(rest, parent, w);
      EdgesListing(v, w);
      EdgesAllListing(rest, parent, w);
      HeadTargets(v, rest, parent, w, a, b, c);
      assert EdgesAll(vs, parent, w) == a + b + c;
      PickIds(vs, w);
      hide Listing, Edges, EdgesAll, Targets, Proper, ProperAll;
      ListingHead(v, rest, parent, w, a, b, c);
      assert a + b + c == (a + b) + c + [];
      forall x | x in rest ensures Listing(x, a + b + c, w) {
        ListingRest(v, rest, parent, w, a, b, c, x);
      }
    }
  }

  lemma {:induction false} PickIds(vs: seq<VNode>, w: Which)
    requires vs != []
    ensures RootIds(Pick(vs, w)) == (if Takes(w, vs[0]) then [vs[0].id] else []) + RootIds(Pick(vs[1..], w))
  {
    var p := Pick(vs[1..], w);
    assert ([vs[0]] + p)[1..] == p && [] + p == p;
  }

  lemma {:induction false} HeadTargets(v: VNode, rest: seq<VNode>, parent: uint32, w: Which, a: seq<Deferred>,
                                       b: seq<Deferred>, c: seq<Deferred>)
    requires a == (if Takes(w, v) then [Deferred(v.id, parent)] else []) && b == Edges(v, w) && parent !in Ids(v)
    ensures Targets(a + b + c, parent) == (if Takes(w, v) then [v.id] else []) + Targets(c, parent)
  {
    TargetsSplit(a + b, c, parent);
    TargetsSplit(a, b, parent);
    forall e | e in b ensures e.parent != parent {
      EdgeIds(v, w, e);
    }
    TargetsNone(b, parent);
    if a != [] {
      assert a[1..] == [];
    }
  }

  lemma {:induction false} ListingHead(v: VNode, rest: seq<VNode>, parent: uint32, w: Which, a: seq<Deferred>,
                                       b: seq<Deferred>, c: seq<Deferred>)
    requires a == (if Takes(w, v) then [Deferred(v.id, parent)] else []) && c == EdgesAll(rest, parent, w)
    requires parent !in Ids(v) && Ids(v) !! IdsOf(rest) && Listing(v, b, w)
    ensures Listing(v, a + b + c, w)
  {
    forall e | e in a || e in c ensures e.parent !in Ids(v) {
      if e in c {
        EdgeAllIds(rest, parent, w, e);
      }
    }
    ListingWithin(v, a, b, c, w);
  }

  lemma {:induction false} ListingRest(v: VNode, rest: seq<VNode>, parent: uint32, w: Which, a: seq<Deferred>,
                                       b: seq<Deferred>, c: seq<Deferred>, x: VNode)
    requires a == (if Takes(w, v) then [Deferred(v.id, parent)] else []) && b == Edges(v, w)
    requires parent !in IdsOf(rest) && Ids(v) !! IdsOf(rest) && x in rest && Listing(x, c, w)
    ensures Listing(x, a + b + c, w)
  {
    IdsInside(rest, x);
    forall e | e in a + b ensures e.parent !in Ids(x) {
      if e in b {
        EdgeIds(v, w, e);
      }
    }
    ListingWithin(x, a + b, c, [], w);
    assert (a + b) + c + [] == a + b + c;
  }

  // ---------------------------------------------------------- the three results

  /** Every element's list is the picked children, in the tree's order. */
  ghost predicate Picked(v: VNode, k: Rows, w: Which)
    decreases v
  {
    v.VElem? ==> Row(k, v.id) == RootIds(Pick(v.children, w)) && forall x | x in v.children :: Picked(x, k, w)
  }

  /** Every element's list is its elements, then its texts. */
  ghost predicate Behind(v: VNode, k: Rows)
    decreases v
  {
    v.VElem? ==>
      && Row(k, v.id) == RootIds(Pick(v.children, Elements)) + RootIds(Pick(v.children, Texts))
      && forall x | x in v.children :: Behind(x, k)
  }

  /** Lists of children of `es`, without repetition. */
  ghost predicate Within(ids: set<uint32>, k: Rows, es: seq<Deferred>) {
    forall x | x in ids :: Distinct(Row(k, x)) && forall y | y in Row(k, x) :: Deferred(y, x) in es
  }

  lemma {:induction false} TargetsHave(es: seq<Deferred>, e: Deferred)
    requires e in es
    ensures e.node in Targets(es, e.parent)
    decreases es
  {
    if es[0] != e {
      TargetsHave(es[1..], e);
    }
  }

  lemma {:induction false} PickAll(vs: seq<VNode>)
    ensures Pick(vs, All) == vs
    decreases vs
  {
    if vs != [] {
      PickAll(vs[1..]);
    }
  }

  lemma {:induction false} PickDistinct(vs: seq<VNode>, w: Which)
    requires ProperAll(vs)
    ensures Distinct(RootIds(Pick(vs, w))) && forall id | id in RootIds(Pick(vs, w)) :: id in IdsOf(vs)
    decreases vs
  {
    if vs != [] {
      PickDistinct(vs[1..], w);
      PickIds(vs, w);
      assert vs[0].id in Ids(vs[0]);
    }
  }

  lemma {:induction false} InnerElems(v: VNode, x: VNode)
    requires v.VElem? && x in v.children
    ensures Elems(x) <= ElemsOf(v.children) <= Elems(v)
  {
    ElemsInside(v.children, x);
  }

  lemma {:induction false} ElemsInside(vs: seq<VNode>, v: VNode)
    requires v in vs
    ensures Elems(v) <= ElemsOf(vs)
    decreases vs
  {
    if vs[0] != v {
      ElemsInside(vs[1..], v);
    }
  }

  lemma {:induction false} ProperMember(vs: seq<VNode>, v: VNode)
    requires ProperAll(vs) && v in vs
    ensures Proper(v)
    decreases vs
  {
    if vs[0] != v {
      ProperMember(vs[1..], v);
    }
  }

  /** All nodes attached in preorder: every list is in order, whatever it was. */
  lemma {:induction false} AllHung(v: VNode, k: Rows, es: seq<Deferred>)
    requires Proper(v) && Listing(v, es, All) && Within(Elems(v), k, es)
    ensures Picked(v, HangAll(k, es), All)
    decreases v
  {
    if v.VElem? {
      HangAllRow(k, es, v.id);
      var ts := RootIds(Pick(v.children, All));
      PickDistinct(v.children, All);
      forall y | y in Row(k, v.id) ensures y in ts {
        TargetsHave(es, Deferred(y, v.id));
      }
      assert Distinct(Row(k, v.id));
      hide Distinct, Pick, RootIds, HangAll, Targets;
      MovedIs(Row(k, v.id), ts);
      MinusAll(Row(k, v.id), ts);
      forall x | x in v.children ensures Picked(x, HangAll(k, es), All) {
        InnerElems(v, x);
        ProperMember(v.children, x);
        AllHung(x, k, es);
      }
    }
  }

  /** Only the elements attached, to lists that were empty. */
  lemma {:induction false} ElementsHung(v: VNode, k: Rows, es: seq<Deferred>)
    requires Proper(v) && Listing(v, es, Elements) && forall x | x in Elems(v) :: Row(k, x) == []
    ensures Picked(v, HangAll(k, es), Elements)
    decreases v
  {
    if v.VElem? {
      HangAllRow(k, es, v.id);
      var ts := RootIds(Pick(v.children, Elements));
      PickDistinct(v.children, Elements);
      assert Distinct<uint32>([]);
      hide Distinct, Pick, RootIds, HangAll, Targets;
      MovedIs([], ts);
      forall x | x in v.children ensures Picked(x, HangAll(k, es), Elements) {
        InnerElems(v, x);
        ProperMember(v.children, x);
        ElementsHung(x, k, es);
      }
    }
  }

  /** Only the texts attached again, to complete lists. */
  lemma {:induction false} TextsHung(v: VNode, k: Rows, es: seq<Deferred>)
    requires Proper(v) && Listing(v, es, Texts) && Picked(v, k, All)
    ensures Behind(v, HangAll(k, es))
    decreases v
  {
    if v.VElem? {
      HangAllRow(k, es, v.id);
      PickDistinct(v.children, All);
      PickDistinct(v.children, Texts);
      PickAll(v.children);
      MinusTexts(v.children);
      hide Distinct, Pick, RootIds, HangAll, Targets;
      MovedIs(Row(k, v.id), RootIds(Pick(v.children, Texts)));
      forall x | x in v.children ensures Behind(x, HangAll(k, es)) {
        ProperMember(v.children, x);
        TextsHung(x, k, es);
      }
    }
  }

  lemma {:induction false} MinusTexts(vs: seq<VNode>)
    requires ProperAll(vs)
    ensures Minus(RootIds(vs), RootIds(Pick(vs, Texts))) == RootIds(Pick(vs, Elements))
    decreases vs
  {
    if vs != [] {
      var v, rest := vs[0], vs[1..];
      MinusTexts(rest);
      PickIds(vs, Texts);
      PickIds(vs, Elements);
      PickDistinct(rest, Texts);
      assert v.id in Ids(v);
      var ts, ids := RootIds(Pick(rest, Texts)), RootIds(rest);
      PickDistinct(rest, All);
      PickAll(rest);
      assert v.id !in ts && v.id !in ids;
      assert RootIds(vs) == [v.id] + ids && ([v.id] + ids)[0] == v.id && ([v.id] + ids)[1..] == ids;
      MinusMore(ids, v.id, ts);
      assert [] + ts == ts && [] + Minus(ids, ts) == Minus(ids, ts);
    }
  }

  /** Behind is the order of the rearranged tree. */
  lemma {:induction false} BehindPicked(v: VNode, k: Rows)
    requires Behind(v, k)
    ensures Picked(Rearranged(v), k, All)
    decreases v
  {
    if v.VElem? {
      var w := Rearranged(v);
      PickAll(w.children);
      RearrangedIds(v.children);
      RootIdsSplit(RearrangedElements(v.children), Pick(v.children, Texts));
      forall x | x in w.children ensures Picked(x, k, All) {
        if x in Pick(v.children, Texts) {
          PickMember(v.children, Texts, x);
        } else {
          var y := RearrangedBack(v.children, x);
          BehindPicked(y, k);
        }
      }
    }
  }

  lemma {:induction false} RearrangedIds(vs: seq<VNode>)
    ensures RootIds(RearrangedElements(vs)) == RootIds(Pick(vs, Elements))
    decreases vs
  {
    if vs != [] {
      RearrangedIds(vs[1..]);
      PickIds(vs, Elements);
      var r := RearrangedElements(vs[1..]);
      assert ([Rearranged(vs[0])] + r)[1..] == r && [] + r == r;
    }
  }

  lemma {:induction false} RootIdsSplit(a: seq<VNode>, b: seq<VNode>)
    ensures RootIds(a + b) == RootIds(a) + RootIds(b)
    decreases a
  {
    if a == [] {
      assert a + b == b;
    } else {
      assert (a + b)[1..] == a[1..] + b;
      RootIdsSplit(a[1..], b);
    }
  }

  lemma {:induction false} PickMember(vs: seq<VNode>, w: Which, x: VNode)
    requires x in Pick(vs, w)
    ensures x in vs && Takes(w, x)
    decreases vs
  {
    if !(Takes(w, vs[0]) && x == vs[0]) {
      PickMember(vs[1..], w, x);
    }
  }

  lemma {:induction false} RearrangedBack(vs: seq<VNode>, x: VNode) returns (y: VNode)
    requires x in RearrangedElements(vs)
    ensures y in vs && y.VElem? && x == Rearranged(y)
    decreases vs
  {
    if vs[0].VElem? && x == Rearranged(vs[0]) {
      y := vs[0];
    } else {
      y := RearrangedBack(vs[1..], x);
    }
  }
}
