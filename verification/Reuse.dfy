module Reuse {
  // Reused branches that go wrong. Hidden and shown twice before one flush, a
  // branch with a text before an element comes back in another order. Shown and
  // hidden once between two others, it leaves elements behind that the next
  // flush takes for its own: their texts appear twice.

  import opened Seqs
  import opened Wire
  import opened Dom
  import opened Client
  import opened Trees
  import opened Emission
  import opened ForClient
  import opened Solids
  import opened Hanging
  import opened Scatter
  import opened Skeleton
  import opened Returns
  import opened FlipStreams
  import opened Flips
  import opened FlipEnds
  import opened Branches
  import opened Rounds
  import ForChanges
  import ForSteps
  import ForOnPage
  import ForUpdate
  import Links

  // ------------------------------------------------------------ the wrong order

  /** Hidden, shown, hidden and shown again before one flush: the element is in front of the text. */
  lemma {:induction false} ReusedBranchMisordered(c: Client, id: uint32, d: VNode, msgs: seq<Msg>)
    requires d.VElem? && |d.children| == 2 && d.children[0].VText? && d.children[1].VElem?
    requires Ready(c, id, Some(d), Some(d), [d])
    requires FlipStream(msgs, id, Some(d), [None, Some(d), None, Some(d)])
    ensures !ForUpdate.InSync(Process(c, msgs), id, [d])
  {
    var bs := [None, Some(d), None, Some(d)];
    TwoTimes(Some(d));
    assert !ElementsFirst(d);
    hide Ready, FlipStream, Process, ForUpdate.InSync, ElementsFirst;
    BranchAgreesIff(c, id, Some(d), Some(d), [d], bs, msgs);
  }

  lemma TwoTimes(d: Option<VNode>)
    requires d.Some?
    ensures Times([None, d, None, d], d) == 2
  {
    assert [d][1..] == [] && [None, d][1..] == [d] && [d, None, d][1..] == [None, d]
           && [None, d, None, d][1..] == [d, None, d];
    assert Times([d], d) == 1 && Times([None, d], d) == 1 && Times([d, None, d], d) == 2;
  }

  // ------------------------------------------------------------ the text twice

  /** A branch with one element below its root, and a text in that. */
  datatype Names = Names(root: uint32, elem: uint32, text: uint32, tag: Str, content: Str)

  function Nested(n: Names): VNode {
    VElem(n.root, n.tag, map[], map[], [VElem(n.elem, n.tag, map[], map[], [VText(n.text, n.content)])])
  }

  /** The element is registered and holds its text; the root is not registered. */
  ghost predicate Left(c: Client, n: Names) {
    && Valid(c) && n.root !in c.nodes && n.elem in c.nodes && n.text in c.nodes
    && Kids(c.heap, c.nodes[n.elem]) == [c.nodes[n.text]]
  }

  lemma {:induction false} NestedFacts(n: Names)
    ensures var d := Nested(n);
            && Unstyled(d) == d && Links.Edges(d, Links.All) == [Deferred(n.elem, n.root), Deferred(n.text, n.elem)]
            && Inner(d) == {n.elem} && Ids(d) == {n.root, n.elem, n.text} && Elems(d) == {n.root, n.elem}
  {
    var y := VText(n.text, n.content);
    var x := VElem(n.elem, n.tag, map[], map[], [y]);
    assert [y][1..] == [] && [x][1..] == [];
    assert UnstyledAll([y]) == [y] by { assert UnstyledAll([]) == []; }
    assert UnstyledAll([x]) == [x] by { assert UnstyledAll([]) == []; }
    assert Links.EdgesAll([y], n.elem, Links.All) == [Deferred(n.text, n.elem)] + [] + [];
    assert Links.EdgesAll([x], n.root, Links.All) == [Deferred(n.elem, n.root)] + Links.Edges(x, Links.All) + [];
    assert ElemsOf([y]) == {} && ElemsOf([x]) == {n.elem};
    assert IdsOf([y]) == {n.text} && IdsOf([x]) == {n.elem, n.text};
  }

  lemma {:induction false} KidsAppended(h: Heap, p: Ref, r: Ref, q: Ref)
    requires p != r && ParentOf(h, r) != Some(q)
    ensures Kids(Append(h, p, r), q) == if q == p then Kids(h, q) + [r] else Kids(h, q)
  {
    hide Without;
  }

  // ------------------------------------------------------- what the first flush leaves

  lemma {:induction false} HeldThree(container: uint32, n: Names, o: VNode)
    requires o != Nested(n)
    ensures var d, b := Some(Nested(n)), Some(o);
            && Held(container, d, [b, d, b], false)
               == [Deferred(o.id, container), Deferred(n.elem, n.root), Deferred(n.text, n.elem), Deferred(o.id,
                 container)]
            && Before(d, [b, d, b], false)
  {
    NestedFacts(n);
    var d, b := Some(Nested(n)), Some(o);
    var x := Deferred(o.id, container);
    hide Nested, Links.Edges, Unstyled;
    assert [b, d, b][1..] == [d, b] && [d, b][1..] == [b] && [b][1..] == [];
    assert HeldOne(container, d, b, true, true) == [x] + [] == [x];
    assert HeldOne(container, d, b, true, false) == [x] + [] == [x];
    assert HeldOne(container, d, d, false, false) == [] + Links.Edges(Nested(n), Links.All);
    assert Held(container, d, [b], true) == [x] + [] == [x];
    assert Before(d, [b], true) && Before(d, [d, b], false);
    assert Held(container, d, [d, b], false) == HeldOne(container, d, d, false, false) + [x];
    assert Held(container, d, [b, d, b], false) == [x] + Held(container, d, [d, b], false);
  }

  /** In the half-registered state the element has no children yet. */
  lemma {:induction false} HalfNested(c: Client, n: Names)
    requires Half(c, Nested(n)) && Valid(c)
    ensures n.root !in c.nodes && n.elem in c.nodes && n.text in c.nodes
    ensures Kids(c.heap, c.nodes[n.elem]) == [] && ParentOf(c.heap, c.nodes[n.elem]) == None
    ensures ParentOf(c.heap, c.nodes[n.text]) == None && c.nodes[n.elem] in c.heap && c.nodes[n.text] in c.heap
  {
    NestedFacts(n);
    var es := Links.Edges(Nested(n), Links.All);
    assert es[0] == Deferred(n.elem, n.root) && es[1] == Deferred(n.text, n.elem);
    assert es[0] in es && es[1] in es;
    hide Nested, Links.Edges, Inner, Elems;
    assert n.elem in {n.elem};
    assert RefList(c.nodes, []) == [];
  }

  /** The nodes below the root are registered and hang nowhere. */
  ghost predicate Bare(c: Client, n: Names) {
    && n.root !in c.nodes && n.elem in c.nodes && n.text in c.nodes && Kids(c.heap, c.nodes[n.elem]) == []
    && ParentOf(c.heap, c.nodes[n.elem]) == None && ParentOf(c.heap, c.nodes[n.text]) == None
  }

  /** The four attachments of the first flush. */
  lemma {:induction false} FourSettle(c: Client, s: Setting, n: Names, o: VNode)
    requires Docked(c, s, Some(o), false) && Proper(o) && s.container !in Ids(o) && Bare(c, n)
    requires Ids(Nested(n)) == {n.root, n.elem, n.text} && 0 !in Ids(Nested(n)) && n.text != n.elem
    requires Ids(o) !! Ids(Nested(n)) && s.container !in Ids(Nested(n))
    ensures var c' := SettleAll(c, [Deferred(o.id, s.container), Deferred(n.elem, n.root), Deferred(n.text, n.elem),
                                    Deferred(o.id, s.container)]);
            c'.nodes == c.nodes && Left(c', n)
  {
    var dock, e1, e2 := Deferred(o.id, s.container), Deferred(n.elem, n.root), Deferred(n.text, n.elem);
    var c1 := Settle(c, dock);
    var c3 := Settle(c1, e2);
    FourSteps(c, dock, e1, e2, dock);
    hide SettleAll, Docked, Nested, Proper, Settle, Ids;
    Docks(c, s, n, o, false);
    StaysLoose(c1, e1);
    SecondSettle(c1, s, n, o) by { DockedValid(c1, s, Some(o), true); }
    Docks(c3, s, n, o, true);
    DockedValid(Settle(c3, dock), s, Some(o), true);
    hide Valid;
  }

  /** The other branch's root joins the container: nothing of this one changes. */
  lemma {:induction false} Docks(c: Client, s: Setting, n: Names, o: VNode, att: bool)
    requires Docked(c, s, Some(o), att) && Proper(o) && s.container !in Ids(o)
    requires Ids(o) !! {n.elem, n.text} && s.container != n.elem && s.container != n.text
    requires n.elem in c.nodes && n.text in c.nodes
    ensures var c' := Settle(c, Deferred(o.id, s.container));
            && Docked(c', s, Some(o), true) && c'.nodes == c.nodes
            && Kids(c'.heap, c.nodes[n.elem]) == Kids(c.heap, c.nodes[n.elem])
            && ParentOf(c'.heap, c.nodes[n.elem]) == ParentOf(c.heap, c.nodes[n.elem])
            && ParentOf(c'.heap, c.nodes[n.text]) == ParentOf(c.heap, c.nodes[n.text])
  {
    DockedValid(c, s, Some(o), att);
    hide Docked, Aside, Proper, Settle, Ids, Valid;
    SettleLast(c, s, o, att);
    NestedKept(c, Settle(c, Deferred(o.id, s.container)), s, n, Ids(o));
  }

  lemma {:induction false} FourSteps(c: Client, d0: Deferred, d1: Deferred, d2: Deferred, d3: Deferred)
    ensures SettleAll(c, [d0, d1, d2, d3]) == Settle(Settle(Settle(Settle(c, d0), d1), d2), d3)
  {
    hide Settle;
    assert [d0, d1, d2, d3][1..] == [d1, d2, d3] && [d1, d2, d3][1..] == [d2, d3] && [d2, d3][1..] == [d3]
           && [d3][1..] == [];
    var c1 := Settle(c, d0);
    var c2 := Settle(c1, d1);
    assert SettleAll(c2, [d2, d3]) == Settle(Settle(c2, d2), d3) by { assert SettleAll(Settle(c2, d2), [d3])
           == Settle(Settle(c2, d2), d3); }
    assert SettleAll(c1, [d1, d2, d3]) == SettleAll(c2, [d2, d3]);
  }

  /** A node without parent whose parent is not registered stays where it is. */
  lemma StaysLoose(c: Client, d: Deferred)
    requires d.node in c.nodes && d.parent !in c.nodes && d.parent != 0 && ParentOf(c.heap, c.nodes[d.node]) == None
    ensures Settle(c, d) == c
  {
  }

  lemma {:induction false} NestedKept(c: Client, c': Client, s: Setting, n: Names, ids: set<uint32>)
    requires Valid(c) && Aside(c, c', ids, {s.ref}) && c'.nodes == c.nodes && n.elem in c.nodes && n.text in c.nodes
    requires n.elem !in ids && n.text !in ids && s.container in c.nodes && c.nodes[s.container] == s.ref
    requires n.elem != s.container && n.text != s.container
    ensures Kids(c'.heap, c.nodes[n.elem]) == Kids(c.heap, c.nodes[n.elem])
    ensures ParentOf(c'.heap, c.nodes[n.elem]) == ParentOf(c.heap, c.nodes[n.elem])
    ensures ParentOf(c'.heap, c.nodes[n.text]) == ParentOf(c.heap, c.nodes[n.text])
    ensures c.nodes[n.elem] in c'.heap && c.nodes[n.text] in c'.heap
  {
    RegistryTells(c, n.elem, s.container);
    RegistryTells(c, n.text, s.container);
    AsideTold(c, c', ids, {s.ref}, {n.elem, n.text});
    NodesBelowNext(c);
    hide Valid, Aside;
  }

  /** The text goes below the element. */
  lemma {:induction false} SecondSettle(c: Client, s: Setting, n: Names, o: VNode)
    requires Docked(c, s, Some(o), true) && Proper(o) && s.container !in Ids(Nested(n)) && Ids(o) !! Ids(Nested(n))
    requires Valid(c) && Ids(Nested(n)) == {n.root, n.elem, n.text} && 0 !in Ids(Nested(n)) && n.text != n.elem
    requires n.root !in c.nodes && n.elem in c.nodes && n.text in c.nodes && Kids(c.heap, c.nodes[n.elem]) == []
    requires ParentOf(c.heap, c.nodes[n.elem]) == None && ParentOf(c.heap, c.nodes[n.text]) == None
    ensures var c' := Settle(c, Deferred(n.text, n.elem));
            && c'.nodes == c.nodes && Docked(c', s, Some(o), true)
              && Kids(c'.heap, c.nodes[n.elem]) == [c.nodes[n.text]]
  {
    var e, ids := Deferred(n.text, n.elem), Ids(Nested(n));
    RegistryTells(c, n.text, n.elem);
    KidsAppended(c.heap, c.nodes[n.elem], c.nodes[n.text], c.nodes[n.elem]);
    hide Nested, Docked, Aside, Append, Proper, Valid;
    assert Settle(c, e) == c.(heap := Append(c.heap, c.nodes[n.elem], c.nodes[n.text]));
    SettleOwn(c, e, ids);
    DockedAside(c, Settle(c, e), s, Some(o), true, ids);
  }

  /** After the flips through the branch, its element is left registered with its text. */
  lemma {:induction false} LeftRegistered(c: Client, id: uint32, n: Names, o: VNode, msgs: seq<Msg>)
    requires Ready(c, id, Some(Nested(n)), Some(Nested(n)), [Nested(n), o])
    requires FlipStream(msgs, id, Some(Nested(n)), [Some(o), Some(Nested(n)), Some(o)])
    ensures var c' := Process(c, msgs);
            ForUpdate.InSync(c', id, [Unstyled(o)]) && Left(c', n) && 0 !in c'.nodes
  {
    var d, b, pool := Some(Nested(n)), Some(o), [Nested(n), o];
    var bs := [b, d, b];
    PoolOfTwo(Nested(n), o);
    assert ProperAll(pool);
    hide Ready, FlipStream, Nested, Process, Held, Ended, Elsewhere, ForUpdate.RestKept, Unstyled;
    var c2 := FlushEnds(c, id, d, d, pool, bs, msgs);
    FlipsOnPage(c, id, d, d, pool, bs, msgs);
    HeldThree(id, n, o);
    var s := PoolSetting(c, id, pool);
    PoolParts(c, id, pool) by { BeginFacts(c, id, d, d, pool); }
    EndedLeft(c2, s, n, o);
    ShownOther(d, o, bs);
    EndSame(c2);
  }

  lemma {:induction false} ShownOther(d: Option<VNode>, o: VNode, bs: seq<Option<VNode>>)
    requires bs != [] && Last(bs) == Some(o) && d != Some(o)
    ensures Listed(ShownAfter(d, bs)) == [Unstyled(o)]
  {
    hide Unstyled;
  }

  lemma {:induction false} PoolOfTwo(d: VNode, o: VNode)
    requires ProperAll([d, o])
    ensures d != o && Proper(d) && Proper(o) && Ids(d) !! Ids(o)
  {
    assert [d, o][1..] == [o] && [o][1..] == [];
    assert d.id in Ids(d);
  }

  lemma {:induction false} EndSame(c: Client)
    requires c.depth == 1
    ensures End(c).nodes == c.nodes && End(c).heap == SettleAll(c, c.deferred).heap
  {
    SettleAllDepth(c, c.deferred, 0);
    SettleAllKeeps(c, c.deferred);
  }

  lemma TextTold(n: Names)
    requires Proper(Nested(n))
    ensures n.text != n.elem && n.elem != n.root && n.text != n.root
  {
    NestedFacts(n);
    var y := VText(n.text, n.content);
    var x := VElem(n.elem, n.tag, map[], map[], [y]);
    assert IdsOf([y]) == {n.text} && IdsOf([x]) == {n.elem, n.text};
    assert Nested(n).children == [x] && x.children == [y];
    assert Proper(x) by { Links.ProperMember([x], x); }
  }

  lemma {:induction false} EndedLeft(c: Client, s: Setting, n: Names, o: VNode)
    requires Ended(c, s, Some(Nested(n)), Some(o), true) && Proper(Nested(n)) && Proper(o) && Ids(Nested(n)) !! Ids(o)
    requires c.deferred == [Deferred(o.id, s.container), Deferred(n.elem, n.root), Deferred(n.text, n.elem),
                            Deferred(o.id, s.container)]
    ensures var c' := SettleAll(c, c.deferred); c'.nodes == c.nodes && Left(c', n) && 0 !in c.nodes
  {
    NestedFacts(n);
    assert Shelved(c, s, Some(Nested(n)), true) && Empty(c, s);
    assert Half(c, Nested(n));
    EndedDocked(c, s, Some(Nested(n)), Some(o), true);
    assert Some(Nested(n)) != Some(o) by { assert o.id in Ids(o); }
    HalfNested(c, n) by { DockedValid(c, s, Some(Unstyled(o)), false); }
    ProperNonZero(Nested(n));
    assert n.text != n.elem by { TextTold(n); }
    hide Ended, Nested, Docked, Half, Shelved, Unstyled, SettleAll, Proper, Ids, Links.Edges;
    FourSettle(c, s, n, Unstyled(o));
  }

  // ----------------------------------------------------- what the next flush does

  /** What is written for the branch. */
  lemma {:induction false} NestedShow(msgs: seq<Msg>, n: Names, parent: uint32)
    requires IsInsertTree(msgs, Nested(n), parent)
    ensures |msgs| == 3 && IsInsert(msgs[0], Nested(n), parent) && msgs[2] == InsertText(n.text, n.elem, n.content)
    ensures msgs[1].InsertNode? && msgs[1] == InsertNode(n.elem, n.root, 0, msgs[1].tag, msgs[1].attrs)
  {
    var y := VText(n.text, n.content);
    var x := VElem(n.elem, n.tag, map[], map[], [y]);
    assert Nested(n).children == [x] && [x][1..] == [] && [y][1..] == [] && x.children == [y];
    var a, b := InsertSplit(msgs[1..], [x], n.root);
    assert b == [] && a + b == a;
    var a', b' := InsertSplit(a[1..], [y], n.elem);
    assert b' == [] && a' + b' == a';
    assert a == [a[0]] + a[1..] && msgs == [msgs[0]] + msgs[1..];
  }

  /** The element is registered for a node with one child; the text was known when the batch began. */
  ghost predicate Holds(c: Client, n: Names, old_: Ref, container: uint32) {
    && Valid(c) && n.elem in c.nodes && n.elem in c.existing && c.depth > 0 && container in c.nodes
    && Kids(c.heap, c.nodes[n.elem]) == [old_] && old_ != c.nodes[n.elem]
  }

  /** The other branch goes: nothing of this one changes. */
  lemma {:induction false} OtherGoes(c: Client, id: uint32, n: Names, o: VNode)
    requires ForUpdate.InSync(c, id, [o]) && Left(c, n) && Ids(o) !! {n.root, n.elem, n.text} && id !in Ids(o)
    requires id != n.elem && n.text != n.elem
    ensures var c1 := Apply(Begin(c), RemoveNode(o.id));
            && Holds(c1, n, c.nodes[n.text], id) && n.root !in c1.nodes && id in c1.existing && n.root !in c1.existing
            && c1.deferred == []
  {
    var b := Begin(c);
    ShownRoot(c, o, id);
    assert Valid(b) && Shows(b.heap, b.nodes, o);
    ForSteps.BelowTree(b, o);
    assert o.id in Ids(o);
    RegistryTells(b, n.elem, o.id);
    RegistryTells(b, n.elem, id);
    RegistryTells(b, n.elem, n.text);
    var c1 := Apply(b, RemoveNode(o.id));
    hide Valid, Shows, IdsBelow, Apply, Ids, ForUpdate.InSync;
    RemovedFrom(b, o.id, Ids(o), {});
    OnlyKid(b.heap, b.nodes[id], b.nodes[o.id]) by { RegistryTells(b, id, o.id); }
    LeftInHeap(b, n);
  }

  lemma LeftInHeap(c: Client, n: Names)
    requires Left(c, n)
    ensures c.nodes[n.elem] in c.heap
  {
  }

  /** The root is created, and put off. */
  lemma {:induction false} RootComes(c: Client, n: Names, old_: Ref, id: uint32, m: Msg)
    requires Holds(c, n, old_, id) && n.root !in c.nodes && id in c.existing && n.root != n.elem && n.root != id
    requires IsInsert(m, Nested(n), id) && n.tag != TEXT_TAG
    ensures var c1 := Apply(c, m);
            && Holds(c1, n, old_, id) && n.root in c1.nodes && ParentOf(c1.heap, c1.nodes[n.root]) == None
            && c1.deferred == c.deferred + [Deferred(n.root, id)]
  {
    RootCreated(c, n, old_, id, m);
    hide Apply, Holds, Scattered, IsInsert;
    HoldsBeside(c, Apply(c, m), n, old_, id, n.root, [Deferred(n.root, id)]);
  }

  lemma {:induction false} RootCreated(c: Client, n: Names, old_: Ref, id: uint32, m: Msg)
    requires Holds(c, n, old_, id) && n.root !in c.nodes && id in c.existing && IsInsert(m, Nested(n), id)
    requires n.tag != TEXT_TAG
    ensures var c1 := Apply(c, m);
            && Scattered(c, c1, {n.root}, [Deferred(n.root, id)])
            && n.root in c1.nodes && ParentOf(c1.heap, c1.nodes[n.root]) == None
  {
    var v := VElem(n.root, n.tag, map[], map[], []);
    assert Valid(c) && c.depth > 0;
    LabelElem(n.root, n.tag, map[]);
    RootIsPlaced(c, n, id, m);
    hide Valid, Place, Create, Labelled, Scattered, Holds, Apply, IsInsert;
    OnePutOff(c, v, NewElem(n.root, n.tag, map[]), id);
    hide NewElem;
  }

  lemma RootIsPlaced(c: Client, n: Names, id: uint32, m: Msg)
    requires n.root !in c.nodes && IsInsert(m, Nested(n), id)
    ensures Apply(c, m) == Place(Create(c, n.root, NewElem(n.root, n.tag, map[])), n.root, c.next, id, 0)
  {
    hide Place, Create, NewElem;
  }

  lemma {:induction false} HoldsBeside(c: Client, c': Client, n: Names, old_: Ref, id: uint32, i: uint32,
                                       ds: seq<Deferred>)
    requires Holds(c, n, old_, id) && Scattered(c, c', {i}, ds) && i != n.elem && i != id
    ensures Holds(c', n, old_, id) && c'.deferred == c.deferred + ds
    ensures forall x | x in c.nodes && x != i ::
             x in c'.nodes && c'.nodes[x] == c.nodes[x]
             && ParentOf(c'.heap, c.nodes[x]) == ParentOf(c.heap, c.nodes[x])
  {
    NodesBelowNext(c);
    hide Valid, Renewed;
    assert forall x | x in c.nodes && x != i :: x in c'.nodes && c'.nodes[x] == c.nodes[x] by { RenewedRest(c, c', i); }
  }

  lemma RenewedRest(c: Client, c': Client, i: uint32)
    requires Renewed(c, c', {i})
    ensures forall x | x in c.nodes && x != i :: x in c'.nodes && c'.nodes[x] == c.nodes[x]
  {
  }

  /** The element, still registered, moves at once, with the old text in it. */
  lemma {:induction false} ElementComes(c: Client, n: Names, old_: Ref, id: uint32, tag: Str, attrs: seq<(Str, Str)>)
    requires Holds(c, n, old_, id) && n.root in c.nodes && ParentOf(c.heap, c.nodes[n.root]) == None && n.root != n.elem
    ensures var c1 := Apply(c, InsertNode(n.elem, n.root, 0, tag, attrs));
            && Holds(c1, n, old_, id) && n.root in c1.nodes && ParentOf(c1.heap, c1.nodes[n.root]) == None
            && c1.deferred == c.deferred
  {
    var e := Deferred(n.elem, n.root);
    RegistryTells(c, n.elem, n.root);
    MoveIsHung(c, e, tag, attrs);
    NotOwnParent(c, n.elem, old_);
    KidsAppended(c.heap, c.nodes[n.root], c.nodes[n.elem], c.nodes[n.elem]);
    RootStays(c.heap, c.nodes[n.root], c.nodes[n.elem]);
    assert Forest(c.heap) && c.nodes[n.elem] != ROOT && c.nodes[n.root] in c.heap && c.nodes[n.elem] in c.heap;
    AppendForest(c.heap, c.nodes[n.root], c.nodes[n.elem]);
    HungSame(c, e);
    hide Apply, Append, Forest;
  }

  lemma NotOwnParent(c: Client, id: uint32, old_: Ref)
    requires Valid(c) && id in c.nodes && Kids(c.heap, c.nodes[id]) == [old_] && old_ != c.nodes[id]
    ensures ParentOf(c.heap, c.nodes[id]) != Some(c.nodes[id])
  {
    assert NodeOk(c.heap, c.nodes[id]);
  }

  lemma {:induction false} RootStays(h: Heap, p: Ref, r: Ref)
    requires p != r && ParentOf(h, p) == None
    ensures ParentOf(Append(h, p, r), p) == None
  {
    hide Without;
  }

  /** The text is created again, and put off. */
  lemma {:induction false} TextComes(c: Client, n: Names, old_: Ref, id: uint32)
    requires Holds(c, n, old_, id) && n.text != n.elem && n.text != n.root && n.text != id && n.root in c.nodes
    requires ParentOf(c.heap, c.nodes[n.root]) == None
    ensures var c1 := Apply(c, InsertText(n.text, n.elem, n.content));
            && Holds(c1, n, old_, id) && n.root in c1.nodes && ParentOf(c1.heap, c1.nodes[n.root]) == None
            && n.text in c1.nodes && ParentOf(c1.heap, c1.nodes[n.text]) == None && c1.nodes[n.text] in c1.heap
            && c1.deferred == c.deferred + [Deferred(n.text, n.elem)]
  {
    TextCreated(c, n, old_, id);
    hide Apply, Holds, Scattered, Loose;
    HoldsBeside(c, Apply(c, InsertText(n.text, n.elem, n.content)), n, old_, id, n.text, [Deferred(n.text, n.elem)]);
  }

  lemma {:induction false} TextCreated(c: Client, n: Names, old_: Ref, id: uint32)
    requires Holds(c, n, old_, id)
    ensures var c1 := Apply(c, InsertText(n.text, n.elem, n.content));
            && Scattered(c, c1, {n.text}, [Deferred(n.text, n.elem)])
            && n.text in c1.nodes && ParentOf(c1.heap, c1.nodes[n.text]) == None && c1.nodes[n.text] in c1.heap
  {
    var v := VText(n.text, n.content);
    assert Valid(c) && c.depth > 0 && n.elem in c.existing;
    LabelText(n.text, n.content);
    TextIsPlaced(c, n.text, n.elem, n.content);
    hide Valid, Place, Create, Labelled, Scattered, Holds, Loose, Apply;
    OnePutOff(c, v, NewText(n.content), n.elem);
    LooseText(Apply(c, InsertText(n.text, n.elem, n.content)), v);
  }

  /** Both are attached: the element holds the old text and the new one. */
  lemma {:induction false} TwoSettle(c: Client, n: Names, old_: Ref, id: uint32)
    requires Holds(c, n, old_, id) && n.root in c.nodes && n.text in c.nodes && n.text != n.elem && id != n.elem
             && n.root != n.elem
    requires ParentOf(c.heap, c.nodes[n.root]) == None && ParentOf(c.heap, c.nodes[n.text]) == None
    requires n.text != n.root && n.root != id
    ensures var c' := SettleAll(c, [Deferred(n.root, id), Deferred(n.text, n.elem)]);
            c'.nodes == c.nodes && Kids(c'.heap, c.nodes[n.elem]) == [old_, c.nodes[n.text]]
  {
    var e1, e2 := Deferred(n.root, id), Deferred(n.text, n.elem);
    assert [e1, e2][1..] == [e2] && [e2][1..] == [];
    var c1 := Settle(c, e1);
    assert SettleAll(c, [e1, e2]) == Settle(c1, e2) by { assert SettleAll(c1, [e2]) == Settle(c1, e2); }
    RegistryTells(c, n.root, id);
    RegistryTells(c, n.text, n.elem);
    RegistryTells(c, n.elem, id);
    RegistryTells(c, n.text, n.root);
    KidsAppended(c.heap, c.nodes[id], c.nodes[n.root], c.nodes[n.elem]);
    OthersParent(c.heap, c.nodes[id], c.nodes[n.root], c.nodes[n.text]);
    hide SettleAll, Append, Valid;
    KidsAppended(c1.heap, c.nodes[n.elem], c.nodes[n.text], c.nodes[n.elem]);
  }

  lemma {:induction false} OthersParent(h: Heap, p: Ref, r: Ref, q: Ref)
    requires p != r && q != r && ParentOf(h, q) == None
    ensures ParentOf(Append(h, p, r), q) == None
  {
    hide Without;
  }

  /** After the instructions of the next flush. */
  lemma {:induction false} ComesAgain(c: Client, id: uint32, n: Names, o: VNode, show: seq<Msg>)
    requires ForUpdate.InSync(c, id, [o]) && Left(c, n) && Ids(o) !! {n.root, n.elem, n.text} && id !in Ids(o)
    requires id != n.elem && id != n.root && id != n.text && n.text != n.elem && n.elem != n.root && n.text != n.root
    requires IsInsertTree(show, Nested(n), id) && n.tag != TEXT_TAG
    ensures |show| == 3
    ensures var c4 := Apply(Apply(Apply(Apply(Begin(c), RemoveNode(o.id)), show[0]), show[1]), show[2]);
            && c4.deferred == [Deferred(n.root, id), Deferred(n.text, n.elem)]
            && Holds(c4, n, c.nodes[n.text], id) && n.root in c4.nodes && ParentOf(c4.heap, c4.nodes[n.root]) == None
            && n.text in c4.nodes && ParentOf(c4.heap, c4.nodes[n.text]) == None && c4.depth == 1
  {
    var old_ := c.nodes[n.text];
    NestedShow(show, n, id);
    BeginDepth(c, id, o);
    OtherGoes(c, id, n, o);
    var c1 := Apply(Begin(c), RemoveNode(o.id));
    hide IsInsertTree, Nested, Valid, Apply, ForUpdate.InSync, Ids, SettleAll, Process, End, Holds, Left, Begin;
    ComesOn(c1, id, n, old_, show);
  }

  lemma {:induction false} ComesOn(c: Client, id: uint32, n: Names, old_: Ref, show: seq<Msg>)
    requires Holds(c, n, old_, id) && n.root !in c.nodes && id in c.existing && c.deferred == [] && n.tag != TEXT_TAG
    requires id != n.elem && id != n.root && id != n.text && n.text != n.elem && n.elem != n.root && n.text != n.root
    requires |show| == 3 && IsInsert(show[0], Nested(n), id) && show[2] == InsertText(n.text, n.elem, n.content)
    requires show[1].InsertNode? && show[1] == InsertNode(n.elem, n.root, 0, show[1].tag, show[1].attrs)
    ensures var c4 := Apply(Apply(Apply(c, show[0]), show[1]), show[2]);
            && c4.deferred == [Deferred(n.root, id), Deferred(n.text, n.elem)]
            && Holds(c4, n, old_, id) && n.root in c4.nodes && ParentOf(c4.heap, c4.nodes[n.root]) == None
            && n.text in c4.nodes && ParentOf(c4.heap, c4.nodes[n.text]) == None && c4.depth == c.depth
  {
    hide Nested, Valid, Apply, Holds, IsInsert;
    RootComes(c, n, old_, id, show[0]);
    var c2 := Apply(c, show[0]);
    ElementComes(c2, n, old_, id, show[1].tag, show[1].attrs);
    TextComes(Apply(c2, show[1]), n, old_, id);
    assert [] + [Deferred(n.root, id)] + [Deferred(n.text, n.elem)] == [Deferred(n.root, id), Deferred(n.text, n.elem)];
  }

  /** What the flush after that makes of the page: the element has a text child too many. */
  lemma {:induction false} TextTwice(c: Client, id: uint32, n: Names, o: VNode, show: seq<Msg>)
    requires ForUpdate.InSync(c, id, [o]) && Left(c, n) && Ids(o) !! {n.root, n.elem, n.text} && id !in Ids(o)
    requires id != n.elem && id != n.root && id != n.text && n.text != n.elem && n.elem != n.root && n.text != n.root
    requires IsInsertTree(show, Nested(n), id) && n.tag != TEXT_TAG
    ensures var c' := Process(c, [RemoveNode(o.id)] + show);
            n.elem in c'.nodes && n.text in c'.nodes
              && Kids(c'.heap, c'.nodes[n.elem]) == [c.nodes[n.text], c'.nodes[n.text]]
  {
    var msgs := [RemoveNode(o.id)] + show;
    ComesAgain(c, id, n, o, show);
    assert msgs[1..] == show && msgs[0] == RemoveNode(o.id);
    hide IsInsertTree, Nested, Valid, Apply, ForUpdate.InSync, Ids, SettleAll, Process, End, Left;
    var c4 := Apply(Apply(Apply(Apply(Begin(c), msgs[0]), show[0]), show[1]), show[2]);
    TwoSettle(c4, n, c.nodes[n.text], id);
    FourApplied(Begin(c), msgs);
    ForUpdate.ProcessIs(c, msgs);
    hide Holds;
    EndSame(c4);
  }

  lemma BeginDepth(c: Client, id: uint32, o: VNode)
    requires ForUpdate.InSync(c, id, [o])
    ensures Begin(c).depth == 1
  {
  }

  lemma {:induction false} FourApplied(c: Client, msgs: seq<Msg>)
    requires |msgs| == 4
    ensures ApplyAll(c, msgs) == Apply(Apply(Apply(Apply(c, msgs[0]), msgs[1..][0]), msgs[1..][1]), msgs[1..][2])
  {
    hide Apply;
    var rest := msgs[1..];
    assert msgs == [msgs[0]] + rest && rest == [rest[0], rest[1], rest[2]];
    ApplyCons(c, msgs);
    ApplyCons(Apply(c, msgs[0]), rest);
    assert rest[1..] == [rest[1], rest[2]];
    ApplyCons(Apply(Apply(c, msgs[0]), rest[0]), rest[1..]);
  }

  /**
   Flips that show the branch once between two showings of another one leave the
   page right, but the next flush that shows the branch repeats its text.
   */
  lemma {:induction false} ReusedBranchDuplicated(c: Client, id: uint32, n: Names, o: VNode, msgs: seq<Msg>,
                                                  more: seq<Msg>)
    requires var d := Some(Nested(n));
             && Ready(c, id, d, d, [Nested(n), o]) && Unstyled(o) == o
             && FlipStream(msgs, id, d, [Some(o), d, Some(o)]) && FlipStream(more, id, Some(o), [d])
    ensures var c1 := Process(c, msgs);
            var c2 := Process(c1, more);
            && ForUpdate.InSync(c1, id, [o])
            && n.elem in c2.nodes && |Kids(c2.heap, c2.nodes[n.elem])| == 2
            && !ForUpdate.InSync(c2, id, [Nested(n)])
  {
    var c1 := Process(c, msgs);
    var d, pool := Some(Nested(n)), [Nested(n), o];
    LeftRegistered(c, id, n, o, msgs);
    assert ProperAll(pool) && id !in IdsOf(pool);
    PoolOfTwo(Nested(n), o);
    MemberOf(pool, o);
    MemberOf(pool, Nested(n));
    NestedFacts(n);
    TextTold(n);
    var show := NextShow(more, id, n, o);
    hide Ready, FlipStream, ForUpdate.InSync, Nested, Unstyled, Process, Left, IsInsertTree, Ids, IdsOf;
    TextTwice(c1, id, n, o, show);
    if ForUpdate.InSync(Process(c1, more), id, [Nested(n)]) {
      OneText(Process(c1, more), id, n);
    }
  }

  lemma {:induction false} NextShow(msgs: seq<Msg>, id: uint32, n: Names, o: VNode) returns (show: seq<Msg>)
    requires FlipStream(msgs, id, Some(o), [Some(Nested(n))])
    ensures msgs == [RemoveNode(o.id)] + show && IsInsertTree(show, Nested(n), id)
  {
    var bs := [Some(Nested(n))];
    var rest := StreamSplit(msgs, id, Some(o), bs);
    var front, none := ShowSplit(rest, id, bs);
    assert bs[1..] == [] && none == [] && front + none == front;
    hide IsInsertTree, Nested;
    show := rest;
  }

  /** Where the branch is shown, its element has one child. */
  lemma {:induction false} OneText(c: Client, id: uint32, n: Names)
    requires ForUpdate.InSync(c, id, [Nested(n)])
    ensures n.elem in c.nodes && |Kids(c.heap, c.nodes[n.elem])| == 1
  {
    var y := VText(n.text, n.content);
    var x := VElem(n.elem, n.tag, map[], map[], [y]);
    var d := Nested(n);
    assert d.children == [x] && x.children == [y];
    hide Valid;
    assert d in [d];
    assert Shows(c.heap, c.nodes, d);
    assert ShowsAll(c.heap, c.nodes, [x], Some(c.nodes[d.id]));
    assert Shows(c.heap, c.nodes, x);
    assert |Refs(c.nodes, [y])| == 1;
  }
}
