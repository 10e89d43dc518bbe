module Rounds {
  // Over whole runs of flushes, and when exactly the client agrees with the
  // server's current branch.

  import opened Seqs
  import opened Wire
  import opened Dom
  import opened Client
  import opened Trees
  import opened Emission
  import opened ForClient
  import opened Solids
  import opened FlipStreams
  import opened FlipEnds
  import opened Branches
  import ForSteps
  import ForChanges
  import ForUpdate
  import ForAgreement
  import Links
  import Seen

  // ------------------------------------------------- which trees are rearranged

  /** No element of the tree has a text before an element. */
  ghost predicate ElementsFirst(v: VNode)
    decreases v
  {
    v.VElem? ==>
      && (forall i, j | 0 <= i < j < |v.children| && v.children[i].VText? :: v.children[j].VText?)
      && forall x | x in v.children :: ElementsFirst(x)
  }

  lemma {:induction false} RearrangedSame(v: VNode)
    ensures Links.Rearranged(v) == v <==> ElementsFirst(v)
    decreases v
  {
    if v.VElem? {
      var vs := v.children;
      var a, b := Links.RearrangedElements(vs), Links.Pick(vs, Links.Texts);
      PickedTexts(vs);
      if ElementsFirst(v) {
        forall x | x in vs && x.VElem? ensures Links.Rearranged(x) == x {
          RearrangedSame(x);
        }
        assert Firsts(vs);
        FirstsSplit(vs);
      } else if a + b == vs {
        SplitFirsts(vs, a, b);
        forall x | x in vs ensures ElementsFirst(x) {
          if x.VElem? {
            FixedElement(vs, a, b, x);
            RearrangedSame(x);
          }
        }
      }
    }
  }

  lemma {:induction false} PickedTexts(vs: seq<VNode>)
    ensures forall x | x in Links.Pick(vs, Links.Texts) :: x.VText?
    ensures forall x | x in Links.RearrangedElements(vs) :: x.VElem?
    decreases vs
  {
    if vs != [] {
      PickedTexts(vs[1..]);
    }
  }

  ghost predicate Firsts(vs: seq<VNode>) {
    forall i, j | 0 <= i < j < |vs| && vs[i].VText? :: vs[j].VText?
  }

  lemma RestFirsts(vs: seq<VNode>)
    requires Firsts(vs) && vs != []
    ensures Firsts(vs[1..]) && (vs[0].VText? && |vs| > 1 ==> vs[1..][0].VText?)
  {
  }

  /** Elements first: nothing moves. */
  lemma {:induction false} FirstsSplit(vs: seq<VNode>)
    requires Firsts(vs)
    requires forall x | x in vs && x.VElem? :: Links.Rearranged(x) == x
    ensures Links.RearrangedElements(vs) + Links.Pick(vs, Links.Texts) == vs
    ensures vs != [] && vs[0].VText? ==> Links.RearrangedElements(vs) == []
    decreases vs
  {
    if vs != [] {
      var rest := vs[1..];
      var a, b := Links.RearrangedElements(rest), Links.Pick(rest, Links.Texts);
      HeadParts(vs);
      assert vs[0] in vs && vs == [vs[0]] + rest && forall x | x in rest :: x in vs;
      hide Links.Rearranged, Links.RearrangedElements, Links.Pick;
      RestFirsts(vs);
      hide Firsts;
      FirstsSplit(rest);
      assert rest == [] ==> a == [] && b == [] by { NoParts(); }
      if vs[0].VText? {
        JoinText(a, b, vs[0]);
      } else {
        JoinElement(a, b, vs[0]);
      }
    }
  }

  lemma JoinText(a: seq<VNode>, b: seq<VNode>, x: VNode)
    ensures a == [] ==> a + ([x] + b) == [x] + (a + b)
  {
  }

  lemma JoinElement(a: seq<VNode>, b: seq<VNode>, x: VNode)
    ensures ([x] + a) + b == [x] + (a + b)
  {
  }

  lemma NoParts()
    ensures Links.RearrangedElements([]) == [] && Links.Pick([], Links.Texts) == []
  {
  }

  lemma {:induction false} HeadParts(vs: seq<VNode>)
    requires vs != []
    ensures var a, b := Links.RearrangedElements(vs[1..]), Links.Pick(vs[1..], Links.Texts);
            if vs[0].VText? then Links.RearrangedElements(vs) == a && Links.Pick(vs, Links.Texts) == [vs[0]] + b
            else Links.RearrangedElements(vs) == [Links.Rearranged(vs[0])] + a && Links.Pick(vs, Links.Texts) == b
  {
    hide Links.Rearranged;
    assert [] + Links.RearrangedElements(vs[1..]) == Links.RearrangedElements(vs[1..]);
    assert [] + Links.Pick(vs[1..], Links.Texts) == Links.Pick(vs[1..], Links.Texts);
  }

  lemma {:induction false} SplitFirsts(vs: seq<VNode>, a: seq<VNode>, b: seq<VNode>)
    requires a + b == vs && (forall x | x in a :: x.VElem?) && forall x | x in b :: x.VText?
    ensures forall i, j | 0 <= i < j < |vs| && vs[i].VText? :: vs[j].VText?
  {
    forall i | 0 <= i < |vs| ensures vs[i].VText? <==> i >= |a| {
      if i < |a| {
        assert vs[i] == a[i] && a[i] in a;
      } else {
        assert vs[i] == b[i - |a|] && b[i - |a|] in b;
      }
    }
  }

  /** Where the order is kept, every element is its own rearrangement. */
  lemma {:induction false} FixedElement(vs: seq<VNode>, a: seq<VNode>, b: seq<VNode>, x: VNode)
    requires a == Links.RearrangedElements(vs) && b == Links.Pick(vs, Links.Texts) && a + b == vs && x in vs && x.VElem?
    ensures Links.Rearranged(x) == x
    decreases vs
  {
    HeadParts(vs);
    var rest := vs[1..];
    var a', b' := Links.RearrangedElements(rest), Links.Pick(rest, Links.Texts);
    assert vs == [vs[0]] + rest;
    if vs[0].VElem? {
      hide Links.Rearranged, Links.RearrangedElements, Links.Pick;
      JoinElement(a', b', Links.Rearranged(vs[0]));
      SameCons(Links.Rearranged(vs[0]), a' + b', vs[0], rest);
      if x != vs[0] {
        FixedElement(rest, a', b', x);
      }
    } else {
      NoElements(vs, a, b);
    }
  }

  lemma SameCons(x: VNode, s: seq<VNode>, y: VNode, t: seq<VNode>)
    requires [x] + s == [y] + t
    ensures x == y && s == t
  {
    assert ([x] + s)[0] == x && ([y] + t)[0] == y && ([x] + s)[1..] == s && ([y] + t)[1..] == t;
  }

  /** A list that begins with a text and keeps its order has no elements. */
  lemma {:induction false} NoElements(vs: seq<VNode>, a: seq<VNode>, b: seq<VNode>)
    requires a == Links.RearrangedElements(vs) && b == Links.Pick(vs, Links.Texts) && a + b == vs
    requires vs != [] && vs[0].VText?
    ensures forall x | x in vs :: x.VText?
  {
    PickedTexts(vs);
    FirstsSplitBack(vs, a, b);
  }

  lemma {:induction false} FirstsSplitBack(vs: seq<VNode>, a: seq<VNode>, b: seq<VNode>)
    requires a + b == vs && (forall x | x in a :: x.VElem?) && (forall x | x in b :: x.VText?) && vs != []
    ensures vs[0].VText? ==> forall x | x in vs :: x.VText?
  {
    assert a != [] ==> vs[0] == a[0] && a[0] in a && vs[0].VElem?;
    assert a == [] ==> vs == b;
  }

  lemma {:induction false} StyleFreeRearranged(v: VNode)
    requires Unstyled(v) == v
    ensures Unstyled(Links.Rearranged(v)) == Links.Rearranged(v)
    decreases v
  {
    if v.VElem? {
      var vs := v.children;
      assert UnstyledAll(vs) == vs;
      var w := Links.Rearranged(v);
      forall x | x in w.children ensures Unstyled(x) == x {
        if x in Links.Pick(vs, Links.Texts) {
          Links.PickMember(vs, Links.Texts, x);
        } else {
          var y := Links.RearrangedBack(vs, x);
          var n := IndexOf(vs, y);
          assert Unstyled(vs[n]) == vs[n];
          StyleFreeRearranged(y);
        }
      }
      EachUnstyled(w.children);
    }
  }

  lemma {:induction false} EachUnstyled(vs: seq<VNode>)
    requires forall x | x in vs :: Unstyled(x) == x
    ensures UnstyledAll(vs) == vs
    decreases vs
  {
    if vs != [] {
      EachUnstyled(vs[1..]);
    }
  }

  lemma {:induction false} UnstyledTwice(v: VNode)
    ensures Unstyled(Unstyled(v)) == Unstyled(v)
    decreases v
  {
    if v.VElem? {
      UnstyledTwiceAll(v.children);
    }
  }

  lemma {:induction false} UnstyledTwiceAll(vs: seq<VNode>)
    ensures UnstyledAll(UnstyledAll(vs)) == UnstyledAll(vs)
    decreases vs
  {
    if vs != [] {
      UnstyledTwice(vs[0]);
      UnstyledTwiceAll(vs[1..]);
      assert UnstyledAll(vs)[1..] == UnstyledAll(vs[1..]);
    }
  }

  lemma {:induction false} ResultSame(v: VNode, behind: bool)
    ensures Result(Unstyled(v), behind) == v <==> Unstyled(v) == v && (behind ==> ElementsFirst(v))
  {
    UnstyledTwice(v);
    StyleFreeRearranged(Unstyled(v));
    RearrangedSame(v);
    hide Unstyled, Links.Rearranged, ElementsFirst;
  }

  // ------------------------------------------------------------------ one flush

  /** What the client shows is right. */
  ghost predicate Right(cur: Option<VNode>, bs: seq<Option<VNode>>)
    requires bs != []
  {
    Last(bs).Some? ==>
      && ForAgreement.StyleFree(Last(bs).value)
      && (Last(bs) == cur && Times(bs, cur) % 2 == 0 ==> ElementsFirst(Last(bs).value))
  }

  lemma {:induction false} OnlyShown(c: Client, id: uint32, v: Option<VNode>, w: Option<VNode>)
    requires ForUpdate.InSync(c, id, Listed(v)) && (v.Some? <==> w.Some?) && (v.Some? ==> v.value.id == w.value.id)
    ensures ForUpdate.InSync(c, id, Listed(w)) <==> v == w
  {
    if v.Some? && ForUpdate.InSync(c, id, Listed(w)) {
      assert v.value in Listed(v) && w.value in Listed(w);
      ForChanges.ShownShows(c, v.value, Some(c.nodes[id]));
      ForChanges.ShownShows(c, w.value, Some(c.nodes[id]));
      Seen.ShowsUnique(c, v.value, w.value);
    }
  }

  /**
   After a flush the client agrees with the container's current branch if and only
   if that branch has no styles and, should it be the branch shown before that has
   come back an even number of times, no text before an element.
   */
  lemma {:induction false} BranchAgreesIff(c: Client, id: uint32, cur: Option<VNode>, shown: Option<VNode>,
                                           pool: seq<VNode>, bs: seq<Option<VNode>>, msgs: seq<Msg>)
    requires Ready(c, id, cur, shown, pool) && bs != [] && InPool(bs, pool) && FlipStream(msgs, id, cur, bs)
    ensures ForUpdate.InSync(Process(c, msgs), id, Listed(Last(bs))) <==> Right(cur, bs)
  {
    var v, last := ShownAfter(cur, bs), Last(bs);
    ShownAfterNodes(cur, bs);
    if last.Some? {
      ResultSame(last.value, last == cur && Times(bs, cur) % 2 == 0);
    }
    FlipsOnPage(c, id, cur, shown, pool, bs, msgs);
    hide Ready, InPool, FlipStream, Process, ForUpdate.InSync, Unstyled, Links.Rearranged, ElementsFirst;
    OnlyShown(Process(c, msgs), id, v, last);
  }

  // --------------------------------------------------------------- many flushes

  /** One flush: what the container went through, and what was written for it. */
  datatype Round = Round(branches: seq<Option<VNode>>, msgs: seq<Msg>)

  /** Branches of the pool, in flips that are tidy. */
  ghost predicate Rounds(id: uint32, cur: Option<VNode>, pool: seq<VNode>, rounds: seq<Round>)
    decreases rounds
  {
    rounds == [] ||
    (var r := rounds[0];
     && r.branches != [] && InPool(r.branches, pool) && FlipStream(r.msgs, id, cur, r.branches) && Tidy(cur, r.branches)
     && Rounds(id, Last(r.branches), pool, rounds[1..]))
  }

  function AfterRounds(c: Client, rounds: seq<Round>): Client
    decreases rounds
  {
    if rounds == [] then c else AfterRounds(Process(c, rounds[0].msgs), rounds[1..])
  }

  function CurrentAfter(cur: Option<VNode>, rounds: seq<Round>): Option<VNode>
    decreases rounds
  {
    if rounds == [] || rounds[0].branches == [] then cur else CurrentAfter(Last(rounds[0].branches), rounds[1..])
  }

  /** What the last flush makes of it. */
  function ShownAfterRounds(cur: Option<VNode>, shown: Option<VNode>, rounds: seq<Round>): Option<VNode>
    decreases rounds
  {
    if rounds == [] || rounds[0].branches == [] then shown
    else ShownAfterRounds(Last(rounds[0].branches), ShownAfter(cur, rounds[0].branches), rounds[1..])
  }

  /** Over every run of tidy flushes the client's container holds exactly what the last one makes of it. */
  lemma {:induction false} RoundsShown(c: Client, id: uint32, cur: Option<VNode>, shown: Option<VNode>,
                                       pool: seq<VNode>, rounds: seq<Round>)
    requires Ready(c, id, cur, shown, pool) && Rounds(id, cur, pool, rounds)
    ensures Ready(AfterRounds(c, rounds), id, CurrentAfter(cur, rounds), ShownAfterRounds(cur, shown, rounds), pool)
    decreases rounds
  {
    hide Ready, InPool, FlipStream, Process, Tidy, ShownAfter;
    if rounds != [] {
      var r := rounds[0];
      FlipsOnPage(c, id, cur, shown, pool, r.branches, r.msgs);
      RoundsShown(Process(c, r.msgs), id, Last(r.branches), ShownAfter(cur, r.branches), pool, rounds[1..]);
    }
  }

  /**
   In particular: whatever tidy flushes went before, after one more, tidy or not,
   the client agrees with the current branch under the condition on that flush
   alone.
   */
  lemma {:induction false} RunAgreesIff(c: Client, id: uint32, cur: Option<VNode>, shown: Option<VNode>,
                                        pool: seq<VNode>, rounds: seq<Round>, bs: seq<Option<VNode>>, msgs: seq<Msg>)
    requires Ready(c, id, cur, shown, pool) && Rounds(id, cur, pool, rounds)
    requires bs != [] && InPool(bs, pool) && FlipStream(msgs, id, CurrentAfter(cur, rounds), bs)
    ensures ForUpdate.InSync(Process(AfterRounds(c, rounds), msgs), id, Listed(Last(bs)))
            <==> Right(CurrentAfter(cur, rounds), bs)
  {
    hide Ready, InPool, FlipStream, Process, Right, ForUpdate.InSync;
    RoundsShown(c, id, cur, shown, pool, rounds);
    BranchAgreesIff(AfterRounds(c, rounds), id, CurrentAfter(cur, rounds), ShownAfterRounds(cur, shown, rounds), pool,
                    bs, msgs);
  }

  /** The branch shown before is not shown and hidden again, or it has no elements below its root. */
  predicate Calm(cur: Option<VNode>, bs: seq<Option<VNode>>)
    requires bs != []
  {
    cur.Some? ==> cur !in bs[..|bs| - 1] || Inner(cur.value) == {}
  }

  ghost predicate CalmRounds(id: uint32, cur: Option<VNode>, pool: seq<VNode>, rounds: seq<Round>)
    decreases rounds
  {
    rounds == [] ||
    (var r := rounds[0];
     && r.branches != [] && InPool(r.branches, pool) && FlipStream(r.msgs, id, cur, r.branches) && Calm(cur, r.branches)
     && CalmRounds(id, Last(r.branches), pool, rounds[1..]))
  }

  lemma {:induction false} TimesFront(bs: seq<Option<VNode>>, b: Option<VNode>)
    requires bs != [] && b !in bs[..|bs| - 1]
    ensures Times(bs, b) == if Last(bs) == b then 1 else 0
    decreases bs
  {
    if |bs| == 1 {
      assert bs[1..] == [];
    } else {
      var front := bs[..|bs| - 1];
      assert front[0] == bs[0] && bs[0] in front && Last(bs[1..]) == Last(bs);
      assert bs[1..][..|bs[1..]| - 1] == front[1..];
      TimesFront(bs[1..], b);
    }
  }

  lemma {:induction false} TextsOnly(v: VNode)
    requires Inner(v) == {}
    ensures ElementsFirst(v)
  {
    forall x | x in VKids(v) ensures x.VText? {
      Links.ElemsInside(VKids(v), x);
      assert x.VElem? ==> x.id in Elems(x);
    }
  }

  lemma {:induction false} CalmIsRight(cur: Option<VNode>, bs: seq<Option<VNode>>)
    requires bs != [] && Calm(cur, bs) && (Last(bs).Some? ==> ForAgreement.StyleFree(Last(bs).value))
    ensures Tidy(cur, bs) && Right(cur, bs) && ShownAfter(cur, bs) == Last(bs)
  {
    if cur.Some? {
      if Inner(cur.value) == {} {
        TextsOnly(cur.value);
      } else {
        TimesFront(bs, cur);
      }
    }
    if Last(bs).Some? {
      ResultSame(Last(bs).value, Last(bs) == cur && Times(bs, cur) % 2 == 0);
    }
  }

  /**
   Style-free branches that come and go in calm flushes, in any number: after each
   of them the client agrees with the current branch.
   */
  lemma {:induction false} RoundsInSync(c: Client, id: uint32, cur: Option<VNode>, pool: seq<VNode>, rounds: seq<Round>)
    requires Ready(c, id, cur, cur, pool) && CalmRounds(id, cur, pool, rounds)
    requires forall v | v in pool :: ForAgreement.StyleFree(v)
    ensures ForUpdate.InSync(AfterRounds(c, rounds), id, Listed(CurrentAfter(cur, rounds)))
    ensures Ready(AfterRounds(c, rounds), id, CurrentAfter(cur, rounds), CurrentAfter(cur, rounds), pool)
    decreases rounds
  {
    hide ForUpdate.InSync, FlipStream, Process, Tidy, ShownAfter, Calm, ForAgreement.StyleFree;
    if rounds != [] {
      var r := rounds[0];
      assert Last(r.branches) in r.branches;
      CalmIsRight(cur, r.branches);
      FlipsOnPage(c, id, cur, cur, pool, r.branches, r.msgs);
      hide Ready;
      RoundsInSync(Process(c, r.msgs), id, Last(r.branches), pool, rounds[1..]);
    }
  }

  // -------------------------------------------------------------- where runs start

  /** `w` is `v` or stands somewhere below it. */
  ghost predicate Inside(v: VNode, w: VNode)
    decreases v
  {
    v == w || (v.VElem? && exists x :: x in v.children && Inside(x, w))
  }

  lemma {:induction false} InsideShown(c: Client, v: VNode, w: VNode)
    requires Shows(c.heap, c.nodes, v) && Inside(v, w)
    ensures Shows(c.heap, c.nodes, w)
    decreases v
  {
    if v != w {
      var x :| x in v.children && Inside(x, w);
      ForSteps.KidShown(c.heap, c.nodes, v.children, Some(c.nodes[v.id]), x);
      InsideShown(c, x, w);
    }
  }

  /** A page just mounted is one from which a run may start, wherever the container stands in it. */
  lemma {:induction false} MountedReady(c: Client, page: VNode, w: VNode, cur: Option<VNode>, pool: seq<VNode>)
    requires Valid(c) && c.depth == 0 && Shows(c.heap, c.nodes, page) && c.nodes.Keys == Ids(page) && Proper(page)
    requires Inside(page, w) && w.VElem? && w.children == Listed(cur)
    requires ProperAll(pool) && w.id !in IdsOf(pool) && (cur.Some? ==> cur.value in pool)
    requires forall b | b in pool && Some(b) != cur :: Solid(b) !! Ids(page)
    ensures Ready(c, w.id, cur, cur, pool)
  {
    InsideShown(c, page, w);
    ProperNonZero(page);
    ChildrenInSync(c, w, cur);
    hide ForUpdate.InSync, Shows, Valid, Proper, ProperAll, Ids, IdsOf, Inside, Solid;
  }

  lemma {:induction false} ChildrenInSync(c: Client, w: VNode, cur: Option<VNode>)
    requires Valid(c) && c.depth == 0 && Shows(c.heap, c.nodes, w) && w.VElem? && w.children == Listed(cur)
    ensures ForUpdate.InSync(c, w.id, Listed(cur))
  {
    hide Valid;
    forall v | v in Listed(cur) ensures ShownAt(c, v, Some(c.nodes[w.id])) {
      ForSteps.KidShown(c.heap, c.nodes, w.children, Some(c.nodes[w.id]), v);
    }
  }
}
