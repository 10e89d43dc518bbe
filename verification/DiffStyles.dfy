module DiffStyles {
  // Diff and styles without conditions: the tree the client ends up with, which
  // may keep styles the server has dropped and lacks those of inserted subtrees,
  // and when it is the next tree after all.

  import opened Seqs
  import opened Ranges
  import opened Wire
  import opened Dom
  import opened Client
  import opened Trees
  import opened Emission
  import opened Dirty
  import opened Diffs
  import opened ForClient
  import opened DiffClient
  import opened DiffTree
  import opened Deferral
  import opened DeferralTheorem
  import opened DiffPage
  import Flips
  import Rounds
  import Seen

  /** Matched nodes share id, type and tag. */
  ghost predicate Matching(old_: VNode, next: VNode)
    decreases old_
  {
    && old_.id == next.id
    && match (old_, next)
       case (VText(_, _), VText(_, _)) => true
       case (VElem(_, tag, _, _, olds), VElem(_, tag', _, _, nexts)) => tag == tag' && MatchingAll(olds, nexts)
       case _ => false
  }

  ghost predicate MatchingAll(olds: seq<VNode>, nexts: seq<VNode>)
    decreases olds
  {
    olds == [] || nexts == [] || (Matching(olds[0], nexts[0]) && MatchingAll(olds[1..], nexts[1..]))
  }

  /** The next styles, and the old ones that were dropped. */
  function Kept(old_: map<Str, Str>, next: map<Str, Str>): map<Str, Str> {
    old_ + next
  }

  /** What the client has when Diff has been applied: dropped styles stay, inserted subtrees have none. */
  function Leftover(old_: VNode, next: VNode): (r: VNode)
    ensures r.id == next.id && Ids(r) == Ids(next)
    decreases old_
  {
    match (old_, next)
    case (VElem(_, _, _, styles, olds), VElem(id, tag, attrs, styles', nexts)) =>
      VElem(id, tag, attrs, Kept(styles, styles'), LeftoverAll(olds, nexts))
    case _ => next
  }

  function LeftoverAll(olds: seq<VNode>, nexts: seq<VNode>): (r: seq<VNode>)
    ensures |r| == |nexts| && IdsOf(r) == IdsOf(nexts)
    decreases olds
  {
    if nexts == [] then []
    else if olds == [] then UnstyledAll(nexts)
    else [Leftover(olds[0], nexts[0])] + LeftoverAll(olds[1..], nexts[1..])
  }

  // --------------------------------------------------- it is what Diff writes for

  lemma {:induction false} LeftoverCompatible(old_: VNode, next: VNode)
    requires Matching(old_, next)
    ensures Compatible(old_, Leftover(old_, next)) && NewIn(old_, Leftover(old_, next)) == NewIn(old_, next)
    decreases old_
  {
    if old_.VElem? {
      LeftoverCompatibleAll(old_.children, next.children);
    }
  }

  lemma {:induction false} LeftoverCompatibleAll(olds: seq<VNode>, nexts: seq<VNode>)
    requires MatchingAll(olds, nexts)
    ensures CompatibleAll(olds, LeftoverAll(olds, nexts))
            && NewAmong(olds, LeftoverAll(olds, nexts)) == NewAmong(olds, nexts)
    decreases olds
  {
    if nexts != [] {
      if olds == [] {
        forall v | v in UnstyledAll(nexts) ensures Unstyled(v) == v {
          var i := IndexOf(UnstyledAll(nexts), v);
          Rounds.UnstyledTwice(nexts[i]);
        }
      } else {
        LeftoverCompatible(olds[0], nexts[0]);
        LeftoverCompatibleAll(olds[1..], nexts[1..]);
        var rest := LeftoverAll(olds[1..], nexts[1..]);
        assert ([Leftover(olds[0], nexts[0])] + rest)[1..] == rest;
      }
    }
  }

  lemma {:induction false} LeftoverProper(old_: VNode, next: VNode)
    requires Proper(next)
    ensures Proper(Leftover(old_, next))
    decreases old_
  {
    if old_.VElem? && next.VElem? {
      LeftoverProperAll(old_.children, next.children);
    }
  }

  lemma {:induction false} LeftoverProperAll(olds: seq<VNode>, nexts: seq<VNode>)
    requires ProperAll(nexts)
    ensures ProperAll(LeftoverAll(olds, nexts))
    decreases olds
  {
    if nexts != [] {
      if olds == [] {
        UnstyledProperAll(nexts);
      } else {
        LeftoverProper(olds[0], nexts[0]);
        LeftoverProperAll(olds[1..], nexts[1..]);
        var rest := LeftoverAll(olds[1..], nexts[1..]);
        assert ([Leftover(olds[0], nexts[0])] + rest)[1..] == rest;
      }
    }
  }

  lemma ChangedKept(old_: map<Str, Str>, next: map<Str, Str>)
    ensures Changed(old_, Kept(old_, next)) == Changed(old_, next)
  {
  }

  /** Diff writes the same for both. */
  lemma {:induction false} LeftoverDiff(msgs: seq<Msg>, old_: VNode, next: VNode)
    requires IsDiff(msgs, old_, next)
    ensures IsDiff(msgs, old_, Leftover(old_, next))
    decreases old_
  {
    if old_.VElem? {
      var k :| 0 <= k <= |msgs| && IsOwnDiff(msgs[..k], old_, next)
        && IsDiffAll(msgs[k..], old_.children, next.children, next.id);
      LeftoverDiffAll(msgs[k..], old_.children, next.children, next.id);
      hide IsDiffAll;
      assert IsOwnDiff(msgs[..k], old_, Leftover(old_, next)) by {
        ChangedKept(old_.styles, next.styles);
        hide IsSets, IsRemoves, IsStyles, Changed, Gone, Kept;
      }
    }
  }

  lemma {:induction false} LeftoverDiffAll(msgs: seq<Msg>, olds: seq<VNode>, nexts: seq<VNode>, parent: uint32)
    requires IsDiffAll(msgs, olds, nexts, parent)
    ensures IsDiffAll(msgs, olds, LeftoverAll(olds, nexts), parent)
    decreases olds, |nexts|
  {
    var ls := LeftoverAll(olds, nexts);
    if nexts == [] {
    } else if olds == [] {
      var k :| 0 <= k <= |msgs| && IsInsertTree(msgs[..k], nexts[0], parent)
        && IsDiffAll(msgs[k..], [], nexts[1..], parent);
      Flips.InsertUnstyled(msgs[..k], nexts[0], parent);
      LeftoverDiffAll(msgs[k..], [], nexts[1..], parent);
      hide IsInsertTree, IsDiffAll;
      assert ls[0] == Unstyled(nexts[0]) && ls[1..] == LeftoverAll([], nexts[1..]) by { NoneLeft(nexts); }
      InsertedFirst(msgs, k, ls, parent);
    } else {
      var k :| 0 <= k <= |msgs| && IsDiff(msgs[..k], olds[0], nexts[0])
        && IsDiffAll(msgs[k..], olds[1..], nexts[1..], parent);
      LeftoverDiff(msgs[..k], olds[0], nexts[0]);
      LeftoverDiffAll(msgs[k..], olds[1..], nexts[1..], parent);
      hide IsDiff;
      var rest := LeftoverAll(olds[1..], nexts[1..]);
      assert ls[1..] == rest && ls[0] == Leftover(olds[0], nexts[0]);
    }
  }

  lemma NoneLeft(nexts: seq<VNode>)
    requires nexts != []
    ensures var ls := LeftoverAll([], nexts); ls[0] == Unstyled(nexts[0]) && ls[1..] == LeftoverAll([], nexts[1..])
  {
    assert UnstyledAll(nexts)[1..] == UnstyledAll(nexts[1..]);
  }

  lemma InsertedFirst(msgs: seq<Msg>, k: nat, ls: seq<VNode>, parent: uint32)
    requires ls != [] && k <= |msgs| && IsInsertTree(msgs[..k], ls[0], parent)
             && IsDiffAll(msgs[k..], [], ls[1..], parent)
    ensures IsDiffAll(msgs, [], ls, parent)
  {
    hide IsInsertTree;
  }

  /** Whatever becomes of the styles: matched trees end in the leftover tree. */
  lemma {:induction false} LeftoverDone(c: Client, w: VNode, old_: VNode, next: VNode, parent: Option<Ref>,
                                        msgs: seq<Msg>)
    returns (w': VNode)
    requires AtOnce(c) && Holds(c, w, old_, parent) && Proper(next) && Matching(old_, next)
    requires NewIn(old_, next) !! c.nodes.Keys && IsDiff(msgs, old_, next)
    ensures var c' := ApplyAll(c, msgs);
            && AtOnce(c') && Holds(c', w', Leftover(old_, next), parent) && w'.id == old_.id
            && Within(c, c', Ids(old_) + Ids(next)) && c'.nodes.Keys <= c.nodes.Keys + NewIn(old_, next)
            && old_.id in c'.nodes && c'.nodes[old_.id] == RefOf(c.nodes, old_.id)
  {
    LeftoverCompatible(old_, next);
    LeftoverProper(old_, next);
    LeftoverDiff(msgs, old_, next);
    hide AtOnce, Holds, Proper, Matching, IsDiff, Leftover, NewIn, ApplyAll, Within, Compatible;
    w' := TreeDone(c, w, old_, Leftover(old_, next), parent, msgs);
  }

  // ------------------------------------------------------------- the exact condition

  /** No style that is not empty. */
  ghost predicate Plain(v: VNode)
    decreases v
  {
    v.VElem? ==> (forall k | k in v.styles :: v.styles[k] == []) && PlainAll(v.children)
  }

  ghost predicate PlainAll(vs: seq<VNode>)
    decreases vs
  {
    vs == [] || (Plain(vs[0]) && PlainAll(vs[1..]))
  }

  /** Every matched element keeps its styles, and what is inserted has none. */
  ghost predicate KeepsAll(old_: VNode, next: VNode)
    decreases old_
  {
    match (old_, next)
    case (VElem(_, _, _, styles, olds), VElem(_, _, _, styles', nexts)) =>
      KeepsStyles(styles, styles') && KeepsAmong(olds, nexts)
    case _ => true
  }

  ghost predicate KeepsAmong(olds: seq<VNode>, nexts: seq<VNode>)
    decreases olds
  {
    if nexts == [] then true
    else if olds == [] then PlainAll(nexts)
    else KeepsAll(olds[0], nexts[0]) && KeepsAmong(olds[1..], nexts[1..])
  }

  lemma {:induction false} LikeBack(w: VNode, v: VNode)
    requires Like(w, v)
    ensures Like(v, w)
    decreases w
  {
    if w.VElem? {
      LikeBackAll(w.children, v.children);
    }
  }

  lemma {:induction false} LikeBackAll(ws: seq<VNode>, vs: seq<VNode>)
    requires LikeAll(ws, vs)
    ensures LikeAll(vs, ws)
    decreases ws
  {
    if ws != [] {
      LikeBack(ws[0], vs[0]);
      LikeBackAll(ws[1..], vs[1..]);
    }
  }

  lemma {:induction false} LikeThen(u: VNode, v: VNode, w: VNode)
    requires Like(u, v) && Like(v, w)
    ensures Like(u, w)
    decreases u
  {
    if u.VElem? {
      SameThen(u.attrs, v.attrs, w.attrs);
      SameThen(u.styles, v.styles, w.styles);
      LikeThenAll(u.children, v.children, w.children);
    }
  }

  lemma SameThen(a: map<Str, Str>, b: map<Str, Str>, c: map<Str, Str>)
    requires SameEntries(a, b) && SameEntries(b, c)
    ensures SameEntries(a, c)
  {
    forall k ensures Get(a, k) == Get(c, k) {
      assert Get(a, k) == Get(b, k);
    }
  }

  lemma {:induction false} LikeThenAll(us: seq<VNode>, vs: seq<VNode>, ws: seq<VNode>)
    requires LikeAll(us, vs) && LikeAll(vs, ws)
    ensures LikeAll(us, ws)
    decreases us
  {
    if us != [] {
      LikeThen(us[0], vs[0], ws[0]);
      LikeThenAll(us[1..], vs[1..], ws[1..]);
    }
  }

  lemma {:induction false} UnstyledLike(v: VNode)
    ensures Like(Unstyled(v), v) <==> Plain(v)
    decreases v
  {
    if v.VElem? {
      UnstyledLikeAll(v.children);
      NoStyles(v.styles);
      assert SameEntries(v.attrs, v.attrs);
      hide SameEntries;
    }
  }

  lemma NoStyles(m: map<Str, Str>)
    ensures SameEntries(map[], m) <==> forall k | k in m :: m[k] == []
  {
    if SameEntries(map[], m) {
      forall k | k in m ensures m[k] == [] {
        assert Get(map[], k) == Get(m, k);
      }
    }
  }

  lemma {:induction false} UnstyledLikeAll(vs: seq<VNode>)
    ensures LikeAll(UnstyledAll(vs), vs) <==> PlainAll(vs)
    decreases vs
  {
    if vs != [] {
      UnstyledLike(vs[0]);
      UnstyledLikeAll(vs[1..]);
      assert UnstyledAll(vs)[1..] == UnstyledAll(vs[1..]);
    }
  }

  lemma KeptSame(old_: map<Str, Str>, next: map<Str, Str>)
    ensures SameEntries(Kept(old_, next), next) <==> KeepsStyles(old_, next)
  {
    if SameEntries(Kept(old_, next), next) {
      forall k | k in old_ && k !in next ensures old_[k] == [] {
        assert Get(Kept(old_, next), k) == Get(next, k);
      }
    }
  }

  lemma {:induction false} LeftoverLike(old_: VNode, next: VNode)
    requires Matching(old_, next)
    ensures Like(Leftover(old_, next), next) <==> KeepsAll(old_, next)
    decreases old_
  {
    if old_.VElem? {
      KeptSame(old_.styles, next.styles);
      assert SameEntries(next.attrs, next.attrs);
      LeftoverLikeAll(old_.children, next.children);
      hide SameEntries, KeepsStyles, Kept;
    }
  }

  lemma {:induction false} LeftoverLikeAll(olds: seq<VNode>, nexts: seq<VNode>)
    requires MatchingAll(olds, nexts)
    ensures LikeAll(LeftoverAll(olds, nexts), nexts) <==> KeepsAmong(olds, nexts)
    decreases olds
  {
    if nexts != [] {
      if olds == [] {
        UnstyledLikeAll(nexts);
      } else {
        LeftoverLike(olds[0], nexts[0]);
        LeftoverLikeAll(olds[1..], nexts[1..]);
        var rest := LeftoverAll(olds[1..], nexts[1..]);
        assert ([Leftover(olds[0], nexts[0])] + rest)[1..] == rest;
      }
    }
  }

  /**
   Diff of matched trees makes the client hold the next tree if and only if no
   matched element drops a style and no inserted subtree has one, empty values
   apart.
   */
  lemma {:induction false} DiffHoldsIff(c: Client, w: VNode, old_: VNode, next: VNode, parent: Option<Ref>,
                                        msgs: seq<Msg>)
    requires AtOnce(c) && Holds(c, w, old_, parent) && Proper(next) && Matching(old_, next)
    requires NewIn(old_, next) !! c.nodes.Keys && IsDiff(msgs, old_, next)
    ensures (exists w' :: Holds(ApplyAll(c, msgs), w', next, parent)) <==> KeepsAll(old_, next)
  {
    var c' := ApplyAll(c, msgs);
    var l := Leftover(old_, next);
    var w1 := LeftoverDone(c, w, old_, next, parent, msgs);
    LeftoverLike(old_, next);
    assert Like(w1, l) && ShownAt(c', w1, parent) && Valid(c');
    hide IsDiff, ApplyAll, Leftover, NewIn, Matching, KeepsAll, Proper, Like, ShownAt, Valid, AtOnce;
    LikeBack(w1, l);
    if Like(l, next) {
      LikeThen(w1, l, next);
      assert Holds(c', w1, next, parent);
    }
    forall w' | Holds(c', w', next, parent) ensures Like(l, next) {
      OneTree(c', w1, l, w', next, parent);
    }
  }

  lemma {:induction false} OneTree(c: Client, w: VNode, l: VNode, w': VNode, next: VNode, parent: Option<Ref>)
    requires Valid(c) && Holds(c, w, l, parent) && Holds(c, w', next, parent) && l.id == next.id
    ensures Like(l, next)
  {
    HoldsRoot(c, w, l, parent);
    HoldsRoot(c, w', next, parent);
    Seen.ShowsUnique(c, w, w');
    LikeBack(w, l);
    LikeThen(l, w, next);
  }

  lemma {:induction false} LeftoverSorted(old_: VNode, next: VNode, texts: set<uint32>)
    requires Sorted(next, texts)
    ensures Sorted(Leftover(old_, next), texts)
    decreases old_
  {
    if old_.VElem? && next.VElem? {
      LeftoverSortedAll(old_.children, next.children, texts);
    }
  }

  lemma {:induction false} LeftoverSortedAll(olds: seq<VNode>, nexts: seq<VNode>, texts: set<uint32>)
    requires SortedAll(nexts, texts)
    ensures SortedAll(LeftoverAll(olds, nexts), texts)
    decreases olds
  {
    if nexts != [] {
      if olds == [] {
        UnstyledSortedAll(nexts, texts);
      } else {
        LeftoverSorted(olds[0], nexts[0], texts);
        LeftoverSortedAll(olds[1..], nexts[1..], texts);
        var rest := LeftoverAll(olds[1..], nexts[1..]);
        assert ([Leftover(olds[0], nexts[0])] + rest)[1..] == rest;
      }
    }
  }

  lemma {:induction false} UnstyledSorted(v: VNode, texts: set<uint32>)
    requires Sorted(v, texts)
    ensures Sorted(Unstyled(v), texts)
    decreases v
  {
    if v.VElem? {
      UnstyledSortedAll(v.children, texts);
    }
  }

  lemma {:induction false} UnstyledSortedAll(vs: seq<VNode>, texts: set<uint32>)
    requires SortedAll(vs, texts)
    ensures SortedAll(UnstyledAll(vs), texts)
    decreases vs
  {
    if vs != [] {
      UnstyledSorted(vs[0], texts);
      UnstyledSortedAll(vs[1..], texts);
      assert UnstyledAll(vs)[1..] == UnstyledAll(vs[1..]);
    }
  }

  /** The same for the client that puts attachments off: its page looks like one that holds the leftover tree. */
  lemma {:induction false} LeftoverOnPage(c: Client, w: VNode, old_: VNode, next: VNode, msgs: seq<Msg>,
                                          texts: set<uint32>, used: set<uint32>, depth: nat)
    returns (shown: Client, w': VNode)
    requires Settled(c, texts, used) && PageHolds(c, w, old_)
    requires Proper(next) && Matching(old_, next) && Sorted(next, texts) && NewIn(old_, next) !! used
    requires IsDiff(msgs, old_, next)
    ensures PageHolds(shown, w', Leftover(old_, next))
    ensures View(Process(c, msgs).heap, ROOT, depth) == View(shown.heap, ROOT, depth)
    ensures Like(w', next) <==> KeepsAll(old_, next)
  {
    LeftoverCompatible(old_, next);
    LeftoverProper(old_, next);
    LeftoverDiff(msgs, old_, next);
    LeftoverSorted(old_, next, texts);
    LeftoverLike(old_, next);
    hide Settled, PageHolds, Proper, Matching, Sorted, IsDiff, Leftover, NewIn, View, Like, KeepsAll, Compatible,
         Process;
    shown, w' := DiffOnPage(c, w, old_, Leftover(old_, next), msgs, texts, used, depth);
    PageLike(shown, w', Leftover(old_, next), next);
  }

  lemma {:induction false} PageLike(c: Client, w: VNode, l: VNode, next: VNode)
    requires PageHolds(c, w, l)
    ensures Like(w, next) <==> Like(l, next)
  {
    assert Like(w, l);
    LikeBack(w, l);
    if Like(w, next) {
      LikeThen(l, w, next);
    }
    if Like(l, next) {
      LikeThen(w, l, next);
    }
  }

  /** The smallest case: one element that loses one style. */
  lemma {:induction false} OneStyleDropped(c: Client, id: uint32, tag: Str, key: Str, value: Str, parent: Option<Ref>,
                                           msgs: seq<Msg>)
    requires value != [] && tag != TEXT_TAG && id != 0
    requires var old_ := VElem(id, tag, map[], map[key := value], []);
             && AtOnce(c) && Holds(c, old_, old_, parent)
             && IsDiff(msgs, old_, VElem(id, tag, map[], map[], []))
    ensures forall w' :: !Holds(ApplyAll(c, msgs), w', VElem(id, tag, map[], map[], []), parent)
  {
    var old_, next := VElem(id, tag, map[], map[key := value], []), VElem(id, tag, map[], map[], []);
    assert key in old_.styles && key !in next.styles;
    assert !KeepsAll(old_, next);
    DiffHoldsIff(c, old_, old_, next, parent, msgs);
  }
}
