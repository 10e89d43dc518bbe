module DiffClient {
  // What the client makes of a Diff: the next version of the tree, with empty attributes counting as absent.

  import opened Seqs
  import opened Ranges
  import opened Wire
  import opened Dom
  import opened Client
  import opened Trees
  import opened Emission
  import opened Dirty
  import opened DirtyRuns
  import opened Diffs
  import opened ForClient
  import ForOnPage
  import Solids

  // -------------------------------------------------------------- compatible trees

  /** No style is dropped, except one that is empty. */
  ghost predicate KeepsStyles(old_: map<Str, Str>, next: map<Str, Str>) {
    forall k | k in old_ && k !in next :: old_[k] == []
  }

  /** Matched nodes share id, type and tag, keep their styles, and inserted subtrees have none. */
  ghost predicate Compatible(old_: VNode, next: VNode)
    decreases old_
  {
    && old_.id == next.id
    && match (old_, next)
       case (VText(_, _), VText(_, _)) => true
       case (VElem(_, tag, _, styles, olds), VElem(_, tag', _, styles', nexts)) =>
         tag == tag' && KeepsStyles(styles, styles') && CompatibleAll(olds, nexts)
       case _ => false
  }

  ghost predicate CompatibleAll(olds: seq<VNode>, nexts: seq<VNode>)
    decreases olds
  {
    if nexts == [] then true
    else if olds == [] then forall v | v in nexts :: Unstyled(v) == v
    else Compatible(olds[0], nexts[0]) && CompatibleAll(olds[1..], nexts[1..])
  }

  /** The ids of the inserted subtrees. */
  function NewIn(old_: VNode, next: VNode): set<uint32>
    decreases old_
  {
    match (old_, next)
    case (VElem(_, _, _, _, olds), VElem(_, _, _, _, nexts)) => NewAmong(olds, nexts)
    case _ => {}
  }

  function NewAmong(olds: seq<VNode>, nexts: seq<VNode>): set<uint32>
    decreases olds
  {
    if nexts == [] then {}
    else if olds == [] then IdsOf(nexts)
    else NewIn(olds[0], nexts[0]) + NewAmong(olds[1..], nexts[1..])
  }

  lemma {:induction false} NextIds(old_: VNode, next: VNode)
    requires Compatible(old_, next)
    ensures Ids(next) <= Ids(old_) + NewIn(old_, next) && NewIn(old_, next) <= Ids(next)
    decreases old_
  {
    if old_.VElem? {
      NextIdsAll(old_.children, next.children);
    }
  }

  lemma {:induction false} NextIdsAll(olds: seq<VNode>, nexts: seq<VNode>)
    requires CompatibleAll(olds, nexts)
    ensures IdsOf(nexts) <= IdsOf(olds) + NewAmong(olds, nexts) && NewAmong(olds, nexts) <= IdsOf(nexts)
    decreases olds
  {
    if olds != [] && nexts != [] {
      NextIds(olds[0], nexts[0]);
      NextIdsAll(olds[1..], nexts[1..]);
    }
  }

  // ------------------------------------------------------------------- likeness

  /** The same entries, where empty counts as absent. */
  ghost predicate SameEntries(m: map<Str, Str>, n: map<Str, Str>) {
    forall k :: Get(m, k) == Get(n, k)
  }

  /** The same tree up to empty attributes and styles. */
  ghost predicate Like(w: VNode, v: VNode)
    decreases w
  {
    match (w, v)
    case (VText(i, s), VText(j, t)) => i == j && s == t
    case (VElem(i, tag, attrs, styles, ws), VElem(j, tag', attrs', styles', vs)) =>
      i == j && tag == tag' && SameEntries(attrs, attrs') && SameEntries(styles, styles') && LikeAll(ws, vs)
    case _ => false
  }

  ghost predicate LikeAll(ws: seq<VNode>, vs: seq<VNode>)
    decreases ws
  {
    |ws| == |vs| && (ws == [] || (Like(ws[0], vs[0]) && LikeAll(ws[1..], vs[1..])))
  }

  lemma {:induction false} LikeIds(w: VNode, v: VNode)
    requires Like(w, v)
    ensures Ids(w) == Ids(v) && w.id == v.id && (Proper(w) <==> Proper(v))
    decreases w
  {
    if w.VElem? {
      LikeIdsAll(w.children, v.children);
    }
  }

  lemma {:induction false} LikeIdsAll(ws: seq<VNode>, vs: seq<VNode>)
    requires LikeAll(ws, vs)
    ensures IdsOf(ws) == IdsOf(vs) && (ProperAll(ws) <==> ProperAll(vs))
    decreases ws
  {
    if ws != [] {
      LikeIds(ws[0], vs[0]);
      LikeIdsAll(ws[1..], vs[1..]);
    }
  }

  lemma {:induction false} LikeSelf(v: VNode)
    ensures Like(v, v)
    decreases v
  {
    if v.VElem? {
      LikeSelfAll(v.children);
    }
  }

  lemma {:induction false} LikeSelfAll(vs: seq<VNode>)
    ensures LikeAll(vs, vs)
    decreases vs
  {
    if vs != [] {
      LikeSelf(vs[0]);
      LikeSelfAll(vs[1..]);
    }
  }

  // ------------------------------------------------- the client that attaches at once

  ghost predicate AtOnce(c: Client) {
    Valid(c) && c.depth > 0 && c.existing == {} && 0 !in c.nodes
  }

  /** Only nodes registered under `ids` have changed, and only these ids may have come or gone. */
  ghost predicate Within(c: Client, c': Client, ids: set<uint32>) {
    && c'.depth == c.depth && c'.existing == c.existing && c'.deferred == c.deferred && c.next <= c'.next
    && (forall id | id in c.nodes && id !in ids :: id in c'.nodes)
    && (forall id | id in c'.nodes ::
         (id in c.nodes && c'.nodes[id] == c.nodes[id]) || (id in ids && c.next <= c'.nodes[id]))
    && (forall r | r in c.heap && r !in Nodes(c, ids) :: r in c'.heap && c'.heap[r] == c.heap[r])
  }

  lemma {:induction false} WithinThen(c: Client, c1: Client, c2: Client, ids: set<uint32>, more: set<uint32>,
                                      all: set<uint32>)
    requires Valid(c) && Within(c, c1, ids) && Within(c1, c2, more) && ids <= all && more <= all
    ensures Within(c, c2, all)
  {
    NodesBelowNext(c);
    hide Valid;
    forall r | r in c.heap && r !in Nodes(c, all) ensures r in c2.heap && c2.heap[r] == c.heap[r] {
      assert r !in Nodes(c, ids);
      assert r !in Nodes(c1, more);
    }
  }

  /** Trees apart from these ids stay shown. */
  lemma {:induction false} StaysApart(c: Client, c': Client, ids: set<uint32>, vs: seq<VNode>, parent: Option<Ref>)
    requires Valid(c) && Within(c, c', ids) && ShowsAll(c.heap, c.nodes, vs, parent) && ProperAll(vs)
             && IdsOf(vs) !! ids
    ensures ShowsAll(c'.heap, c'.nodes, vs, parent) && Refs(c'.nodes, vs) == Refs(c.nodes, vs)
  {
    forall id | id in IdsOf(vs) && id in c.nodes
      ensures id in c'.nodes && c'.nodes[id] == c.nodes[id] && c.nodes[id] !in Nodes(c, ids)
    {
      assert forall i | i in ids && i in c.nodes :: c.nodes[i] != c.nodes[id];
    }
    hide Valid, ShowsAll, ProperAll;
    ShowsAllKept(c.heap, c.nodes, c'.heap, c'.nodes, vs, parent);
  }

  /** A node registered under another id stays as it is. */
  lemma {:induction false} NodeApart(c: Client, c': Client, ids: set<uint32>, id: uint32)
    requires Valid(c) && Within(c, c', ids) && id in c.nodes && id !in ids
    ensures id in c'.nodes && c'.nodes[id] == c.nodes[id] && c.nodes[id] in c'.heap
            && c'.heap[c.nodes[id]] == c.heap[c.nodes[id]]
  {
    assert c.nodes[id] !in Nodes(c, ids);
  }

  // ---------------------------------------------------------- the node itself

  function SetsAfter(attrs: map<Str, Str>, entries: seq<(Str, Str)>): map<Str, Str> {
    if entries == [] then attrs
    else SetsAfter(attrs, entries[..|entries| - 1])[entries[|entries| - 1].0 := entries[|entries| - 1].1]
  }

  function RemovesAfter(attrs: map<Str, Str>, keys: seq<Str>): map<Str, Str> {
    if keys == [] then attrs else RemovesAfter(attrs, keys[..|keys| - 1]) - {keys[|keys| - 1]}
  }

  lemma {:induction false} SetApplied(c: Client, id: uint32, key: Str, value: Str)
    requires id in c.nodes && c.nodes[id] in c.heap
    ensures var e := c.heap[c.nodes[id]];
            Apply(c, SetAttr(id, key, value)) == Relabelled(c, id, e.(attrs := e.attrs[key := value]))
            && Apply(c, RemoveAttr(id, key)) == Relabelled(c, id, e.(attrs := e.attrs - {key}))
  {
  }

  lemma {:induction false} SetsApplied(c: Client, id: uint32, entries: seq<(Str, Str)>)
    requires id in c.nodes && c.nodes[id] in c.heap
    ensures var e := c.heap[c.nodes[id]];
            ApplyAll(c, SetOps(id, entries)) == Relabelled(c, id, e.(attrs := SetsAfter(e.attrs, entries)))
    decreases entries
  {
    var e := c.heap[c.nodes[id]];
    if entries == [] {
      assert c.heap == c.heap[c.nodes[id] := e];
    } else {
      var front, last := entries[..|entries| - 1], entries[|entries| - 1];
      SetsApplied(c, id, front);
      var c1 := ApplyAll(c, SetOps(id, front));
      var m := SetAttr(id, last.0, last.1);
      SetApplied(c1, id, last.0, last.1);
      hide Apply;
      ApplyAllSplit(c, SetOps(id, front), [m]);
      ApplyCons(c1, [m]);
    }
  }

  lemma {:induction false} RemovesApplied(c: Client, id: uint32, keys: seq<Str>)
    requires id in c.nodes && c.nodes[id] in c.heap
    ensures var e := c.heap[c.nodes[id]];
            ApplyAll(c, RemoveOps(id, keys)) == Relabelled(c, id, e.(attrs := RemovesAfter(e.attrs, keys)))
    decreases keys
  {
    var e := c.heap[c.nodes[id]];
    if keys == [] {
      assert c.heap == c.heap[c.nodes[id] := e];
    } else {
      var front, last := keys[..|keys| - 1], keys[|keys| - 1];
      RemovesApplied(c, id, front);
      var c1 := ApplyAll(c, RemoveOps(id, front));
      SetApplied(c1, id, last, []);
      hide Apply;
      ApplyAllSplit(c, RemoveOps(id, front), [RemoveAttr(id, last)]);
      ApplyCons(c1, [RemoveAttr(id, last)]);
    }
  }

  lemma {:induction false} SetsLaid(attrs: map<Str, Str>, order: seq<Str>, over: map<Str, Str>, k: Str)
    requires forall x | x in order :: x in over
    ensures Get(SetsAfter(attrs, Entries(order, over)), k) == if k in order then over[k] else Get(attrs, k)
    decreases order
  {
    var entries := Entries(order, over);
    if order != [] {
      var front, last := order[..|order| - 1], order[|order| - 1];
      EntriesLast(order, over);
      SetsLaid(attrs, front, over, k);
      assert SetsAfter(attrs, entries) == SetsAfter(attrs, Entries(front, over))[last := over[last]];
      assert order == front + [last];
      hide Entries, SetsAfter;
    }
  }

  lemma {:induction false} RemovesLaid(attrs: map<Str, Str>, keys: seq<Str>, k: Str)
    ensures Get(RemovesAfter(attrs, keys), k) == if k in keys then [] else Get(attrs, k)
    decreases keys
  {
    if keys != [] {
      var front, last := keys[..|keys| - 1], keys[|keys| - 1];
      RemovesLaid(attrs, front, k);
      assert keys == front + [last];
      assert RemovesAfter(attrs, keys) == RemovesAfter(attrs, front) - {last};
      hide RemovesAfter;
    }
  }

  lemma {:induction false} SetsDone(c: Client, id: uint32, over: map<Str, Str>, msgs: seq<Msg>) returns (e': Elem)
    requires id in c.nodes && c.nodes[id] in c.heap && IsSets(msgs, id, over)
    ensures ApplyAll(c, msgs) == Relabelled(c, id, e')
    ensures var e := c.heap[c.nodes[id]]; e' == e.(attrs := e'.attrs) && Overlaid(e'.attrs, e.attrs, over)
  {
    var order :| IsOrder(order, over) && (forall k | k in order :: k in over)
      && msgs == SetOps(id, Entries(order, over));
    OrderCovers(order, over);
    hide IsOrder, Entries, ApplyAll, Get, SetsAfter;
    var e := c.heap[c.nodes[id]];
    SetsApplied(c, id, Entries(order, over));
    e' := e.(attrs := SetsAfter(e.attrs, Entries(order, over)));
    forall k ensures Get(e'.attrs, k) == if k in over then over[k] else Get(e.attrs, k) {
      SetsLaid(e.attrs, order, over, k);
    }
  }

  lemma {:induction false} RemovesDone(c: Client, id: uint32, gone: map<Str, Str>, msgs: seq<Msg>) returns (e': Elem)
    requires id in c.nodes && c.nodes[id] in c.heap && IsRemoves(msgs, id, gone)
    ensures ApplyAll(c, msgs) == Relabelled(c, id, e')
    ensures var e := c.heap[c.nodes[id]];
            e' == e.(attrs := e'.attrs) && forall k :: Get(e'.attrs, k) == if k in gone then [] else Get(e.attrs, k)
  {
    var order :| IsOrder(order, gone) && msgs == RemoveOps(id, order);
    OrderCovers(order, gone);
    hide IsOrder, ApplyAll, Get, RemovesAfter;
    var e := c.heap[c.nodes[id]];
    RemovesApplied(c, id, order);
    e' := e.(attrs := RemovesAfter(e.attrs, order));
    forall k ensures Get(e'.attrs, k) == if k in gone then [] else Get(e.attrs, k) {
      RemovesLaid(e.attrs, order, k);
    }
  }

  /**
   The node's own part of a Diff gives it the next attributes, and the next styles
   exactly when it drops none that is not empty.
   */
  lemma {:induction false} OwnDone(c: Client, old_: VNode, next: VNode, msgs: seq<Msg>) returns (e': Elem)
    requires old_.VElem? && next.VElem? && old_.id in c.nodes && c.nodes[old_.id] in c.heap
    requires IsOwnDiff(msgs, old_, next)
    requires SameEntries(c.heap[c.nodes[old_.id]].attrs, old_.attrs)
             && SameEntries(c.heap[c.nodes[old_.id]].styles, old_.styles)
    ensures ApplyAll(c, msgs) == Relabelled(c, old_.id, e')
    ensures e' == c.heap[c.nodes[old_.id]].(attrs := e'.attrs, styles := e'.styles)
    ensures SameEntries(e'.attrs, next.attrs)
    ensures SameEntries(e'.styles, next.styles) <==> KeepsStyles(old_.styles, next.styles)
  {
    hide IsSets, IsRemoves, IsStyles, ApplyAll, SameEntries, Overlaid, KeepsStyles, Changed, Gone;
    var id, e := old_.id, c.heap[c.nodes[old_.id]];
    var i, j :| 0 <= i <= j <= |msgs| && IsSets(msgs[..i], id, Changed(old_.attrs, next.attrs))
                && IsRemoves(msgs[i..j], id, Gone(old_.attrs, next.attrs))
                && IsStyles(msgs[j..], id, Changed(old_.styles, next.styles));
    hide IsOwnDiff;
    assert msgs == msgs[..i] + msgs[i..j] + msgs[j..];
    ApplyAllSplit(c, msgs[..i] + msgs[i..j], msgs[j..]);
    ApplyAllSplit(c, msgs[..i], msgs[i..j]);
    var e1 := SetsDone(c, id, Changed(old_.attrs, next.attrs), msgs[..i]);
    var c1 := Relabelled(c, id, e1);
    var e2 := RemovesDone(c1, id, Gone(old_.attrs, next.attrs), msgs[i..j]);
    var c2 := Relabelled(c1, id, e2);
    e' := StylesDrained(c2, id, Changed(old_.styles, next.styles), msgs[j..]);
    AttrsMeet(e.attrs, e1.attrs, e2.attrs, old_.attrs, next.attrs);
    DroppedStyleStays(e.styles, e'.styles, old_.styles, next.styles);
  }

  lemma {:induction false} AttrsMeet(a: map<Str, Str>, a1: map<Str, Str>, a2: map<Str, Str>, old_: map<Str, Str>,
                                     next: map<Str, Str>)
    requires SameEntries(a, old_) && Overlaid(a1, a, Changed(old_, next))
    requires forall k :: Get(a2, k) == if k in Gone(old_, next) then [] else Get(a1, k)
    ensures SameEntries(a2, next)
  {
    forall k ensures Get(a2, k) == Get(next, k) {
      assert Get(a, k) == Get(old_, k);
    }
  }

  lemma {:induction false} StylesMeet(a: map<Str, Str>, a1: map<Str, Str>, old_: map<Str, Str>, next: map<Str, Str>)
    requires SameEntries(a, old_) && Overlaid(a1, a, Changed(old_, next)) && KeepsStyles(old_, next)
    ensures SameEntries(a1, next)
  {
    forall k ensures Get(a1, k) == Get(next, k) {
      assert Get(a, k) == Get(old_, k);
    }
  }

  /** And a dropped style that was not empty stays: then the styles do not agree. */
  lemma {:induction false} DroppedStyleStays(a: map<Str, Str>, a1: map<Str, Str>, old_: map<Str, Str>,
                                             next: map<Str, Str>)
    requires SameEntries(a, old_) && Overlaid(a1, a, Changed(old_, next))
    ensures SameEntries(a1, next) <==> KeepsStyles(old_, next)
  {
    if KeepsStyles(old_, next) {
      StylesMeet(a, a1, old_, next);
    } else {
      var k :| k in old_ && k !in next && old_[k] != [];
      assert Get(a, k) == Get(old_, k);
      assert Get(a1, k) == Get(a, k) != Get(next, k);
    }
  }
}
