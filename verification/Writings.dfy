module Writings {
  // What a flush of marked nodes and a Diff write, instruction by instruction: what
  // has changed and nothing else (pkg/engine/session.go and pkg/dom/diff.go).

  import opened Seqs
  import opened Ranges
  import opened Wire
  import opened Dom
  import opened Trees
  import opened Emission
  import opened Dirty
  import opened Diffs
  import DirtyRuns

  // ---------------------------------------------------------- going over a map

  lemma {:induction false} EntriesAt(order: seq<Str>, m: map<Str, Str>, i: nat)
    requires (forall k | k in order :: k in m) && i < |order|
    ensures Entries(order, m)[i] == (order[i], m[order[i]])
    decreases order
  {
    if i < |order| - 1 {
      EntriesAt(order[..|order| - 1], m, i);
    }
  }

  lemma {:induction false} StyleAt(id: uint32, entries: seq<(Str, Str)>, i: nat)
    requires i < |entries|
    ensures StyleOps(id, entries)[i] == SetStyle(id, entries[i].0, entries[i].1)
    decreases entries
  {
    if i < |entries| - 1 {
      StyleAt(id, entries[..|entries| - 1], i);
    }
  }

  lemma {:induction false} AttrAt(id: uint32, entries: seq<(Str, Str)>, i: nat)
    requires i < |entries|
    ensures AttrOps(id, entries)[i] == AttrOp(id, entries[i].0, entries[i].1)
    decreases entries
  {
    if i < |entries| - 1 {
      AttrAt(id, entries[..|entries| - 1], i);
    }
  }

  lemma {:induction false} SetAt(id: uint32, entries: seq<(Str, Str)>, i: nat)
    requires i < |entries|
    ensures SetOps(id, entries)[i] == SetAttr(id, entries[i].0, entries[i].1)
    decreases entries
  {
    if i < |entries| - 1 {
      SetAt(id, entries[..|entries| - 1], i);
    }
  }

  lemma {:induction false} RemoveAt(id: uint32, keys: seq<Str>, i: nat)
    requires i < |keys|
    ensures RemoveOps(id, keys)[i] == RemoveAttr(id, keys[i])
    decreases keys
  {
    if i < |keys| - 1 {
      RemoveAt(id, keys[..|keys| - 1], i);
    }
  }

  predicate IsStyle(x: Msg, id: uint32, m: map<Str, Str>) {
    x.SetStyle? && x.node == id && x.key in m && x.value == m[x.key]
  }

  predicate IsSet(x: Msg, id: uint32, m: map<Str, Str>) {
    x.SetAttr? && x.node == id && x.key in m && x.value == m[x.key]
  }

  predicate IsRemove(x: Msg, id: uint32, m: map<Str, Str>) {
    x.RemoveAttr? && x.node == id && x.key in m
  }

  /** A noted attribute: an empty value is sent as a removal. */
  predicate IsAttr(x: Msg, id: uint32, m: map<Str, Str>) {
    (IsSet(x, id, m) && x.value != []) || (IsRemove(x, id, m) && m[x.key] == [])
  }

  lemma {:induction false} StylesAre(msgs: seq<Msg>, id: uint32, m: map<Str, Str>)
    requires IsStyles(msgs, id, m)
    ensures Distinct(msgs) && forall x :: x in msgs <==> IsStyle(x, id, m)
  {
    var order :| IsOrder(order, m) && (forall k | k in order :: k in m) && msgs == StyleOps(id, Entries(order, m));
    OrderCovers(order, m);
    forall i | 0 <= i < |order| ensures msgs[i] == SetStyle(id, order[i], m[order[i]]) {
      EntriesAt(order, m, i);
      StyleAt(id, Entries(order, m), i);
    }
    hide Entries, StyleOps, IsStyles;
    hide IsOrder, ToSet;
    forall x ensures x in msgs <==> IsStyle(x, id, m) {
      if IsStyle(x, id, m) {
        assert msgs[IndexOf(order, x.key)] == x;
      }
      if x in msgs {
        assert x == msgs[IndexOf(msgs, x)];
      }
    }
  }

  lemma {:induction false} SetsAre(msgs: seq<Msg>, id: uint32, m: map<Str, Str>)
    requires IsSets(msgs, id, m)
    ensures Distinct(msgs) && forall x :: x in msgs <==> IsSet(x, id, m)
  {
    var order :| IsOrder(order, m) && (forall k | k in order :: k in m) && msgs == SetOps(id, Entries(order, m));
    OrderCovers(order, m);
    forall i | 0 <= i < |order| ensures msgs[i] == SetAttr(id, order[i], m[order[i]]) {
      EntriesAt(order, m, i);
      SetAt(id, Entries(order, m), i);
    }
    hide Entries, SetOps, IsSets;
    hide IsOrder, ToSet;
    forall x ensures x in msgs <==> IsSet(x, id, m) {
      if IsSet(x, id, m) {
        assert msgs[IndexOf(order, x.key)] == x;
      }
      if x in msgs {
        assert x == msgs[IndexOf(msgs, x)];
      }
    }
  }

  lemma {:induction false} RemovesAre(msgs: seq<Msg>, id: uint32, m: map<Str, Str>)
    requires IsRemoves(msgs, id, m)
    ensures Distinct(msgs) && forall x :: x in msgs <==> IsRemove(x, id, m)
  {
    var order :| IsOrder(order, m) && msgs == RemoveOps(id, order);
    OrderCovers(order, m);
    forall i | 0 <= i < |order| ensures msgs[i] == RemoveAttr(id, order[i]) {
      RemoveAt(id, order, i);
    }
    hide Entries, RemoveOps, IsRemoves;
    hide IsOrder, ToSet;
    forall x ensures x in msgs <==> IsRemove(x, id, m) {
      if IsRemove(x, id, m) {
        assert msgs[IndexOf(order, x.key)] == x;
      }
      if x in msgs {
        assert x == msgs[IndexOf(msgs, x)];
      }
    }
  }

  lemma {:induction false} AttrsAre(msgs: seq<Msg>, id: uint32, m: map<Str, Str>)
    requires IsAttrs(msgs, id, m)
    ensures Distinct(msgs) && forall x :: x in msgs <==> IsAttr(x, id, m)
  {
    hide *;
    var order := AttrsOrder(msgs, id, m);
    AttrsByKey(msgs, order, id, m);
  }

  lemma {:induction false} AttrsOrder(msgs: seq<Msg>, id: uint32, m: map<Str, Str>) returns (order: seq<Str>)
    requires IsAttrs(msgs, id, m)
    ensures Distinct(order) && (forall k | k in m :: k in order) && |msgs| == |order|
    ensures forall i | 0 <= i < |order| :: order[i] in m && msgs[i] == AttrOp(id, order[i], m[order[i]])
  {
    order :| IsOrder(order, m) && (forall k | k in order :: k in m) && msgs == AttrOps(id, Entries(order, m));
    OrderCovers(order, m);
    assert Distinct(order);
    hide IsOrder, ToSet, AttrOp;
    forall i | 0 <= i < |order| ensures msgs[i] == AttrOp(id, order[i], m[order[i]]) {
      EntriesAt(order, m, i);
      AttrAt(id, Entries(order, m), i);
    }
    hide *;
  }

  lemma {:induction false} AttrsByKey(msgs: seq<Msg>, order: seq<Str>, id: uint32, m: map<Str, Str>)
    requires Distinct(order) && (forall k | k in m :: k in order) && |msgs| == |order|
    requires forall i | 0 <= i < |order| :: order[i] in m && msgs[i] == AttrOp(id, order[i], m[order[i]])
    ensures Distinct(msgs) && forall x :: x in msgs <==> IsAttr(x, id, m)
  {
    forall x ensures x in msgs <==> IsAttr(x, id, m) {
      if IsAttr(x, id, m) {
        assert msgs[IndexOf(order, x.key)] == x;
      }
    }
  }

  lemma {:induction false} Apart(a: seq<Msg>, b: seq<Msg>)
    requires Distinct(a) && Distinct(b) && forall x | x in a :: x !in b
    ensures Distinct(a + b) && forall x :: x in a + b <==> x in a || x in b
  {
    var s := a + b;
    forall i, j | 0 <= i < j < |s| ensures s[i] != s[j] {
      if i < |a| <= j {
        assert s[i] in a && s[j] in b;
      }
    }
  }

  // ----------------------------------------------------------------------- Diff

  /**
   For a matched element Diff sets exactly the attributes and styles whose value is
   another one now, a missing one reading as empty, and removes exactly the attributes
   that are gone; each by one instruction.
   */
  lemma {:induction false} OwnDiffWrites(msgs: seq<Msg>, old_: VNode, next: VNode)
    requires old_.VElem? && next.VElem? && IsOwnDiff(msgs, old_, next)
    ensures Distinct(msgs)
    ensures forall x :: x in msgs <==>
              || (x.SetAttr? && x.node == old_.id && x.key in next.attrs && x.value == next.attrs[x.key]
                  && x.value != if x.key in old_.attrs then old_.attrs[x.key] else [])
              || (x.RemoveAttr? && x.node == old_.id && x.key in old_.attrs && x.key !in next.attrs)
              || (x.SetStyle? && x.node == old_.id && x.key in next.styles && x.value == next.styles[x.key]
                  && x.value != if x.key in old_.styles then old_.styles[x.key] else [])
  {
    hide *;
    var a, b, c := OwnDiffParts(msgs, old_, next);
    ThreeParts(a, b, c, old_.id, Changed(old_.attrs, next.attrs), Gone(old_.attrs, next.attrs),
               Changed(old_.styles, next.styles));
    DiffMembers(old_, next);
  }

  lemma OwnDiffParts(msgs: seq<Msg>, old_: VNode, next: VNode) returns (a: seq<Msg>, b: seq<Msg>, c: seq<Msg>)
    requires old_.VElem? && next.VElem? && IsOwnDiff(msgs, old_, next)
    ensures msgs == a + b + c && IsSets(a, old_.id, Changed(old_.attrs, next.attrs))
    ensures IsRemoves(b, old_.id, Gone(old_.attrs, next.attrs))
    ensures IsStyles(c, old_.id, Changed(old_.styles, next.styles))
  {
    hide IsSets, IsRemoves, IsStyles, Changed, Gone;
    var i, j :| 0 <= i <= j <= |msgs| && IsSets(msgs[..i], old_.id, Changed(old_.attrs, next.attrs))
                && IsRemoves(msgs[i..j], old_.id, Gone(old_.attrs, next.attrs))
                && IsStyles(msgs[j..], old_.id, Changed(old_.styles, next.styles));
    a, b, c := msgs[..i], msgs[i..j], msgs[j..];
  }

  lemma {:induction false} ThreeParts(a: seq<Msg>, b: seq<Msg>, c: seq<Msg>, id: uint32, sets: map<Str, Str>,
                                      gone: map<Str, Str>, styles: map<Str, Str>)
    requires IsSets(a, id, sets) && IsRemoves(b, id, gone) && IsStyles(c, id, styles)
    ensures Distinct(a + b + c)
    ensures forall x :: x in a + b + c <==> IsSet(x, id, sets) || IsRemove(x, id, gone) || IsStyle(x, id, styles)
  {
    hide *;
    SetsAre(a, id, sets);
    RemovesAre(b, id, gone);
    StylesAre(c, id, styles);
    KindsApart(id, sets, gone, styles);
    Apart(a, b);
    Apart(a + b, c);
  }

  lemma {:induction false} TwoParts(a: seq<Msg>, b: seq<Msg>, id: uint32, attrs: map<Str, Str>, styles: map<Str, Str>)
    requires IsAttrs(a, id, attrs) && IsStyles(b, id, styles)
    ensures Distinct(a + b) && forall x :: x in a + b <==> IsAttr(x, id, attrs) || IsStyle(x, id, styles)
  {
    hide *;
    AttrsAre(a, id, attrs);
    StylesAre(b, id, styles);
    KindsApart(id, attrs, map[], styles);
    Apart(a, b);
  }

  lemma KindsApart(id: uint32, sets: map<Str, Str>, gone: map<Str, Str>, styles: map<Str, Str>)
    ensures forall x | IsSet(x, id, sets) :: !IsRemove(x, id, gone) && !IsStyle(x, id, styles)
    ensures forall x | IsRemove(x, id, gone) :: !IsStyle(x, id, styles)
    ensures forall x | IsAttr(x, id, sets) :: !IsStyle(x, id, styles)
  {
  }

  lemma DiffMembers(old_: VNode, next: VNode)
    requires old_.VElem? && next.VElem?
    ensures forall x :: IsSet(x, old_.id, Changed(old_.attrs, next.attrs))
              <==> (x.SetAttr? && x.node == old_.id && x.key in next.attrs && x.value == next.attrs[x.key]
                    && x.value != if x.key in old_.attrs then old_.attrs[x.key] else [])
    ensures forall x :: IsRemove(x, old_.id, Gone(old_.attrs, next.attrs))
              <==> (x.RemoveAttr? && x.node == old_.id && x.key in old_.attrs && x.key !in next.attrs)
    ensures forall x :: IsStyle(x, old_.id, Changed(old_.styles, next.styles))
              <==> (x.SetStyle? && x.node == old_.id && x.key in next.styles && x.value == next.styles[x.key]
                    && x.value != if x.key in old_.styles then old_.styles[x.key] else [])
  {
  }

  // ---------------------------------------------------------------------- a flush

  /** The flush of one node: noted attributes, those noted as empty by removals, and noted styles; each once. */
  lemma {:induction false} DrainWrites(msgs: seq<Msg>, id: uint32, n: Mark)
    requires IsDrain(msgs, id, n)
    ensures Distinct(msgs)
    ensures forall x :: x in msgs <==>
              || (x.SetAttr? && x.node == id && x.key in n.dirtyAttrs && x.value == n.dirtyAttrs[x.key]
                  && x.value != [])
              || (x.RemoveAttr? && x.node == id && x.key in n.dirtyAttrs && n.dirtyAttrs[x.key] == [])
              || (x.SetStyle? && x.node == id && x.key in n.dirtyStyles && x.value == n.dirtyStyles[x.key])
  {
    hide *;
    var a, b := DrainParts(msgs, id, n);
    TwoParts(a, b, id, n.dirtyAttrs, n.dirtyStyles);
    DrainMembers(id, n);
  }

  lemma DrainParts(msgs: seq<Msg>, id: uint32, n: Mark) returns (a: seq<Msg>, b: seq<Msg>)
    requires IsDrain(msgs, id, n)
    ensures msgs == a + b && IsAttrs(a, id, n.dirtyAttrs) && IsStyles(b, id, n.dirtyStyles)
  {
    hide IsAttrs, IsStyles;
    var k :| 0 <= k <= |msgs| && IsAttrs(msgs[..k], id, n.dirtyAttrs) && IsStyles(msgs[k..], id, n.dirtyStyles);
    a, b := msgs[..k], msgs[k..];
  }

  lemma DrainMembers(id: uint32, n: Mark)
    ensures forall x :: IsAttr(x, id, n.dirtyAttrs) <==>
              || (x.SetAttr? && x.node == id && x.key in n.dirtyAttrs && x.value == n.dirtyAttrs[x.key]
                  && x.value != [])
              || (x.RemoveAttr? && x.node == id && x.key in n.dirtyAttrs && n.dirtyAttrs[x.key] == [])
    ensures forall x :: IsStyle(x, id, n.dirtyStyles)
              <==> (x.SetStyle? && x.node == id && x.key in n.dirtyStyles && x.value == n.dirtyStyles[x.key])
  {
  }

  /** `x` tells the client of something noted on node `n`. */
  ghost predicate Noted(x: Msg, n: Mark) {
    || (x.SetAttr? && x.key in n.dirtyAttrs && x.value == n.dirtyAttrs[x.key] && x.value != [])
    || (x.RemoveAttr? && x.key in n.dirtyAttrs && n.dirtyAttrs[x.key] == [])
    || (x.SetStyle? && x.key in n.dirtyStyles && x.value == n.dirtyStyles[x.key])
  }

  lemma {:induction false} DrainNotes(msgs: seq<Msg>, id: uint32, n: Mark)
    requires IsDrain(msgs, id, n)
    ensures forall x :: x in msgs <==> Noted(x, n) && x.node == id
  {
    hide *;
    DrainWrites(msgs, id, n);
    NotedIs(n);
  }

  lemma NotedIs(n: Mark)
    ensures forall x :: Noted(x, n) <==>
              || (x.SetAttr? && x.key in n.dirtyAttrs && x.value == n.dirtyAttrs[x.key] && x.value != [])
              || (x.RemoveAttr? && x.key in n.dirtyAttrs && n.dirtyAttrs[x.key] == [])
              || (x.SetStyle? && x.key in n.dirtyStyles && x.value == n.dirtyStyles[x.key])
  {
  }

  /** `x` tells the client of something noted on one of the nodes `ids`. */
  ghost predicate NotedAmong(x: Msg, ids: seq<uint32>, nodes: map<uint32, Mark>) {
    exists id :: id in ids && id in nodes && Noted(x, nodes[id]) && x.node == id
  }

  lemma {:induction false} DrainAllNotes(msgs: seq<Msg>, ids: seq<uint32>, nodes: map<uint32, Mark>)
    requires IsDrainAll(msgs, ids, nodes)
    ensures forall x :: x in msgs <==> NotedAmong(x, ids, nodes)
    decreases ids
  {
    hide IsDrain, Noted;
    if ids != [] {
      var k :| 0 <= k <= |msgs| && IsDrain(msgs[..k], ids[0], nodes[ids[0]]) && IsDrainAll(msgs[k..], ids[1..], nodes);
      DrainNotes(msgs[..k], ids[0], nodes[ids[0]]);
      DrainAllNotes(msgs[k..], ids[1..], nodes);
      assert msgs == msgs[..k] + msgs[k..];
      hide IsDrainAll;
      assert forall id :: id in ids <==> id == ids[0] || id in ids[1..];
    }
  }

  lemma {:induction false} TextsAre(ids: seq<uint32>, nodes: map<uint32, Mark>)
    requires Distinct(ids) && forall id | id in ids :: id in nodes
    ensures var us := Texts(ids, nodes);
            && Distinct(us)
            && forall u :: u in us <==> u.0 in ids && nodes[u.0].dirtyText && u.1 == nodes[u.0].text
    decreases ids
  {
    if ids != [] {
      TextsAre(ids[1..], nodes);
      assert forall id :: id in ids <==> id == ids[0] || id in ids[1..];
      assert ids[0] !in ids[1..];
    }
  }

  /**
   A flush sends for every marked node what is noted on it and nothing else, by one
   instruction each; and last the texts: none, one alone, or all in one instruction.
   */
  lemma {:induction false} FlushWrites(msgs: seq<Msg>, ids: seq<uint32>, nodes: map<uint32, Mark>)
    returns (front: seq<Msg>, texts: seq<(uint32, Str)>)
    requires DirtyRuns.DirtyOnes(ids, nodes) && IsFlush(msgs, ids, nodes)
    ensures msgs == front + (if |texts| == 0 then []
                             else if |texts| == 1 then [UpdateText(texts[0].0, texts[0].1)]
                             else [BatchText(texts)])
    ensures Distinct(texts) && forall u :: u in texts <==>
              u.0 in nodes && nodes[u.0].dirty && nodes[u.0].dirtyText && u.1 == nodes[u.0].text
    ensures forall x :: x in front <==>
              exists id :: id in nodes && nodes[id].dirty && Noted(x, nodes[id]) && x.node == id
  {
    hide *;
    MarkedOnes(ids, nodes);
    front, texts := FlushParts(msgs, ids, nodes);
    DrainAllNotes(front, ids, nodes);
    TextsAre(ids, nodes);
    NotedAmongMarked(ids, nodes);
  }

  lemma MarkedOnes(ids: seq<uint32>, nodes: map<uint32, Mark>)
    requires DirtyRuns.DirtyOnes(ids, nodes)
    ensures Distinct(ids) && forall id :: id in ids <==> id in nodes && nodes[id].dirty
  {
  }

  lemma NotedAmongMarked(ids: seq<uint32>, nodes: map<uint32, Mark>)
    requires forall id :: id in ids <==> id in nodes && nodes[id].dirty
    ensures forall x :: NotedAmong(x, ids, nodes)
              <==> exists id :: id in nodes && nodes[id].dirty && Noted(x, nodes[id]) && x.node == id
  {
    hide Noted;
  }

  lemma FlushParts(msgs: seq<Msg>, ids: seq<uint32>, nodes: map<uint32, Mark>)
    returns (front: seq<Msg>, texts: seq<(uint32, Str)>)
    requires IsFlush(msgs, ids, nodes)
    ensures (forall id | id in ids :: id in nodes) && texts == Texts(ids, nodes) && IsDrainAll(front, ids, nodes)
    ensures msgs == front + (if |texts| == 0 then []
                             else if |texts| == 1 then [UpdateText(texts[0].0, texts[0].1)]
                             else [BatchText(texts)])
  {
    hide IsDrainAll, Texts;
    var k :| 0 <= k <= |msgs| && IsDrainAll(msgs[..k], ids, nodes) && msgs[k..] == TextOps(Texts(ids, nodes));
    front, texts := msgs[..k], Texts(ids, nodes);
    assert msgs == front + msgs[k..];
  }

  /** Nothing is left to send: a second flush writes nothing. */
  lemma {:induction false} FlushedOnce(nodes: map<uint32, Mark>, ids: seq<uint32>, msgs: seq<Msg>)
    requires forall id | id in nodes :: Coherent(nodes[id])
    requires DirtyRuns.DirtyOnes(ids, FlushedNodes(nodes)) && IsFlush(msgs, ids, FlushedNodes(nodes))
    ensures msgs == []
    ensures forall id | id in nodes ::
              var n := FlushedNodes(nodes)[id];
              !n.dirty && !n.dirtyText && n.dirtyAttrs == n.dirtyStyles == map[]
  {
    NothingLeft(nodes);
    var after := FlushedNodes(nodes);
    hide FlushedNodes, Coherent;
    MarkedOnes(ids, after);
    var front, texts := FlushWrites(msgs, ids, after);
    hide *;
    HasMember(texts);
    HasMember(front);
  }

  lemma HasMember<T>(s: seq<T>)
    ensures s != [] ==> exists x :: x in s
  {
    if s != [] {
      assert s[0] in s;
    }
  }

  lemma NothingLeft(nodes: map<uint32, Mark>)
    requires forall id | id in nodes :: Coherent(nodes[id])
    ensures FlushedNodes(nodes).Keys == nodes.Keys
    ensures forall id | id in nodes ::
              var n := FlushedNodes(nodes)[id];
              !n.dirty && !n.dirtyText && n.dirtyAttrs == n.dirtyStyles == map[]
  {
  }
}
