/**
 Change tracking: what signal observers note on a node (pkg/dom/elements.go),
 what a flush sends for it (pkg/engine/session.go), and why the client agrees.
 */
module Dirty {
  import opened Seqs
  import opened Ranges
  import opened Wire
  import opened Dom
  import opened Client
  import opened Emission

  /** The fields of a server node that observers and flushes touch. */
  datatype Mark = Mark(
    isText: bool,
    text: Str,
    attrs: map<Str, Str>,
    styles: map<Str, Str>,
    dirty: bool,
    dirtyText: bool,
    dirtyAttrs: map<Str, Str>,
    dirtyStyles: map<Str, Str>)

  /** Reading a Go map: a missing key gives "". */
  function Get(m: map<Str, Str>, k: Str): Str {
    if k in m then m[k] else []
  }

  // --------------------------------------------------------------- observers

  function TextChanged(n: Mark, text: Str): Mark {
    n.(text := text, dirty := true, dirtyText := true)
  }

  function AttrChanged(n: Mark, key: Str, value: Str): Mark {
    if Get(n.attrs, key) == value then n
    else n.(attrs := n.attrs[key := value], dirtyAttrs := n.dirtyAttrs[key := value], dirty := true)
  }

  function StyleChanged(n: Mark, key: Str, value: Str): Mark {
    if Get(n.styles, key) == value then n
    else n.(styles := n.styles[key := value], dirtyStyles := n.dirtyStyles[key := value], dirty := true)
  }

  function Cleared(n: Mark): Mark {
    n.(dirty := false, dirtyText := false, dirtyAttrs := map[], dirtyStyles := map[])
  }

  // --------------------------------------------------------------- invariant

  /** What is noted is current, and nothing is noted on a node that is not marked. */
  ghost predicate Coherent(n: Mark) {
    && (forall k | k in n.dirtyAttrs :: n.dirtyAttrs[k] == Get(n.attrs, k))
    && (forall k | k in n.dirtyStyles :: n.dirtyStyles[k] == Get(n.styles, k))
    && (n.dirtyText || n.dirtyAttrs != map[] || n.dirtyStyles != map[] ==> n.dirty)
    && (n.dirtyText ==> n.isText)
  }

  /** Everything not noted agrees with the browser's node. */
  ghost predicate Follows(e: Elem, n: Mark) {
    && (n.isText <==> IsText(e))
    && (n.isText && !n.dirtyText ==> e.text == n.text)
    && (forall k :: n.isText || k in n.dirtyAttrs || Get(e.attrs, k) == Get(n.attrs, k))
    && (forall k :: n.isText || k in n.dirtyStyles || Get(e.styles, k) == Get(n.styles, k))
  }

  /** The browser's node has the server's text, attributes and styles, where empty counts as absent. */
  ghost predicate Agrees(e: Elem, n: Mark) {
    && (n.isText <==> IsText(e))
    && (n.isText ==> e.text == n.text)
    && (forall k :: n.isText || Get(e.attrs, k) == Get(n.attrs, k))
    && (forall k :: n.isText || Get(e.styles, k) == Get(n.styles, k))
  }

  /** A node that is not marked dirty agrees with the client. */
  lemma {:induction false} UnmarkedAgrees(e: Elem, n: Mark)
    requires Coherent(n) && Follows(e, n) && !n.dirty
    ensures Agrees(e, n)
  {
    assert n.dirtyAttrs == map[] && n.dirtyStyles == map[];
  }

  lemma {:induction false} ObserversKeep(e: Elem, n: Mark, key: Str, value: Str)
    requires Coherent(n) && Follows(e, n)
    ensures n.isText ==> Coherent(TextChanged(n, value)) && Follows(e, TextChanged(n, value))
    ensures Coherent(AttrChanged(n, key, value)) && Follows(e, AttrChanged(n, key, value))
    ensures Coherent(StyleChanged(n, key, value)) && Follows(e, StyleChanged(n, key, value))
  {
    AttrKeeps(e, n, key, value);
    StyleKeeps(e, n, key, value);
  }

  /** A value that is there already is not noted; any other one is, and nothing else. */
  lemma ObserversNote(n: Mark, key: Str, value: Str)
    ensures (if key in n.attrs then n.attrs[key] else []) == value ==> AttrChanged(n, key, value) == n
    ensures (if key in n.styles then n.styles[key] else []) == value ==> StyleChanged(n, key, value) == n
    ensures (if key in n.attrs then n.attrs[key] else []) != value ==>
              var n' := AttrChanged(n, key, value);
              && n' == n.(attrs := n'.attrs, dirtyAttrs := n'.dirtyAttrs, dirty := true)
              && (forall k :: k in n'.dirtyAttrs <==> k in n.dirtyAttrs || k == key)
              && n'.dirtyAttrs[key] == value && n'.attrs == n.attrs[key := value]
              && (forall k | k in n.dirtyAttrs && k != key :: n'.dirtyAttrs[k] == n.dirtyAttrs[k])
    ensures (if key in n.styles then n.styles[key] else []) != value ==>
              var n' := StyleChanged(n, key, value);
              && n' == n.(styles := n'.styles, dirtyStyles := n'.dirtyStyles, dirty := true)
              && (forall k :: k in n'.dirtyStyles <==> k in n.dirtyStyles || k == key)
              && n'.dirtyStyles[key] == value && n'.styles == n.styles[key := value]
              && (forall k | k in n.dirtyStyles && k != key :: n'.dirtyStyles[k] == n.dirtyStyles[k])
  {
  }

  lemma {:induction false} AttrKeeps(e: Elem, n: Mark, key: Str, value: Str)
    requires Coherent(n) && Follows(e, n)
    ensures Coherent(AttrChanged(n, key, value)) && Follows(e, AttrChanged(n, key, value))
  {
    var n' := AttrChanged(n, key, value);
    if Get(n.attrs, key) != value {
      assert forall k | k != key :: Get(n'.attrs, k) == Get(n.attrs, k);
      assert key in n'.dirtyAttrs;
    }
  }

  lemma {:induction false} StyleKeeps(e: Elem, n: Mark, key: Str, value: Str)
    requires Coherent(n) && Follows(e, n)
    ensures Coherent(StyleChanged(n, key, value)) && Follows(e, StyleChanged(n, key, value))
  {
    var n' := StyleChanged(n, key, value);
    if Get(n.styles, key) != value {
      assert forall k | k != key :: Get(n'.styles, k) == Get(n.styles, k);
      assert key in n'.dirtyStyles;
    }
  }

  // -------------------------------------------------------------------- flush

  /** One instruction for a noted attribute: an empty value removes it. */
  function AttrOp(id: uint32, key: Str, value: Str): Msg {
    if value == [] then RemoveAttr(id, key) else SetAttr(id, key, value)
  }

  function AttrOps(id: uint32, entries: seq<(Str, Str)>): (r: seq<Msg>)
    ensures |r| == |entries|
  {
    if entries == [] then []
    else AttrOps(id, entries[..|entries| - 1]) + [AttrOp(id, entries[|entries| - 1].0, entries[|entries| - 1].1)]
  }

  ghost predicate IsAttrs(msgs: seq<Msg>, id: uint32, attrs: map<Str, Str>) {
    exists order :: IsOrder(order, attrs) && (forall k | k in order :: k in attrs)
                    && msgs == AttrOps(id, Entries(order, attrs))
  }

  /** What a flush writes for one node: its attributes, then its styles, each in any order. */
  ghost predicate IsDrain(msgs: seq<Msg>, id: uint32, n: Mark) {
    exists k :: 0 <= k <= |msgs| && IsAttrs(msgs[..k], id, n.dirtyAttrs) && IsStyles(msgs[k..], id, n.dirtyStyles)
  }

  /** What a flush writes for the nodes `ids`, before the texts. */
  ghost predicate IsDrainAll(msgs: seq<Msg>, ids: seq<uint32>, nodes: map<uint32, Mark>)
    decreases ids
  {
    if ids == [] then msgs == []
    else ids[0] in nodes && exists k :: 0 <= k <= |msgs| && IsDrain(msgs[..k], ids[0], nodes[ids[0]])
                                        && IsDrainAll(msgs[k..], ids[1..], nodes)
  }

  /** Text updates, in the order of `ids`. */
  function Texts(ids: seq<uint32>, nodes: map<uint32, Mark>): (r: seq<(uint32, Str)>)
    requires forall id | id in ids :: id in nodes
  {
    if ids == [] then []
    else (if nodes[ids[0]].dirtyText then [(ids[0], nodes[ids[0]].text)] else []) + Texts(ids[1..], nodes)
  }

  /** Two or more go in one instruction. */
  function TextOps(updates: seq<(uint32, Str)>): seq<Msg> {
    if |updates| >= 2 then [BatchText(updates)]
    else if |updates| == 1 then [UpdateText(updates[0].0, updates[0].1)]
    else []
  }

  /** `msgs` is what a flush may send when `ids` are the dirty nodes. */
  ghost predicate IsFlush(msgs: seq<Msg>, ids: seq<uint32>, nodes: map<uint32, Mark>) {
    && (forall id | id in ids :: id in nodes)
    && exists k :: 0 <= k <= |msgs| && IsDrainAll(msgs[..k], ids, nodes) && msgs[k..] == TextOps(Texts(ids, nodes))
  }

  function FlushedNodes(nodes: map<uint32, Mark>): map<uint32, Mark> {
    map id | id in nodes :: if nodes[id].dirty then Cleared(nodes[id]) else nodes[id]
  }

  // --------------------------------------------------------- on the client

  /** `c'` is `c` with the label of the node registered under `id` replaced by `e`. */
  function Relabelled(c: Client, id: uint32, e: Elem): Client
    requires id in c.nodes
  {
    c.(heap := c.heap[c.nodes[id] := e])
  }

  /** `m` with the entries of `over` on top, where empty counts as absent. */
  ghost predicate Overlaid(m': map<Str, Str>, m: map<Str, Str>, over: map<Str, Str>) {
    forall k :: Get(m', k) == if k in over then over[k] else Get(m, k)
  }

  /** One attribute instruction. */
  lemma {:induction false} AttrApplied(c: Client, id: uint32, key: Str, value: Str)
    requires id in c.nodes && c.nodes[id] in c.heap
    ensures var e := c.heap[c.nodes[id]];
            Apply(c, AttrOp(id, key, value))
            == Relabelled(c, id, e.(attrs := if value == [] then e.attrs - {key} else e.attrs[key := value]))
  {
  }

  function AttrsAfter(attrs: map<Str, Str>, entries: seq<(Str, Str)>): map<Str, Str> {
    if entries == [] then attrs
    else
      var before := AttrsAfter(attrs, entries[..|entries| - 1]);
      var (key, value) := entries[|entries| - 1];
      if value == [] then before - {key} else before[key := value]
  }

  function StylesAfter(styles: map<Str, Str>, entries: seq<(Str, Str)>): map<Str, Str> {
    if entries == [] then styles
    else
      SetProperty(StylesAfter(styles, entries[..|entries| - 1]), entries[|entries| - 1].0, entries[|entries| - 1].1)
  }

  lemma {:induction false} AttrsApplied(c: Client, id: uint32, entries: seq<(Str, Str)>)
    requires id in c.nodes && c.nodes[id] in c.heap
    ensures var e := c.heap[c.nodes[id]];
            ApplyAll(c, AttrOps(id, entries)) == Relabelled(c, id, e.(attrs := AttrsAfter(e.attrs, entries)))
    decreases entries
  {
    var e := c.heap[c.nodes[id]];
    if entries == [] {
      assert c.heap == c.heap[c.nodes[id] := e];
    } else {
      var front, last := entries[..|entries| - 1], entries[|entries| - 1];
      AttrsApplied(c, id, front);
      var c1 := ApplyAll(c, AttrOps(id, front));
      AttrApplied(c1, id, last.0, last.1);
      hide AttrOp, Apply;
      ApplyAllSplit(c, AttrOps(id, front), [AttrOp(id, last.0, last.1)]);
      ApplyCons(c1, [AttrOp(id, last.0, last.1)]);
    }
  }

  lemma {:induction false} StylesApplied(c: Client, id: uint32, entries: seq<(Str, Str)>)
    requires id in c.nodes && c.nodes[id] in c.heap
    ensures var e := c.heap[c.nodes[id]];
            ApplyAll(c, StyleOps(id, entries)) == Relabelled(c, id, e.(styles := StylesAfter(e.styles, entries)))
    decreases entries
  {
    var e := c.heap[c.nodes[id]];
    if entries == [] {
      assert c.heap == c.heap[c.nodes[id] := e];
    } else {
      var front, last := entries[..|entries| - 1], entries[|entries| - 1];
      StylesApplied(c, id, front);
      var c1 := ApplyAll(c, StyleOps(id, front));
      var m := SetStyle(id, last.0, last.1);
      StyleApplied(c1, id, last.0, last.1);
      hide Apply, SetProperty;
      ApplyAllSplit(c, StyleOps(id, front), [m]);
      ApplyCons(c1, [m]);
    }
  }

  lemma {:induction false} StyleApplied(c: Client, id: uint32, key: Str, value: Str)
    requires id in c.nodes && c.nodes[id] in c.heap
    ensures var e := c.heap[c.nodes[id]];
            Apply(c, SetStyle(id, key, value)) == Relabelled(c, id, e.(styles := SetProperty(e.styles, key, value)))
  {
    hide SetProperty;
  }

  /** Whatever the order of iteration. */
  lemma {:induction false} AttrsOverlaid(attrs: map<Str, Str>, order: seq<Str>, over: map<Str, Str>, k: Str)
    requires forall x | x in order :: x in over
    ensures Get(AttrsAfter(attrs, Entries(order, over)), k) == if k in order then over[k] else Get(attrs, k)
    decreases order
  {
    var entries := Entries(order, over);
    if order == [] {
      assert entries == [];
    } else {
      var front, last := order[..|order| - 1], order[|order| - 1];
      EntriesLast(order, over);
      AttrsLast(attrs, entries);
      AttrsOverlaid(attrs, front, over, k);
      assert order == front + [last];
      hide Entries, AttrsAfter;
    }
  }

  lemma AttrsLast(attrs: map<Str, Str>, entries: seq<(Str, Str)>)
    requires entries != []
    ensures var before := AttrsAfter(attrs, entries[..|entries| - 1]);
            var (key, value) := entries[|entries| - 1];
            AttrsAfter(attrs, entries) == if value == [] then before - {key} else before[key := value]
  {
  }

  lemma EntriesLast(order: seq<Str>, m: map<Str, Str>)
    requires order != [] && forall k | k in order :: k in m
    ensures Entries(order, m)[|order| - 1] == (order[|order| - 1], m[order[|order| - 1]])
    ensures Entries(order, m)[..|order| - 1] == Entries(order[..|order| - 1], m)
  {
  }

  lemma {:induction false} StylesOverlaid(styles: map<Str, Str>, order: seq<Str>, over: map<Str, Str>, k: Str)
    requires forall x | x in order :: x in over
    ensures Get(StylesAfter(styles, Entries(order, over)), k) == if k in order then over[k] else Get(styles, k)
    decreases order
  {
    hide SetProperty, Get;
    if order != [] {
      var front, last := order[..|order| - 1], order[|order| - 1];
      StylesOverlaid(styles, front, over, k);
      StylesStep(styles, order, over);
      PropertySet(StylesAfter(styles, Entries(front, over)), last, over[last], k);
      assert order == front + [last];
      hide Entries, StylesAfter;
    }
  }

  lemma StylesStep(styles: map<Str, Str>, order: seq<Str>, over: map<Str, Str>)
    requires order != [] && forall x | x in order :: x in over
    ensures var front, last := order[..|order| - 1], order[|order| - 1];
            StylesAfter(styles, Entries(order, over))
              == SetProperty(StylesAfter(styles, Entries(front, over)), last, over[last])
  {
    hide SetProperty;
    EntriesLast(order, over);
    StylesLast(styles, Entries(order, over));
  }

  lemma PropertySet(styles: map<Str, Str>, key: Str, value: Str, k: Str)
    ensures Get(SetProperty(styles, key, value), k) == if k == key then value else Get(styles, k)
  {
  }

  lemma StylesLast(styles: map<Str, Str>, entries: seq<(Str, Str)>)
    requires entries != []
    ensures StylesAfter(styles, entries)
            == SetProperty(StylesAfter(styles, entries[..|entries| - 1]), entries[|entries| - 1].0,
              entries[|entries| - 1].1)
  {
  }

  lemma {:induction false} AttrsDrained(c: Client, id: uint32, over: map<Str, Str>, msgs: seq<Msg>) returns (e': Elem)
    requires id in c.nodes && c.nodes[id] in c.heap && IsAttrs(msgs, id, over)
    ensures ApplyAll(c, msgs) == Relabelled(c, id, e')
    ensures var e := c.heap[c.nodes[id]]; e' == e.(attrs := e'.attrs) && Overlaid(e'.attrs, e.attrs, over)
  {
    var order :| IsOrder(order, over) && (forall k | k in order :: k in over)
      && msgs == AttrOps(id, Entries(order, over));
    OrderCovers(order, over);
    hide IsOrder, Entries, ApplyAll, Get, AttrsAfter;
    var e := c.heap[c.nodes[id]];
    AttrsApplied(c, id, Entries(order, over));
    e' := e.(attrs := AttrsAfter(e.attrs, Entries(order, over)));
    forall k ensures Get(e'.attrs, k) == if k in over then over[k] else Get(e.attrs, k) {
      AttrsOverlaid(e.attrs, order, over, k);
    }
  }

  lemma {:induction false} StylesDrained(c: Client, id: uint32, over: map<Str, Str>, msgs: seq<Msg>) returns (e': Elem)
    requires id in c.nodes && c.nodes[id] in c.heap && IsStyles(msgs, id, over)
    ensures ApplyAll(c, msgs) == Relabelled(c, id, e')
    ensures var e := c.heap[c.nodes[id]]; e' == e.(styles := e'.styles) && Overlaid(e'.styles, e.styles, over)
  {
    var order :| IsOrder(order, over) && (forall k | k in order :: k in over)
      && msgs == StyleOps(id, Entries(order, over));
    OrderCovers(order, over);
    hide IsOrder, Entries, ApplyAll, Get, StylesAfter;
    var e := c.heap[c.nodes[id]];
    StylesApplied(c, id, Entries(order, over));
    e' := e.(styles := StylesAfter(e.styles, Entries(order, over)));
    forall k ensures Get(e'.styles, k) == if k in over then over[k] else Get(e.styles, k) {
      StylesOverlaid(e.styles, order, over, k);
    }
  }

  /** Draining a node lays what it noted over what the client has, and touches nothing else. */
  lemma {:induction false} DrainApplied(c: Client, id: uint32, n: Mark, msgs: seq<Msg>) returns (e': Elem)
    requires id in c.nodes && c.nodes[id] in c.heap && IsDrain(msgs, id, n)
    ensures ApplyAll(c, msgs) == Relabelled(c, id, e')
    ensures var e := c.heap[c.nodes[id]];
            e' == e.(attrs := e'.attrs, styles := e'.styles)
            && Overlaid(e'.attrs, e.attrs, n.dirtyAttrs) && Overlaid(e'.styles, e.styles, n.dirtyStyles)
  {
    hide IsAttrs, IsStyles, ApplyAll, Overlaid;
    var k :| 0 <= k <= |msgs| && IsAttrs(msgs[..k], id, n.dirtyAttrs) && IsStyles(msgs[k..], id, n.dirtyStyles);
    assert msgs == msgs[..k] + msgs[k..];
    ApplyAllSplit(c, msgs[..k], msgs[k..]);
    var e1 := AttrsDrained(c, id, n.dirtyAttrs, msgs[..k]);
    e' := StylesDrained(Relabelled(c, id, e1), id, n.dirtyStyles, msgs[k..]);
  }
}
