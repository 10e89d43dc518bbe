module Emission {
  // What the server sends for a whole subtree: emitInsertTree
  // (pkg/dom/reactive.go) and emitFullTree (pkg/engine/session.go), and what the
  // client makes of it.

  import opened Seqs
  import opened Ranges
  import opened Wire
  import opened Dom
  import opened Client
  import opened Trees

  /** An InsertNode for `v` below `parent`, its attributes in any order. */
  ghost predicate IsInsert(m: Msg, v: VNode, parent: uint32)
    requires v.VElem?
  {
    m.InsertNode? && m == InsertNode(v.id, parent, 0, v.tag, m.attrs) && FromPairs(m.attrs) == v.attrs
  }

  /** `msgs` is what emitInsertTree may write for `v`. */
  ghost predicate IsInsertTree(msgs: seq<Msg>, v: VNode, parent: uint32)
    decreases v
  {
    match v
    case VText(id, text) => msgs == [InsertText(id, parent, text)]
    case VElem(id, _, _, _, children) =>
      msgs != [] && IsInsert(msgs[0], v, parent) && IsInsertForest(msgs[1..], children, id)
  }

  ghost predicate IsInsertForest(msgs: seq<Msg>, vs: seq<VNode>, parent: uint32)
    decreases vs
  {
    if vs == [] then msgs == []
    else exists k ::
          0 <= k <= |msgs| && IsInsertTree(msgs[..k], vs[0], parent) && IsInsertForest(msgs[k..], vs[1..], parent)
  }

  /** `v` as emitInsertTree conveys it: it never sends styles. */
  function Unstyled(v: VNode): (r: VNode)
    ensures r.id == v.id && Ids(r) == Ids(v)
    decreases v
  {
    match v
    case VText(_, _) => v
    case VElem(id, tag, attrs, _, children) => VElem(id, tag, attrs, map[], UnstyledAll(children))
  }

  function UnstyledAll(vs: seq<VNode>): (r: seq<VNode>)
    ensures |r| == |vs| && IdsOf(r) == IdsOf(vs)
    ensures forall i | 0 <= i < |vs| :: r[i] == Unstyled(vs[i])
    decreases vs
  {
    if vs == [] then [] else [Unstyled(vs[0])] + UnstyledAll(vs[1..])
  }

  lemma {:induction false} UnstyledProper(v: VNode)
    requires Proper(v)
    ensures Proper(Unstyled(v))
    decreases v
  {
    if v.VElem? {
      UnstyledProperAll(v.children);
    }
  }

  lemma {:induction false} UnstyledProperAll(vs: seq<VNode>)
    requires ProperAll(vs)
    ensures ProperAll(UnstyledAll(vs))
    decreases vs
  {
    if vs != [] {
      UnstyledProper(vs[0]);
      UnstyledProperAll(vs[1..]);
      assert UnstyledAll(vs)[1..] == UnstyledAll(vs[1..]);
    }
  }

  /** Ids that neither the registry nor the snapshot knows. */
  ghost predicate Unseen(c: Client, ids: set<uint32>) {
    ids !! c.nodes.Keys && ids !! c.existing && 0 !in ids
  }

  /** The instructions of emitInsertTree build `v`, without its styles, where its parent id says. */
  lemma {:induction false} InsertTreeBuilds(c: Client, v: VNode, parent: uint32, msgs: seq<Msg>, at: Spot)
    requires Valid(c) && Proper(v) && Unseen(c, Ids(v)) && parent !in Ids(v) && Goes(c, parent, at)
    requires IsInsertTree(msgs, v, parent)
    ensures Built(c, ApplyAll(c, msgs), [Unstyled(v)], at)
    decreases v
  {
    hide Valid, Built, Goes, Place, Create;
    assert v.id in Ids(v);
    var c1 := Apply(c, msgs[0]);
    assert ApplyAll(c, msgs) == ApplyAll(c1, msgs[1..]);
    match v
    case VText(id, text) =>
      NodeBuilt(c, v, NewText(text), parent, at);
      assert msgs[1..] == [];
    case VElem(id, tag, attrs, _, children) =>
      var bare := VElem(id, tag, attrs, map[], []);
      GoesInHeap(c, parent, at);
      NodeBuilt(c, bare, NewElem(id, tag, attrs), parent, at);
      Nested(c, c1, bare, at, IdsOf(children));
      InsertForestBuilds(c1, children, id, msgs[1..], Below(c1.nodes[id]));
      UnstyledProper(v);
      Graft(c, c1, ApplyAll(c1, msgs[1..]), Unstyled(v), at);
  }

  lemma GoesInHeap(c: Client, parent: uint32, at: Spot)
    requires Goes(c, parent, at)
    ensures c.depth > 0 && (at.Below? ==> at.ref in c.heap)
  {
  }

  /** Below the node just built, fresh children are attached at once. */
  lemma {:induction false} Nested(c: Client, c1: Client, bare: VNode, at: Spot, ids: set<uint32>)
    requires Built(c, c1, [bare], at) && VKids(bare) == [] && c.depth > 0
    requires Unseen(c, {bare.id} + ids) && bare.id !in ids
    ensures Valid(c1) && bare.id in c1.nodes
    ensures Unseen(c1, ids) && Goes(c1, bare.id, Below(c1.nodes[bare.id]))
  {
    hide Valid, Placed, Goes;
    assert [bare][1..] == [] && IdsOf([bare]) == {bare.id};
    NestedSpot(c1, bare.id);
  }

  lemma {:induction false} NestedSpot(c: Client, id: uint32)
    requires Valid(c) && id in c.nodes && c.depth > 0 && id !in c.existing
    ensures Goes(c, id, Below(c.nodes[id]))
  {
  }

  lemma {:induction false} InsertSplit(msgs: seq<Msg>, vs: seq<VNode>, parent: uint32)
    returns (front: seq<Msg>, rest: seq<Msg>)
    requires IsInsertForest(msgs, vs, parent) && vs != []
    ensures msgs == front + rest && IsInsertTree(front, vs[0], parent) && IsInsertForest(rest, vs[1..], parent)
  {
    hide IsInsertTree;
    var k :| 0 <= k <= |msgs| && IsInsertTree(msgs[..k], vs[0], parent) && IsInsertForest(msgs[k..], vs[1..], parent);
    front, rest := msgs[..k], msgs[k..];
  }

  lemma {:induction false} InsertForestBuilds(c: Client, vs: seq<VNode>, parent: uint32, msgs: seq<Msg>, at: Spot)
    requires Valid(c) && ProperAll(vs) && Unseen(c, IdsOf(vs)) && parent !in IdsOf(vs) && Goes(c, parent, at)
    requires IsInsertForest(msgs, vs, parent)
    ensures Built(c, ApplyAll(c, msgs), UnstyledAll(vs), at)
    decreases vs
  {
    hide Valid, Built, Goes, Apply, IsInsertTree, Proper;
    GoesInHeap(c, parent, at);
    if vs == [] {
      BuiltNone(c, at);
    } else {
      var front, rest := InsertSplit(msgs, vs, parent);
      hide IsInsertForest;
      ApplyAllSplit(c, front, rest);
      InsertTreeBuilds(c, vs[0], parent, front, at);
      var c1 := ApplyAll(c, front);
      StillGoes(c, c1, Unstyled(vs[0]), parent, at, IdsOf(vs[1..]));
      InsertForestBuilds(c1, vs[1..], parent, rest, at);
      UnstyledProper(vs[0]);
      BuiltSeq(c, c1, ApplyAll(c, msgs), Unstyled(vs[0]), UnstyledAll(vs[1..]), at);
    }
  }

  /** Building one tree leaves the spot and the other ids as they were. */
  lemma {:induction false} StillGoes(c: Client, c1: Client, v: VNode, parent: uint32, at: Spot, ids: set<uint32>)
    requires Built(c, c1, [v], at) && Goes(c, parent, at) && parent !in Ids(v)
    requires Unseen(c, Ids(v) + ids) && Ids(v) !! ids
    ensures Valid(c1) && Goes(c1, parent, at) && Unseen(c1, ids)
  {
    assert [v][1..] == [] && IdsOf([v]) == Ids(v);
    hide Valid, Shows, ShowsAll, Ids, IdsOf, Refs, DeferAll;
    assert c1.nodes.Keys == c.nodes.Keys + Ids(v) && c1.existing == c.existing;
    assert parent in c1.nodes <==> parent in c.nodes;
  }

  // ------------------------------------------------------------ the first mount

  function StyleOps(id: uint32, entries: seq<(Str, Str)>): (r: seq<Msg>)
    ensures |r| == |entries|
  {
    if entries == [] then []
    else StyleOps(id, entries[..|entries| - 1]) + [SetStyle(id, entries[|entries| - 1].0, entries[|entries| - 1].1)]
  }

  /** One SetStyle per property, in any order. */
  ghost predicate IsStyles(msgs: seq<Msg>, id: uint32, styles: map<Str, Str>) {
    exists order :: IsOrder(order, styles) && (forall k | k in order :: k in styles)
                    && msgs == StyleOps(id, Entries(order, styles))
  }

  /** `msgs` is what emitFullTree may write for `v`. */
  ghost predicate IsFullTree(msgs: seq<Msg>, v: VNode, parent: uint32)
    decreases v
  {
    match v
    case VText(id, text) => msgs == [InsertNode(id, parent, 0, TEXT_TAG, []), UpdateText(id, text)]
    case VElem(id, _, _, styles, children) =>
      var n := 1 + |styles|;
      && n <= |msgs|
      && IsInsert(msgs[0], v, parent)
      && IsStyles(msgs[1..n], id, styles)
      && IsFullForest(msgs[n..], children, id)
  }

  ghost predicate IsFullForest(msgs: seq<Msg>, vs: seq<VNode>, parent: uint32)
    decreases vs
  {
    if vs == [] then msgs == []
    else exists k ::
          0 <= k <= |msgs| && IsFullTree(msgs[..k], vs[0], parent) && IsFullForest(msgs[k..], vs[1..], parent)
  }

  function NonEmpty(m: map<Str, Str>): map<Str, Str> {
    map k | k in m && m[k] != [] :: m[k]
  }

  /** `v` as the browser shows it after a mount: a property set to "" is no property. */
  function Mounted(v: VNode): (r: VNode)
    ensures r.id == v.id && Ids(r) == Ids(v)
    decreases v
  {
    match v
    case VText(_, _) => v
    case VElem(id, tag, attrs, styles, children) => VElem(id, tag, attrs, NonEmpty(styles), MountedAll(children))
  }

  function MountedAll(vs: seq<VNode>): (r: seq<VNode>)
    ensures |r| == |vs| && IdsOf(r) == IdsOf(vs)
    ensures forall i | 0 <= i < |vs| :: r[i] == Mounted(vs[i])
    decreases vs
  {
    if vs == [] then [] else [Mounted(vs[0])] + MountedAll(vs[1..])
  }

  lemma {:induction false} MountedProper(v: VNode)
    requires Proper(v)
    ensures Proper(Mounted(v))
    decreases v
  {
    if v.VElem? {
      MountedProperAll(v.children);
    }
  }

  lemma {:induction false} MountedProperAll(vs: seq<VNode>)
    requires ProperAll(vs)
    ensures ProperAll(MountedAll(vs))
    decreases vs
  {
    if vs != [] {
      MountedProper(vs[0]);
      MountedProperAll(vs[1..]);
      assert MountedAll(vs)[1..] == MountedAll(vs[1..]);
    }
  }

  /** The style instructions of a node just built give it its styles. */
  lemma {:induction false} StylesBuilt(c: Client, c1: Client, v: VNode, at: Spot, order: seq<Str>,
                                       styles: map<Str, Str>)
    requires Valid(c) && Built(c, c1, [v], at) && v.VElem? && v.children == [] && v.styles == map[]
    requires at.Below? ==> at.ref in c.heap
    requires forall k | k in order :: k in styles
    ensures Built(c, ApplyAll(c1, StyleOps(v.id, Entries(order, styles))),
                  [v.(styles := NonEmpty(map k | k in order :: styles[k]))], at)
    decreases order
  {
    hide Valid, Built, Apply, SetProperty, NonEmpty, IsOrder;
    StyleStep(order, styles);
    if order != [] {
      var front, last := order[..|order| - 1], order[|order| - 1];
      var entries := Entries(order, styles);
      assert entries[..|entries| - 1] == Entries(front, styles);
      StylesBuilt(c, c1, v, at, front, styles);
      var ops := StyleOps(v.id, Entries(front, styles));
      var m := SetStyle(v.id, last, styles[last]);
      ApplyAllSplit(c1, ops, [m]);
      var c2 := ApplyAll(c1, ops);
      ApplyCons(c2, [m]);
      OneStyle(c, c2, v.(styles := NonEmpty(map k | k in front :: styles[k])), at, last, styles[last]);
    }
  }

  /** Setting one property more. */
  lemma {:induction false} StyleStep(order: seq<Str>, styles: map<Str, Str>)
    requires forall k | k in order :: k in styles
    ensures if order == [] then NonEmpty(map k | k in order :: styles[k]) == map[]
            else var front, last := order[..|order| - 1], order[|order| - 1];
                 (forall k | k in front :: k in styles) &&
                 SetProperty(NonEmpty(map k | k in front :: styles[k]), last, styles[last])
                 == NonEmpty(map k | k in order :: styles[k])
  {
    if order != [] {
      var front, last := order[..|order| - 1], order[|order| - 1];
      assert order == front + [last];
      assert forall k :: k in order <==> k in front || k == last;
    }
  }

  lemma {:induction false} OneStyle(c: Client, c1: Client, v: VNode, at: Spot, key: Str, value: Str)
    requires Valid(c) && Built(c, c1, [v], at) && v.VElem? && v.children == []
    requires at.Below? ==> at.ref in c.heap
    ensures Built(c, Apply(c1, SetStyle(v.id, key, value)), [v.(styles := SetProperty(v.styles, key, value))], at)
  {
    hide Valid, Built, SetProperty, Labelled;
    BareShown(c, c1, v, at);
    var e := Registered(c1, v.id);
    var e', v' := e.(styles := SetProperty(e.styles, key, value)), v.(styles := SetProperty(v.styles, key, value));
    StyleLabelled(e, v, key, value);
    RelabelBuilt(c, c1, v, v', at, e');
    StyleSet(c1, v.id, key, value);
    hide Apply;
  }

  lemma StyleLabelled(e: Elem, v: VNode, key: Str, value: Str)
    requires v.VElem? && Labelled(e, v)
    ensures Labelled(e.(styles := SetProperty(e.styles, key, value)), v.(styles := SetProperty(v.styles, key, value)))
  {
    hide SetProperty;
  }

  lemma StyleSet(c: Client, id: uint32, key: Str, value: Str)
    requires id in c.nodes
    ensures var e := Registered(c, id);
            Apply(c, SetStyle(id, key, value))
            == c.(heap := c.heap[c.nodes[id] := e.(styles := SetProperty(e.styles, key, value))])
  {
    hide SetProperty;
  }

  lemma {:induction false} BareShown(c: Client, c1: Client, v: VNode, at: Spot)
    requires Built(c, c1, [v], at)
    ensures v.id in c1.nodes && Labelled(Registered(c1, v.id), v)
  {
    hide Valid, Extends, Registers, Labelled;
    ShowsOne(c1.heap, c1.nodes, v, if at.Below? then Some(at.ref) else None);
  }

  lemma {:induction false} TextBuilt(c: Client, v: VNode, parent: uint32, at: Spot)
    requires Valid(c) && v.VText? && v.id !in c.nodes && parent != v.id && Goes(c, parent, at)
    ensures Built(c, ApplyAll(c, [InsertNode(v.id, parent, 0, TEXT_TAG, []), UpdateText(v.id, v.text)]), [v], at)
  {
    hide Valid, Built, Goes, Place, Create, DetachAll, Append;
    var msgs := [InsertNode(v.id, parent, 0, TEXT_TAG, []), UpdateText(v.id, v.text)];
    var blank := VText(v.id, []);
    NodeBuilt(c, blank, NewElem(v.id, TEXT_TAG, map[]), parent, at);
    var c1 := Apply(c, msgs[0]);
    BareShown(c, c1, blank, at);
    GoesInHeap(c, parent, at);
    RelabelBuilt(c, c1, blank, v, at, Registered(c1, v.id).(text := v.text));
    ApplyCons(c, msgs);
  }

  /** The instructions of emitFullTree build the whole tree, styles included. */
  lemma {:induction false} FullTreeBuilds(c: Client, v: VNode, parent: uint32, msgs: seq<Msg>, at: Spot)
    requires Valid(c) && Proper(v) && Unseen(c, Ids(v)) && parent !in Ids(v) && Goes(c, parent, at)
    requires IsFullTree(msgs, v, parent)
    ensures Built(c, ApplyAll(c, msgs), [Mounted(v)], at)
    decreases v
  {
    hide Valid, Built, Goes, Apply, IsStyles, Unseen;
    match v
    case VText(_, _) =>
      UnseenIds(c, Ids(v), v.id);
      TextBuilt(c, v, parent, at);
    case VElem(id, tag, attrs, styles, children) =>
      var n := 1 + |styles|;
      var c2 := ApplyAll(c, msgs[..n]);
      StyledBuilt(c, v, parent, msgs[..n], at);
      var styled := VElem(id, tag, attrs, NonEmpty(styles), []);
      assert msgs == msgs[..n] + msgs[n..];
      ApplyAllSplit(c, msgs[..n], msgs[n..]);
      GoesInHeap(c, parent, at);
      Nested(c, c2, styled, at, IdsOf(children));
      FullForestBuilds(c2, children, id, msgs[n..], Below(c2.nodes[id]));
      MountedProper(v);
      Graft(c, c2, ApplyAll(c2, msgs[n..]), Mounted(v), at);
  }

  lemma UnseenIds(c: Client, ids: set<uint32>, id: uint32)
    requires Unseen(c, ids) && id in ids
    ensures id !in c.nodes
  {
  }

  /** An element, then its styles. */
  lemma {:induction false} StyledBuilt(c: Client, v: VNode, parent: uint32, msgs: seq<Msg>, at: Spot)
    requires Valid(c) && v.VElem? && Unseen(c, Ids(v)) && parent !in Ids(v) && Goes(c, parent, at) && v.tag != TEXT_TAG
    requires |msgs| == 1 + |v.styles| && IsInsert(msgs[0], v, parent) && IsStyles(msgs[1..], v.id, v.styles)
    ensures Built(c, ApplyAll(c, msgs), [VElem(v.id, v.tag, v.attrs, NonEmpty(v.styles), [])], at)
  {
    hide Valid, Built, Goes, ApplyAll, NonEmpty, FromPairs, IsOrder, Apply;
    GoesInHeap(c, parent, at);
    var bare := VElem(v.id, v.tag, v.attrs, map[], []);
    BareBuilt(c, v, parent, msgs[0], at);
    var order :| IsOrder(order, v.styles) && (forall k | k in order :: k in v.styles)
                 && msgs[1..] == StyleOps(v.id, Entries(order, v.styles));
    OrderCovers(order, v.styles);
    StylesBuilt(c, Apply(c, msgs[0]), bare, at, order, v.styles);
    assert (map k | k in order :: v.styles[k]) == v.styles;
    ApplyCons(c, msgs);
  }

  lemma {:induction false} BareBuilt(c: Client, v: VNode, parent: uint32, m: Msg, at: Spot)
    requires Valid(c) && v.VElem? && Unseen(c, Ids(v)) && parent !in Ids(v) && Goes(c, parent, at) && v.tag != TEXT_TAG
    requires IsInsert(m, v, parent)
    ensures Built(c, Apply(c, m), [VElem(v.id, v.tag, v.attrs, map[], [])], at)
  {
    hide Valid, Built, Goes, Place, Create, FromPairs;
    assert v.id in Ids(v);
    NodeBuilt(c, VElem(v.id, v.tag, v.attrs, map[], []), NewElem(v.id, v.tag, v.attrs), parent, at);
  }

  lemma {:induction false} FullSplit(msgs: seq<Msg>, vs: seq<VNode>, parent: uint32)
    returns (front: seq<Msg>, rest: seq<Msg>)
    requires IsFullForest(msgs, vs, parent) && vs != []
    ensures msgs == front + rest && IsFullTree(front, vs[0], parent) && IsFullForest(rest, vs[1..], parent)
  {
    hide IsFullTree;
    var k :| 0 <= k <= |msgs| && IsFullTree(msgs[..k], vs[0], parent) && IsFullForest(msgs[k..], vs[1..], parent);
    front, rest := msgs[..k], msgs[k..];
  }

  lemma {:induction false} FullForestBuilds(c: Client, vs: seq<VNode>, parent: uint32, msgs: seq<Msg>, at: Spot)
    requires Valid(c) && ProperAll(vs) && Unseen(c, IdsOf(vs)) && parent !in IdsOf(vs) && Goes(c, parent, at)
    requires IsFullForest(msgs, vs, parent)
    ensures Built(c, ApplyAll(c, msgs), MountedAll(vs), at)
    decreases vs
  {
    hide Valid, Built, Goes, Apply, IsFullTree, Proper;
    GoesInHeap(c, parent, at);
    if vs == [] {
      BuiltNone(c, at);
    } else {
      var front, rest := FullSplit(msgs, vs, parent);
      hide IsFullForest;
      ApplyAllSplit(c, front, rest);
      FullTreeBuilds(c, vs[0], parent, front, at);
      var c1 := ApplyAll(c, front);
      StillGoes(c, c1, Mounted(vs[0]), parent, at, IdsOf(vs[1..]));
      FullForestBuilds(c1, vs[1..], parent, rest, at);
      MountedProper(vs[0]);
      BuiltSeq(c, c1, ApplyAll(c, msgs), Mounted(vs[0]), MountedAll(vs[1..]), at);
    }
  }
}
