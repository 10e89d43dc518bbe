module Mount {
  // The first mount, from the server's tree to the browser's, through the bytes
  // (Mount and emitFullTree in pkg/engine/session.go).

  import opened Seqs
  import opened Ranges
  import opened Wire
  import opened Buffers
  import opened Dom
  import opened Client
  import opened ClientWire
  import opened Trees
  import opened Emission

  /** The client receiving one message of the transport. */
  function Receive(c: Client, data: seq<byte>): Client {
    Process(c, ParseStream(data))
  }

  lemma {:induction false} EncodeAllSplit(a: seq<Msg>, b: seq<Msg>)
    ensures EncodeAll(a + b) == EncodeAll(a) + EncodeAll(b)
    decreases a
  {
    hide Body, Frame;
    if a == [] {
      assert a + b == b;
    } else {
      assert (a + b)[1..] == a[1..] + b;
      EncodeAllSplit(a[1..], b);
    }
  }

  lemma EncodeOne(m: Msg)
    ensures EncodeAll([m]) == Frame(Body(m))
  {
    assert EncodeAll([m][1..]) == [];
  }

  /** One more instruction in the buffer. */
  lemma {:induction false} EncodeSnoc(prefix: seq<byte>, msgs: seq<Msg>, m: Msg)
    ensures prefix + EncodeAll(msgs) + Frame(Body(m)) == prefix + EncodeAll(msgs + [m])
  {
    hide Body, Frame;
    EncodeAllSplit(msgs, [m]);
    EncodeOne(m);
    hide EncodeAll;
  }

  lemma EncodeFirst(prefix: seq<byte>, m: Msg)
    ensures prefix + Frame(Body(m)) == prefix + EncodeAll([m])
  {
    hide Body, Frame;
    EncodeOne(m);
  }

  lemma {:induction false} EncodeMore(prefix: seq<byte>, a: seq<Msg>, b: seq<Msg>)
    ensures prefix + EncodeAll(a) + EncodeAll(b) == prefix + EncodeAll(a + b)
  {
    EncodeAllSplit(a, b);
    hide EncodeAll;
  }

  lemma {:induction false} FullForestGrows(a: seq<Msg>, vs: seq<VNode>, b: seq<Msg>, v: VNode, parent: uint32)
    requires IsFullForest(a, vs, parent) && IsFullTree(b, v, parent)
    ensures IsFullForest(a + b, vs + [v], parent)
    decreases vs
  {
    hide IsFullTree;
    if vs == [] {
      assert (a + b)[..|b|] == b && (a + b)[|b|..] == [] && (vs + [v])[1..] == [];
      assert IsFullForest([], [], parent);
    } else {
      var k :| 0 <= k <= |a| && IsFullTree(a[..k], vs[0], parent) && IsFullForest(a[k..], vs[1..], parent);
      FullForestGrows(a[k..], vs[1..], b, v, parent);
      assert (a + b)[..k] == a[..k] && (a + b)[k..] == a[k..] + b && (vs + [v])[1..] == vs[1..] + [v];
    }
  }

  /** Writes one SetStyle per property. */
  method EmitStyles(buf: Buffer, id: uint32, styles: map<Str, Str>) returns (ghost msgs: seq<Msg>)
    modifies buf
    ensures IsStyles(msgs, id, styles) && |msgs| == |styles|
    ensures buf.buf == old(buf.buf) + EncodeAll(msgs)
  {
    hide Body, Frame, EncodeAll, Entries, StyleOps, IsOrder;
    var order := Range(styles);
    OrderCovers(order, styles);
    msgs := [];
    NothingWritten(id, styles);
    for i := 0 to |order|
      invariant forall k | k in order[..i] :: k in styles
      invariant msgs == StyleOps(id, Entries(order[..i], styles))
      invariant buf.buf == old(buf.buf) + EncodeAll(msgs)
    {
      var prop := order[i];
      buf.EncodeSetStyle(id, prop, styles[prop]);
      ghost var m := SetStyle(id, prop, styles[prop]);
      EncodeSnoc(old(buf.buf), msgs, m);
      NextEntry(order, styles, i);
      NextStyle(id, Entries(order[..i], styles), prop, styles[prop]);
      msgs := msgs + [m];
    }
    assert order[..|order|] == order;
  }

  lemma NothingWritten(id: uint32, styles: map<Str, Str>)
    ensures EncodeAll([]) == [] && StyleOps(id, Entries([], styles)) == []
  {
  }

  lemma NextStyle(id: uint32, entries: seq<(Str, Str)>, key: Str, value: Str)
    ensures StyleOps(id, entries + [(key, value)]) == StyleOps(id, entries) + [SetStyle(id, key, value)]
  {
    assert (entries + [(key, value)])[..|entries|] == entries;
  }

  lemma NextEntry(order: seq<Str>, styles: map<Str, Str>, i: nat)
    requires i < |order| && forall k | k in order :: k in styles
    ensures forall k | k in order[..i + 1] :: k in styles
    ensures Entries(order[..i + 1], styles) == Entries(order[..i], styles) + [(order[i], styles[order[i]])]
  {
    assert order[..i + 1][..i] == order[..i];
  }

  /** emitFullTree: the node, its styles, its children. */
  method EmitFullTree(buf: Buffer, v: VNode, parent: uint32) returns (ghost msgs: seq<Msg>)
    modifies buf
    ensures IsFullTree(msgs, v, parent)
    ensures buf.buf == old(buf.buf) + EncodeAll(msgs)
    decreases v
  {
    hide Body, Frame, IsStyles, IsOrder, FromPairs, EncodeAll, IsFullForest;
    EncodeNone();
    ghost var start := buf.buf;
    match v
    case VText(id, text) =>
      ghost var pairs := buf.EncodeInsertNode(id, parent, 0, TEXT_TAG, map[]);
      assert pairs == [];
      ghost var first := InsertNode(id, parent, 0, TEXT_TAG, []);
      EncodeFirst(start, first);
      buf.EncodeUpdateText(id, text);
      msgs := [first, UpdateText(id, text)];
      EncodeSnoc(start, [first], msgs[1]);
      assert [first] + [msgs[1]] == msgs;
    case VElem(id, tag, attrs, styles, children) =>
      ghost var pairs := buf.EncodeInsertNode(id, parent, 0, tag, attrs);
      ghost var first := InsertNode(id, parent, 0, tag, pairs);
      EncodeFirst(start, first);
      ghost var styled := EmitStyles(buf, id, styles);
      EncodeMore(start, [first], styled);
      ghost var below := [];
      ghost var prefix := buf.buf;
      for i := 0 to |children|
        invariant IsFullForest(below, children[..i], id)
        invariant buf.buf == prefix + EncodeAll(below)
      {
        ghost var child := EmitFullTree(buf, children[i], id);
        EncodeMore(prefix, below, child);
        FullForestGrows(below, children[..i], child, children[i], id);
        assert children[..i + 1] == children[..i] + [children[i]];
        below := below + child;
      }
      assert children[..|children|] == children;
      msgs := [first] + styled + below;
      EncodeMore(start, [first] + styled, below);
      FullElem(msgs, v, parent, first, styled, below);
  }

  /** At the start of a loop nothing is written. */
  lemma EncodeNone()
    ensures EncodeAll([]) == [] && forall vs, parent :: vs == [] ==> IsFullForest([], vs, parent)
  {
  }

  lemma {:induction false} FullElem(msgs: seq<Msg>, v: VNode, parent: uint32, first: Msg, styled: seq<Msg>,
                                    below: seq<Msg>)
    requires v.VElem? && msgs == [first] + styled + below
    requires IsInsert(first, v, parent) && IsStyles(styled, v.id, v.styles) && |styled| == |v.styles|
    requires IsFullForest(below, v.children, v.id)
    ensures IsFullTree(msgs, v, parent)
  {
    hide IsStyles;
    var n := 1 + |v.styles|;
    assert msgs[1..n] == styled && msgs[n..] == below;
  }

  // ------------------------------------------------------------------ end to end

  lemma {:induction false} FullTreeForClient(msgs: seq<Msg>, v: VNode, parent: uint32)
    requires IsFullTree(msgs, v, parent)
    ensures forall m | m in msgs :: ForClient(m)
    decreases v
  {
    if v.VElem? {
      var n := 1 + |v.styles|;
      var order :| IsOrder(order, v.styles) && (forall k | k in order :: k in v.styles)
                   && msgs[1..n] == StyleOps(v.id, Entries(order, v.styles));
      StyleOpsForClient(v.id, Entries(order, v.styles));
      FullForestForClient(msgs[n..], v.children, v.id);
      forall m | m in msgs ensures ForClient(m) {
        assert msgs == [msgs[0]] + msgs[1..n] + msgs[n..];
      }
    }
  }

  lemma {:induction false} FullForestForClient(msgs: seq<Msg>, vs: seq<VNode>, parent: uint32)
    requires IsFullForest(msgs, vs, parent)
    ensures forall m | m in msgs :: ForClient(m)
    decreases vs
  {
    hide ForClient, IsFullTree;
    if vs != [] {
      var k :| 0 <= k <= |msgs| && IsFullTree(msgs[..k], vs[0], parent) && IsFullForest(msgs[k..], vs[1..], parent);
      FullTreeForClient(msgs[..k], vs[0], parent);
      FullForestForClient(msgs[k..], vs[1..], parent);
      assert msgs == msgs[..k] + msgs[k..];
    }
  }

  lemma {:induction false} StyleOpsForClient(id: uint32, entries: seq<(Str, Str)>)
    ensures forall m | m in StyleOps(id, entries) :: ForClient(m)
    decreases entries
  {
    if entries != [] {
      StyleOpsForClient(id, entries[..|entries| - 1]);
    }
  }

  /** An empty client that starts a batch takes a root node at once. */
  lemma {:induction false} EmptyTakes(id: uint32)
    requires id != 0
    ensures Valid(Begin(EMPTY)) && Goes(Begin(EMPTY), 0, Below(ROOT))
    ensures forall ids: set<uint32> | 0 !in ids :: Unseen(Begin(EMPTY), ids)
  {
  }

  /**
   Whatever order the attributes and styles are written in, the bytes of the
   first mount turn an empty page into the server's tree: every id, tag,
   attribute, style, text and child order, and a registry of exactly its ids.
   */
  lemma {:induction false} MountEndToEnd(v: VNode, msgs: seq<Msg>)
    requires Proper(v) && IsFullTree(msgs, v, 0) && AllFit(msgs)
    ensures var c := Receive(EMPTY, EncodeAll(msgs));
            && c.nodes.Keys == Ids(v)
            && Shows(c.heap, c.nodes, Mounted(v))
            && Kids(c.heap, ROOT) == [c.nodes[v.id]]
            && Valid(c) && c.depth == 0 && c.deferred == []
  {
    hide Valid, Body, Frame, ForClient, Shows, IsFullTree, Fits;
    FullTreeForClient(msgs, v, 0);
    assert forall m | m in msgs :: ForClient(m) && Fits(m);
    ParseStreamBack(msgs);
    EmptyTakes(v.id);
    ProperNonZero(v);
    var c := Begin(EMPTY);
    FullTreeBuilds(c, v, 0, msgs, Below(ROOT));
    var c1 := ApplyAll(c, msgs);
    BuiltOnRoot(c1, v);
    assert Flush(c1.(depth := 0)) == c1.(depth := 0);
  }

  lemma {:induction false} BuiltOnRoot(c1: Client, v: VNode)
    requires Built(Begin(EMPTY), c1, [Mounted(v)], Below(ROOT))
    ensures c1.depth == 1 && c1.deferred == [] && Valid(c1.(depth := 0))
    ensures c1.nodes.Keys == Ids(v) && v.id in c1.nodes
    ensures Shows(c1.heap, c1.nodes, Mounted(v))
    ensures Kids(c1.heap, ROOT) == [c1.nodes[v.id]]
  {
    var m := Mounted(v);
    assert [m][1..] == [] && IdsOf([m]) == Ids(v);
    assert Begin(EMPTY).heap == map[ROOT := BLANK];
    ShowsOne(c1.heap, c1.nodes, m, Some(ROOT));
    assert Refs(c1.nodes, [m]) == [RefOf(c1.nodes, v.id)];
  }
}
