/**
 Streams on which the client's batch loop may be run: no insertion names the node
 itself as its parent. All the server's streams are of this kind.
 */
module Orderliness {
  import opened Seqs
  import opened Ranges
  import opened Wire
  import opened Codec
  import opened Dom
  import opened Client
  import opened Trees
  import opened Emission
  import opened ClientWire
  import opened Dirty
  import opened Diffs
  import Deferral
  import Reconcile
  import opened FlipStreams
  import Lines = ForClient
  import Machines
  import Orders
  import Links
  import Branches
  import DiffTree
  import ForAgreement
  import Mount
  import ForUpdate

  predicate NoSelf(m: Msg)
    decreases m
  {
    match m
    case InsertNode(node, parent, _, _, _) => node != parent
    case InsertText(node, parent, _) => node != parent
    case Batch(children) => forall c | c in children :: NoSelf(c)
    case _ => true
  }

  /** Nothing put off waits for itself. */
  ghost predicate Apart(c: Client) {
    forall d | d in c.deferred :: d.node != d.parent
  }

  lemma {:induction false} PlaceApart(c: Client, id: uint32, e: Elem, parent: uint32, sibling: uint32)
    requires Apart(c) && id != parent
    ensures Apart(Place(Create(c, id, e), id, c.next, parent, sibling))
  {
    hide Append, InsertBefore;
  }

  lemma {:induction false} InsertApart(c: Client, id: uint32, parent: uint32, sibling: uint32, tag: Str,
                                       attrs: map<Str, Str>)
    requires Apart(c) && id != parent
    ensures Apart(Insert(c, id, parent, sibling, tag, attrs))
  {
    PlaceApart(c, id, NewElem(id, tag, attrs), parent, sibling);
    hide Append, InsertBefore, Detach, Place;
  }

  lemma {:induction false} SetTextsSame(c: Client, updates: seq<(uint32, Str)>)
    ensures SetTexts(c, updates).deferred == c.deferred
    decreases updates
  {
    hide DetachAll, Append;
    if updates != [] {
      SetTextsSame(SetText(c, updates[0].0, updates[0].1), updates[1..]);
    }
  }

  lemma {:induction false} OthersSame(c: Client, m: Msg)
    requires !m.InsertNode? && !m.InsertText? && !m.Batch?
    ensures Apply(c, m).deferred == c.deferred
  {
    hide DetachAll, Append, SwapRefs, Detach, IdsBelow, SetProperty, SetTexts;
    if m.BatchText? {
      SetTextsSame(c, m.updates);
    }
  }

  lemma {:induction false} ApplyApart(c: Client, m: Msg)
    requires Apart(c) && NoSelf(m) && c.depth > 0
    ensures Apart(Apply(c, m))
    decreases m
  {
    match m
    case InsertNode(node, parent, sibling, tag, attrs) =>
      hide Insert;
      InsertApart(c, node, parent, sibling, tag, FromPairs(attrs));
    case InsertText(node, parent, text) =>
      hide Place, Create;
      PlaceApart(c, node, NewText(text), parent, 0);
    case Batch(children) =>
      hide ApplyAll, Flush;
      ApplyAllApart(Begin(c), children);
    case _ => OthersSame(c, m);
  }

  lemma {:induction false} ApplyAllApart(c: Client, msgs: seq<Msg>)
    requires Apart(c) && c.depth > 0 && forall m | m in msgs :: NoSelf(m)
    ensures Apart(ApplyAll(c, msgs))
    decreases msgs
  {
    hide Apply, Apart, NoSelf;
    if msgs != [] {
      assert msgs[0] in msgs;
      ApplyApart(c, msgs[0]);
      ApplyAllApart(Apply(c, msgs[0]), msgs[1..]);
    }
  }

  /** Whatever bytes an idle client with a proper page receives, without such insertions among them. */
  lemma {:induction false} StreamOrderly(c: Client, data: seq<byte>)
    requires Valid(c) && c.depth == 0 && forall m | m in ParseStream(data) :: NoSelf(m)
    ensures Machines.Orderly(c, data)
  {
    var msgs := ParseStream(data);
    Orders.BeginValid(c);
    assert Apart(Begin(c));
    hide Valid, ApplyAll, ParseStream, NoSelf;
    Orders.ApplyAllValid(Begin(c), msgs);
    ApplyAllApart(Begin(c), msgs);
  }

  // ----------------------------------------------------------- what the server sends

  /** An instruction of the client's, without itself as a parent. */
  predicate Sendable(m: Msg) {
    ClientWire.ForClient(m) && NoSelf(m)
  }

  /** The bytes of such instructions are read back, and the batch loop may be run on them. */
  lemma {:induction false} WrittenOrderly(c: Client, msgs: seq<Msg>)
    requires Valid(c) && c.depth == 0 && AllFit(msgs) && forall m | m in msgs :: Sendable(m)
    ensures ParseStream(EncodeAll(msgs)) == msgs && Machines.Orderly(c, EncodeAll(msgs))
  {
    hide Valid, ClientWire.ForClient, NoSelf, Fits, Body, Frame;
    assert forall m | m in msgs :: ClientWire.ForClient(m) && NoSelf(m) && Fits(m);
    ParseStreamBack(msgs);
    hide EncodeAll, ParseStream, Machines.Orderly;
    StreamOrderly(c, EncodeAll(msgs));
  }

  lemma {:induction false} InsertTreeSends(msgs: seq<Msg>, v: VNode, parent: uint32)
    requires IsInsertTree(msgs, v, parent) && Proper(v) && parent !in Ids(v)
    ensures forall m | m in msgs :: Sendable(m)
    decreases v
  {
    assert v.id in Ids(v);
    if v.VElem? {
      InsertForestSends(msgs[1..], v.children, v.id);
      assert msgs == [msgs[0]] + msgs[1..];
    }
  }

  lemma {:induction false} InsertForestSends(msgs: seq<Msg>, vs: seq<VNode>, parent: uint32)
    requires IsInsertForest(msgs, vs, parent) && ProperAll(vs) && parent !in IdsOf(vs)
    ensures forall m | m in msgs :: Sendable(m)
    decreases vs
  {
    hide Sendable, IsInsertTree, Proper, Ids;
    if vs != [] {
      var front, rest := InsertSplit(msgs, vs, parent);
      InsertTreeSends(front, vs[0], parent);
      InsertForestSends(rest, vs[1..], parent);
    }
  }

  lemma {:induction false} StylesSend(msgs: seq<Msg>, id: uint32, styles: map<Str, Str>)
    requires IsStyles(msgs, id, styles)
    ensures forall m | m in msgs :: Sendable(m)
  {
    var order :| IsOrder(order, styles) && (forall k | k in order :: k in styles)
      && msgs == StyleOps(id, Entries(order, styles));
    LabelOpsSend(id, Entries(order, styles));
  }

  lemma {:induction false} LabelOpsSend(id: uint32, entries: seq<(Str, Str)>)
    ensures forall m | m in StyleOps(id, entries) :: Sendable(m)
    ensures forall m | m in AttrOps(id, entries) :: Sendable(m)
    ensures forall m | m in SetOps(id, entries) :: Sendable(m)
    decreases entries
  {
    if entries != [] {
      LabelOpsSend(id, entries[..|entries| - 1]);
    }
  }

  lemma {:induction false} RemoveOpsSend(id: uint32, keys: seq<Str>)
    ensures forall m | m in RemoveOps(id, keys) :: Sendable(m)
    decreases keys
  {
    if keys != [] {
      RemoveOpsSend(id, keys[..|keys| - 1]);
    }
  }

  /** A first mount. */
  lemma {:induction false} FullTreeSends(msgs: seq<Msg>, v: VNode, parent: uint32)
    requires IsFullTree(msgs, v, parent) && Proper(v) && parent !in Ids(v)
    ensures forall m | m in msgs :: Sendable(m)
    decreases v
  {
    assert v.id in Ids(v);
    if v.VText? {
      TextSends(msgs, v, parent);
    } else {
      var own, below := FullParts(msgs, v, parent);
      ElemChildren(v);
      hide Sendable, IsFullTree, IsFullForest, Proper, Ids;
      OwnFullSends(own, v, parent);
      FullForestSends(below, v.children, v.id);
    }
  }

  lemma TextSends(msgs: seq<Msg>, v: VNode, parent: uint32)
    requires v.VText? && IsFullTree(msgs, v, parent) && v.id != parent
    ensures forall m | m in msgs :: Sendable(m)
  {
  }

  lemma ElemChildren(v: VNode)
    requires v.VElem? && Proper(v)
    ensures ProperAll(v.children) && v.id !in IdsOf(v.children)
  {
  }

  lemma {:induction false} FullParts(msgs: seq<Msg>, v: VNode, parent: uint32) returns (own: seq<Msg>, below: seq<Msg>)
    requires v.VElem? && IsFullTree(msgs, v, parent)
    ensures msgs == own + below && IsFullForest(below, v.children, v.id)
    ensures own != [] && IsInsert(own[0], v, parent) && IsStyles(own[1..], v.id, v.styles)
  {
    var n := 1 + |v.styles|;
    own, below := msgs[..n], msgs[n..];
    assert own[1..] == msgs[1..n];
    hide IsFullForest, IsStyles, IsInsert;
  }

  lemma {:induction false} OwnFullSends(own: seq<Msg>, v: VNode, parent: uint32)
    requires v.VElem? && own != [] && IsInsert(own[0], v, parent) && IsStyles(own[1..], v.id, v.styles)
             && v.id != parent
    ensures forall m | m in own :: Sendable(m)
  {
    FirstSends(own[0], v, parent);
    hide Sendable, IsStyles;
    StylesSend(own[1..], v.id, v.styles);
    assert own == [own[0]] + own[1..];
  }

  lemma FirstSends(m: Msg, v: VNode, parent: uint32)
    requires v.VElem? && IsInsert(m, v, parent) && v.id != parent
    ensures Sendable(m)
  {
  }

  lemma {:induction false} FullForestSends(msgs: seq<Msg>, vs: seq<VNode>, parent: uint32)
    requires IsFullForest(msgs, vs, parent) && ProperAll(vs) && parent !in IdsOf(vs)
    ensures forall m | m in msgs :: Sendable(m)
    decreases vs
  {
    hide Sendable, IsFullTree, Proper, Ids;
    if vs != [] {
      var front, rest := FullSplit(msgs, vs, parent);
      FullTreeSends(front, vs[0], parent);
      FullForestSends(rest, vs[1..], parent);
    }
  }

  /** The flips of a container. */
  lemma {:induction false} FlipsSend(msgs: seq<Msg>, container: uint32, cur: Option<VNode>, bs: seq<Option<VNode>>,
                                     pool: seq<VNode>)
    requires FlipStream(msgs, container, cur, bs) && Branches.InPool(bs, pool) && ProperAll(pool)
             && container !in IdsOf(pool)
    ensures forall m | m in msgs :: Sendable(m)
    decreases bs
  {
    if bs != [] {
      var rest := StreamSplit(msgs, container, cur, bs);
      assert forall m | m in Drop(cur) :: Sendable(m);
      var show, more := ShowSplit(rest, container, bs);
      hide FlipStream, FlipsFrom;
      assert bs[0] in bs;
      ShowSends(show, bs[0], container, ParentAtFlush(container, bs), pool);
      hide Sendable, Drop, ProperAll, IdsOf, IsShow;
      FlipsSend(more, container, bs[0], bs[1..], pool);
    }
  }

  lemma {:induction false} ShowSends(msgs: seq<Msg>, b: Option<VNode>, container: uint32, parent: uint32,
                                     pool: seq<VNode>)
    requires IsShow(msgs, b, parent) && (b.Some? ==> b.value in pool) && ProperAll(pool) && container !in IdsOf(pool)
    requires parent == container || parent == 0
    ensures forall m | m in msgs :: Sendable(m)
  {
    hide Sendable, IsInsertTree;
    if b.Some? {
      Lines.MemberOf(pool, b.value);
      InsertTreeSends(msgs, b.value, parent);
    }
  }

  /** The instructions of a list update. */
  lemma {:induction false} WritesSend(msgs: seq<Msg>, ops: seq<Reconcile.Op>, container: uint32, all: seq<VNode>)
    requires ForUpdate.WritesAll(msgs, ops, container) && ProperAll(all) && container !in IdsOf(all)
    requires forall op | op in ops :: (op.Move? ==> op.moved in all) && (op.Insert? ==> op.added in all)
    ensures forall m | m in msgs :: Sendable(m)
    decreases ops
  {
    if ops != [] {
      var k :| 0 <= k <= |msgs| && ForUpdate.Writes(msgs[..k], ops[0], container)
               && ForUpdate.WritesAll(msgs[k..], ops[1..], container);
      assert msgs == msgs[..k] + msgs[k..] && ops[0] in ops;
      OneSends(msgs[..k], ops[0], container, all);
      hide Sendable, ForUpdate.Writes, ProperAll, IdsOf;
      WritesSend(msgs[k..], ops[1..], container, all);
    }
  }

  lemma {:induction false} OneSends(msgs: seq<Msg>, op: Reconcile.Op, container: uint32, all: seq<VNode>)
    requires ForUpdate.Writes(msgs, op, container) && ProperAll(all) && container !in IdsOf(all)
    requires (op.Move? ==> op.moved in all) && (op.Insert? ==> op.added in all)
    ensures forall m | m in msgs :: Sendable(m)
  {
    match op
    case Insert(x) =>
      Lines.MemberOf(all, x);
      InsertTreeSends(msgs, x, container);
    case Move(x) => Lines.MemberOf(all, x);
    case _ =>
  }

  /** The nodes an update moves or inserts are the new children. */
  lemma {:induction false} UpdateNodes(ops: seq<Reconcile.Op>, old_: seq<VNode>, next: seq<VNode>, marks: seq<bool>,
                                       cut: nat)
    requires Reconcile.IsUpdate(ops, old_, next, marks, cut)
    ensures forall op | op in ops :: (op.Move? ==> op.moved in next) && (op.Insert? ==> op.added in next)
  {
    var known := Reconcile.Common(old_, next);
    assert ops == ops[..cut] + ops[cut..];
    RemovalNodes(ops[..cut], old_, next);
    if !Reconcile.TakesSwap(next, known, marks) {
      RebuildNodes(next, Reconcile.Kinds(next, known, marks), []);
    }
    hide Reconcile.IsRemoval, Reconcile.Rebuild, Reconcile.Kinds;
  }

  lemma {:induction false} RemovalNodes(ops: seq<Reconcile.Op>, old_: seq<VNode>, next: seq<VNode>)
    requires Reconcile.IsRemoval(ops, old_, next)
    ensures forall op | op in ops :: !op.Move? && !op.Insert?
  {
  }

  lemma {:induction false} RebuildNodes(next: seq<VNode>, kinds: seq<Reconcile.Kind>, bulk: seq<VNode>)
    requires |kinds| == |next|
    ensures forall op | op in Reconcile.Rebuild(next, kinds, bulk) ::
              (op.Move? ==> op.moved in next) && (op.Insert? ==> op.added in next || op.added in bulk)
    decreases next
  {
    if next != [] {
      assert next[0] in next && forall x | x in next[1..] :: x in next;
      match kinds[0]
      case Kept => RebuildNodes(next[1..], kinds[1..], bulk);
      case New => RebuildNodes(next[1..], kinds[1..], bulk + [next[0]]);
      case Moved => RebuildNodes(next[1..], kinds[1..], []);
    }
  }

  /** A flush of marked nodes. */
  lemma {:induction false} FlushSends(msgs: seq<Msg>, ids: seq<uint32>, nodes: map<uint32, Mark>)
    requires IsFlush(msgs, ids, nodes)
    ensures forall m | m in msgs :: Sendable(m)
  {
    hide IsDrainAll, Texts;
    var k :| 0 <= k <= |msgs| && IsDrainAll(msgs[..k], ids, nodes) && msgs[k..] == TextOps(Texts(ids, nodes));
    assert msgs == msgs[..k] + msgs[k..];
    DrainSends(msgs[..k], ids, nodes);
  }

  lemma {:induction false} DrainSends(msgs: seq<Msg>, ids: seq<uint32>, nodes: map<uint32, Mark>)
    requires IsDrainAll(msgs, ids, nodes)
    ensures forall m | m in msgs :: Sendable(m)
    decreases ids
  {
    hide Sendable, IsDrain;
    if ids != [] {
      var k :| 0 <= k <= |msgs| && IsDrain(msgs[..k], ids[0], nodes[ids[0]]) && IsDrainAll(msgs[k..], ids[1..], nodes);
      assert msgs == msgs[..k] + msgs[k..];
      DrainOneSends(msgs[..k], ids[0], nodes[ids[0]]);
      DrainSends(msgs[k..], ids[1..], nodes);
    }
  }

  lemma {:induction false} DrainOneSends(msgs: seq<Msg>, id: uint32, n: Mark)
    requires IsDrain(msgs, id, n)
    ensures forall m | m in msgs :: Sendable(m)
  {
    hide IsAttrs, IsStyles, Sendable;
    var k :| 0 <= k <= |msgs| && IsAttrs(msgs[..k], id, n.dirtyAttrs) && IsStyles(msgs[k..], id, n.dirtyStyles);
    assert msgs == msgs[..k] + msgs[k..];
    AttrsSend(msgs[..k], id, n.dirtyAttrs);
    StylesSend(msgs[k..], id, n.dirtyStyles);
  }

  lemma {:induction false} AttrsSend(msgs: seq<Msg>, id: uint32, attrs: map<Str, Str>)
    requires IsAttrs(msgs, id, attrs)
    ensures forall m | m in msgs :: Sendable(m)
  {
    var order :| IsOrder(order, attrs) && (forall k | k in order :: k in attrs)
      && msgs == AttrOps(id, Entries(order, attrs));
    LabelOpsSend(id, Entries(order, attrs));
  }

  /** Streams of fresh nodes. */
  lemma {:induction false} FreshSends(msgs: seq<Msg>, texts: set<uint32>, used: set<uint32>)
    requires Deferral.FreshStream(msgs, texts, used)
    ensures forall m | m in msgs :: NoSelf(m)
    decreases msgs
  {
    if msgs != [] {
      FreshSends(msgs[1..], texts, used + Deferral.NewIds(msgs[0]));
      assert msgs == [msgs[0]] + msgs[1..];
    }
  }

  /** What Diff writes. */
  lemma {:induction false} DiffSends(msgs: seq<Msg>, old_: VNode, next: VNode)
    requires IsDiff(msgs, old_, next) && Proper(next)
    ensures forall m | m in msgs :: Sendable(m)
    decreases old_
  {
    if old_.VElem? {
      hide Sendable, IsOwnDiff, IsDiffAll, IsDiff;
      assert next.VElem? by { SameKind(msgs, old_, next); }
      var own, below := DiffTree.ElemSplit(old_, next, msgs);
      OwnSends(own, old_, next);
      DiffAllSends(below, old_.children, next.children, next.id);
    } else {
      hide IsOwnDiff, IsDiffAll;
      PlainSends(old_.id);
    }
  }

  lemma SameKind(msgs: seq<Msg>, old_: VNode, next: VNode)
    requires IsDiff(msgs, old_, next)
    ensures old_.VElem? <==> next.VElem?
  {
  }

  lemma PlainSends(id: uint32)
    ensures Sendable(RemoveNode(id)) && forall t :: Sendable(UpdateText(id, t))
  {
  }

  lemma {:induction false} OwnSends(msgs: seq<Msg>, old_: VNode, next: VNode)
    requires old_.VElem? && next.VElem? && IsOwnDiff(msgs, old_, next)
    ensures forall m | m in msgs :: Sendable(m)
  {
    hide IsSets, IsRemoves, IsStyles, Changed, Gone, Sendable;
    var i, j :| 0 <= i <= j <= |msgs|
      && IsSets(msgs[..i], old_.id, Changed(old_.attrs, next.attrs))
      && IsRemoves(msgs[i..j], old_.id, Gone(old_.attrs, next.attrs))
      && IsStyles(msgs[j..], old_.id, Changed(old_.styles, next.styles));
    assert msgs == msgs[..i] + msgs[i..j] + msgs[j..];
    SetsSend(msgs[..i], old_.id, Changed(old_.attrs, next.attrs));
    RemovesSend(msgs[i..j], old_.id, Gone(old_.attrs, next.attrs));
    StylesSend(msgs[j..], old_.id, Changed(old_.styles, next.styles));
  }

  lemma {:induction false} SetsSend(msgs: seq<Msg>, id: uint32, attrs: map<Str, Str>)
    requires IsSets(msgs, id, attrs)
    ensures forall m | m in msgs :: Sendable(m)
  {
    var order :| IsOrder(order, attrs) && (forall k | k in order :: k in attrs)
      && msgs == SetOps(id, Entries(order, attrs));
    LabelOpsSend(id, Entries(order, attrs));
  }

  lemma {:induction false} RemovesSend(msgs: seq<Msg>, id: uint32, attrs: map<Str, Str>)
    requires IsRemoves(msgs, id, attrs)
    ensures forall m | m in msgs :: Sendable(m)
  {
    var order :| IsOrder(order, attrs) && msgs == RemoveOps(id, order);
    RemoveOpsSend(id, order);
  }

  lemma {:induction false} DiffAllSends(msgs: seq<Msg>, olds: seq<VNode>, nexts: seq<VNode>, parent: uint32)
    requires IsDiffAll(msgs, olds, nexts, parent) && ProperAll(nexts) && parent !in IdsOf(nexts)
    ensures forall m | m in msgs :: Sendable(m)
    decreases olds, |nexts|
  {
    hide Sendable, IsInsertTree, IsDiff, Proper, Ids;
    if olds == [] && nexts == [] {
    } else if olds == [] {
      var k :| 0 <= k <= |msgs| && IsInsertTree(msgs[..k], nexts[0], parent)
        && IsDiffAll(msgs[k..], [], nexts[1..], parent);
      assert msgs == msgs[..k] + msgs[k..];
      InsertTreeSends(msgs[..k], nexts[0], parent);
      hide IsDiffAll;
      DiffAllSends(msgs[k..], [], nexts[1..], parent);
    } else if nexts == [] {
      assert msgs == [msgs[0]] + msgs[1..];
      PlainSends(olds[0].id);
      DiffAllSends(msgs[1..], olds[1..], [], parent);
    } else {
      var k :| 0 <= k <= |msgs| && IsDiff(msgs[..k], olds[0], nexts[0])
        && IsDiffAll(msgs[k..], olds[1..], nexts[1..], parent);
      assert msgs == msgs[..k] + msgs[k..];
      hide IsDiffAll;
      DiffSends(msgs[..k], olds[0], nexts[0]);
      DiffAllSends(msgs[k..], olds[1..], nexts[1..], parent);
    }
  }

  // ------------------------------------------------- from the bytes to the page

  /** The bytes of a first mount. */
  lemma {:induction false} MountBytes(v: VNode, msgs: seq<Msg>)
    requires Proper(v) && IsFullTree(msgs, v, 0) && AllFit(msgs)
    ensures Machines.Orderly(EMPTY, EncodeAll(msgs))
    ensures var c := Process(EMPTY, ParseStream(EncodeAll(msgs)));
            c.nodes.Keys == Ids(v) && Shows(c.heap, c.nodes, Mounted(v)) && Kids(c.heap, ROOT) == [c.nodes[v.id]]
  {
    Mount.MountEndToEnd(v, msgs);
    ProperNonZero(v);
    FullTreeSends(msgs, v, 0);
    EmptyValid();
    hide IsFullTree, Sendable, Machines.Orderly, ParseStream, EncodeAll, Fits, Shows, Valid, Process;
    WrittenOrderly(EMPTY, msgs);
  }

  lemma EmptyValid()
    ensures Valid(EMPTY)
  {
  }

  /** The bytes of a container's flips. */
  lemma {:induction false} FlipBytes(c: Client, id: uint32, cur: Option<VNode>, shown: Option<VNode>, pool: seq<VNode>,
                                     bs: seq<Option<VNode>>, msgs: seq<Msg>)
    requires Branches.Ready(c, id, cur, shown, pool) && bs != [] && Branches.InPool(bs, pool)
    requires FlipStream(msgs, id, cur, bs) && AllFit(msgs)
    ensures Machines.Orderly(c, EncodeAll(msgs))
    ensures ForUpdate.InSync(Process(c, ParseStream(EncodeAll(msgs))), id, Listed(Branches.ShownAfter(cur, bs)))
  {
    Branches.FlipsOnPage(c, id, cur, shown, pool, bs, msgs);
    FlipsSend(msgs, id, cur, bs, pool);
    assert Valid(c) && c.depth == 0;
    hide Branches.Ready, FlipStream, Sendable, Machines.Orderly, ParseStream, EncodeAll, Fits, Valid, Process,
         ForUpdate.InSync;
    WrittenOrderly(c, msgs);
  }

  /** The bytes of a list update. */
  lemma {:induction false} UpdateBytes(c: Client, id: uint32, all: seq<VNode>, old_: seq<VNode>, next: seq<VNode>,
                                       ops: seq<Reconcile.Op>, marks: seq<bool>, cut: nat, msgs: seq<Msg>)
    requires ForUpdate.InSync(c, id, old_) && ProperAll(all) && id !in IdsOf(all) && Distinct(old_) && Distinct(next)
    requires forall x :: x in all <==> x in old_ || x in next
    requires forall x | x in next && x !in old_ :: Ids(x) !! c.nodes.Keys
    requires Reconcile.IsUpdate(ops, old_, next, marks, cut) && ForUpdate.WritesAll(msgs, ops, id) && AllFit(msgs)
    ensures Machines.Orderly(c, EncodeAll(msgs))
    ensures ForUpdate.InSync(Process(c, ParseStream(EncodeAll(msgs))), id, next)
            <==> Reconcile.Replay(old_, ops) == next && forall x | x in next && x !in old_ :: ForAgreement.StyleFree(x)
  {
    ForAgreement.AgreesIff(c, id, all, old_, next, ops, marks, cut, msgs);
    UpdateNodes(ops, old_, next, marks, cut);
    WritesSend(msgs, ops, id, all);
    assert Valid(c) && c.depth == 0;
    hide Reconcile.IsUpdate, ForUpdate.WritesAll, Sendable, Machines.Orderly, ParseStream, EncodeAll, Fits, Valid,
         Process, ForUpdate.InSync, Reconcile.Replay, ProperAll, IdsOf, Ids, ForAgreement.StyleFree;
    WrittenOrderly(c, msgs);
  }

  /** The bytes of a flush of marked nodes. */
  lemma {:induction false} FlushBytes(c: Client, msgs: seq<Msg>, ids: seq<uint32>, nodes: map<uint32, Mark>)
    requires Valid(c) && c.depth == 0 && IsFlush(msgs, ids, nodes) && AllFit(msgs)
    ensures Machines.Orderly(c, EncodeAll(msgs)) && ParseStream(EncodeAll(msgs)) == msgs
  {
    FlushSends(msgs, ids, nodes);
    hide IsFlush, Sendable, Machines.Orderly, ParseStream, EncodeAll, Fits, Valid;
    WrittenOrderly(c, msgs);
  }

  /** The bytes of a stream of fresh nodes, and of a Diff. */
  lemma {:induction false} FreshBytes(c: Client, msgs: seq<Msg>, texts: set<uint32>, used: set<uint32>)
    requires Valid(c) && c.depth == 0 && Deferral.FreshStream(msgs, texts, used) && AllFit(msgs)
    requires forall m | m in msgs :: ClientWire.ForClient(m)
    ensures Machines.Orderly(c, EncodeAll(msgs)) && ParseStream(EncodeAll(msgs)) == msgs
  {
    FreshSends(msgs, texts, used);
    hide Deferral.FreshStream, NoSelf, Machines.Orderly, ParseStream, EncodeAll, Fits, Valid, ClientWire.ForClient;
    WrittenOrderly(c, msgs);
  }

  lemma {:induction false} DiffBytes(c: Client, msgs: seq<Msg>, old_: VNode, next: VNode)
    requires Valid(c) && c.depth == 0 && IsDiff(msgs, old_, next) && Proper(next) && AllFit(msgs)
    ensures Machines.Orderly(c, EncodeAll(msgs)) && ParseStream(EncodeAll(msgs)) == msgs
  {
    DiffSends(msgs, old_, next);
    hide IsDiff, Sendable, Machines.Orderly, ParseStream, EncodeAll, Fits, Valid, Proper;
    WrittenOrderly(c, msgs);
  }

  // ------------------------------------------------------- anything that is written

  /** What the client does not act on leaves it alone. */
  lemma {:induction false} ActedAlike(c: Client, msgs: seq<Msg>)
    requires forall m | m in msgs :: ForClient(m) || Elsewhere(m)
    ensures ApplyAll(c, Acted(msgs)) == ApplyAll(c, msgs)
    decreases msgs
  {
    if msgs != [] {
      var m, rest := msgs[0], msgs[1..];
      assert m in msgs;
      assert forall x | x in rest :: x in msgs;
      ElsewhereAlone(c, m);
      ActedAlike(Apply(c, m), rest);
      hide Apply, ForClient, Elsewhere;
      if ForClient(m) {
        ApplyAllSplit(c, [m], Acted(rest));
        assert ApplyAll(c, [m]) == Apply(c, m) by { ApplyCons(c, [m]); }
      } else {
        assert [] + Acted(rest) == Acted(rest);
      }
    }
  }

  lemma ElsewhereAlone(c: Client, m: Msg)
    requires ForClient(m) || Elsewhere(m)
    ensures !ForClient(m) ==> Apply(c, m) == c
  {
    hide SetText, SetTexts, Alter, Insert, InsertTextNode, Remove, Clear, Swap, Process, Registered, FromPairs,
         SetProperty;
  }

  /** The bytes of any stream, whatever kinds of instruction are in it, do to the client what the instructions do. */
  lemma {:induction false} BytesCarriedOut(c: Client, msgs: seq<Msg>)
    requires forall m | m in msgs :: Fits(m) && (ForClient(m) || Elsewhere(m))
    ensures Process(c, ParseStream(EncodeAll(msgs))) == Process(c, msgs)
  {
    hide *;
    WholeParsed(msgs);
    ActedAlike(Begin(c), msgs);
    ForUpdate.ProcessIs(c, msgs);
    ForUpdate.ProcessIs(c, Acted(msgs));
  }

  lemma {:induction false} WholeParsed(msgs: seq<Msg>)
    requires forall m | m in msgs :: Fits(m) && (ForClient(m) || Elsewhere(m))
    ensures ParseStream(EncodeAll(msgs)) == Acted(msgs)
  {
    hide *;
    var data := EncodeAll(msgs);
    TruncatedParsed(msgs, |data|);
    FittingIsLargest(msgs, |data|, |msgs|);
    assert data[..|data|] == data && msgs[..|msgs|] == msgs;
  }
}
