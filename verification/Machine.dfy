/**
 The client's package state and its methods (pkg/wasm/patch.go), updated in place.
 */
module Machines {
  import opened Seqs
  import opened Wire
  import opened Codec
  import opened Dom
  import opened Client
  import opened ClientWire
  import opened Fragments

  /** Where the outermost batch ends, the page is a proper tree and no node waits for itself. */
  ghost predicate Orderly(c: Client, data: seq<byte>) {
    var c1 := ApplyAll(Begin(c), ParseStream(data));
    Valid(c1) && forall d | d in c1.deferred :: d.node != d.parent
  }

  /** The fragments made so far, found by parent id. */
  ghost predicate Mapped(fragMap: map<uint32, nat>, frags: seq<Frag>) {
    && (forall p | p in fragMap :: fragMap[p] < |frags| && frags[fragMap[p]].parent == p)
    && (forall k | 0 <= k < |frags| :: frags[k].parent in fragMap && fragMap[frags[k].parent] == k)
  }

  lemma {:induction false} MappedEnsure(fragMap: map<uint32, nat>, frags: seq<Frag>, parent: uint32)
    requires Mapped(fragMap, frags)
    ensures parent in fragMap ==> Ensure(frags, parent) == frags
    ensures parent !in fragMap ==>
              Ensure(frags, parent) == frags + [Frag(parent, [])]
              && Mapped(fragMap[parent := |frags|], frags + [Frag(parent, [])])
  {
    if parent in fragMap {
      assert frags[fragMap[parent]].parent == parent;
    }
  }

  lemma {:induction false} MappedPut(fragMap: map<uint32, nat>, frags: seq<Frag>, parent: uint32, r: Ref)
    requires Mapped(fragMap, frags) && parent in fragMap
    ensures var fs := DropFrom(frags, r);
            var i := fragMap[parent];
            && PutIn(fs, parent, r) == fs[i := Frag(parent, fs[i].kids + [r])]
            && Mapped(fragMap, fs[i := Frag(parent, fs[i].kids + [r])])
  {
    var fs, i := DropFrom(frags, r), fragMap[parent];
    assert fs[i].parent == parent;
    var k := PutAt(fs, parent, r);
    assert frags[k].parent == parent;
  }

  class Machine {
    var heap: Heap
    var next: Ref
    var nodes: map<uint32, Ref>
    var batchDepth: nat
    var batchExisting: set<uint32>
    var batchDeferred: seq<Deferred>

    ghost function State(): Client
      reads this
    {
      Client(heap, next, nodes, batchDepth, batchExisting, batchDeferred)
    }

    constructor ()
      ensures State() == EMPTY
    {
      heap, next, nodes := map[ROOT := BLANK], 1, map[];
      batchDepth, batchExisting, batchDeferred := 0, {}, [];
    }

    /** applyOpcodes: the cursor loop over length-prefixed frames. */
    method ApplyOpcodes(data: seq<byte>)
      requires batchDepth == 0 ==> Orderly(State(), data)
      modifies this
      ensures State() == Process(old(State()), ParseStream(data))
      decreases |data|, 1
    {
      hide Valid, Apply, ParseFrame, Be32, SettleAll;
      batchDepth := batchDepth + 1;
      if batchDepth == 1 {
        batchExisting := nodes.Keys;
        batchDeferred := [];
      }
      ghost var start := State();
      assert start == Begin(old(State()));
      var pos := 0;
      assert data[0..] == data;
      while pos < |data|
        invariant 0 <= pos <= |data| && batchDepth == start.depth
        invariant ApplyAll(start, ParseStream(data)) == ApplyAll(State(), ParseStream(data[pos..]))
      {
        ghost var here := data[pos..];
        StreamStep(State(), here);
        if pos + 4 > |data| {
          break;
        }
        Slices(data, pos, 0, 4);
        var frameLen: int := Be32(data[pos..pos + 4]);
        if pos + 4 + frameLen > |data| {
          break;
        }
        Slices(data, pos, 4, 4 + frameLen);
        pos := pos + 4;
        ApplyFrame(data[pos..pos + frameLen]);
        pos := pos + frameLen;
      }
      StreamStep(State(), data[pos..]);
      ghost var c1 := State();
      assert c1 == ApplyAll(start, ParseStream(data));
      batchDepth := batchDepth - 1;
      if batchDepth == 0 {
        ValidAnyDepth(c1, 0);
        FlushDeferredInserts();
      }
    }

    /** flushDeferredInserts: one fragment per parent, in the order of first use. */
    method FlushDeferredInserts()
      requires Valid(State()) && forall d | d in batchDeferred :: d.node != d.parent
      modifies this`heap, this`batchDeferred
      ensures State() == Flush(old(State()))
    {
      hide Valid, Gather, GatherAll, Mapped;
      ghost var start := State();
      FlushIs(start);
      if |batchDeferred| == 0 {
        return;
      }
      var fragMap: map<uint32, nat>, frags: seq<Frag> := map[], [];
      ghost var first := Gathering(heap, frags);
      NoneMapped();
      for i := 0 to |batchDeferred|
        invariant Mapped(fragMap, frags)
        invariant nodes == start.nodes && batchDeferred == start.deferred
        invariant GatherAll(nodes, first, batchDeferred) == GatherAll(nodes, Gathering(heap, frags), batchDeferred[i..])
      {
        var d := batchDeferred[i];
        GatherNext(nodes, Gathering(heap, frags), batchDeferred, i);
        GatherIs(nodes, Gathering(heap, frags), d);
        MappedEnsure(fragMap, frags, d.parent);
        if d.parent !in fragMap {
          fragMap := fragMap[d.parent := |frags|];
          frags := frags + [Frag(d.parent, [])];
          assert d.parent in fragMap;
        }
        if d.node in nodes {
          var node := nodes[d.node];
          MappedPut(fragMap, frags, d.parent, node);
          MappedIndex(fragMap, frags, d.parent);
          heap := Detach(heap, node);
          var left := DropFrom(frags, node);
          var idx := fragMap[d.parent];
          frags := left[idx := Frag(d.parent, left[idx].kids + [node])];
        }
      }
      GatherNone(nodes, Gathering(heap, frags), batchDeferred);
      ghost var gathered := heap;
      for k := 0 to |frags|
        invariant AttachAll(nodes, gathered, frags) == AttachAll(nodes, heap, frags[k..])
        invariant nodes == start.nodes && batchDeferred == start.deferred
      {
        var fe := frags[k];
        AttachNext(nodes, heap, frags, k);
        if fe.parent in nodes {
          heap := AppendAll(heap, nodes[fe.parent], fe.kids);
        } else if fe.parent == 0 {
          heap := AppendAll(heap, ROOT, fe.kids);
        }
      }
      batchDeferred := [];
    }

    /** applyFrame on one bounded frame. */
    method ApplyFrame(data: seq<byte>)
      requires batchDepth > 0
      modifies this
      ensures State() == Carried(old(State()), ParseFrame(data))
      decreases |data|, 0
    {
      hide Apply, SetTexts, Process, ParseFrame, Be32, Be16;
      FrameKinds(data);
      if |data| < 1 {
        return;
      }
      if data[0] == OP_BATCH {
        if |data| < 5 {
          return;
        }
        ApplyOpcodes(data[5..]);
        BatchIs(old(State()), data[5..]);
      } else if data[0] == OP_BATCH_TEXT {
        if |data| < 3 {
          return;
        }
        BatchText(data);
        BatchTextIs(old(State()), TakeUpdates(data[3..], Be16(data[1..3])));
      } else {
        var m := ParseFrame(data);
        if m.Some? {
          Instruct(m.value);
        }
      }
    }

    /** OpBatchText: as many updates as are announced and lie within the frame. */
    method BatchText(data: seq<byte>)
      requires |data| >= 3
      modifies this`heap, this`next
      ensures State() == SetTexts(old(State()), TakeUpdates(data[3..], Be16(data[1..3])))
    {
      hide Be32, Be16;
      var count := Be16(data[1..3]);
      var p := 3;
      for i := 0 to count
        invariant 3 <= p <= |data|
        invariant SetTexts(old(State()), TakeUpdates(data[3..], count))
                  == SetTexts(State(), TakeUpdates(data[p..], count - i))
      {
        ghost var here := data[p..];
        UpdatesStep(State(), here, count - i);
        if p + 6 > |data| {
          return;
        }
        Slices(data, p, 0, 4);
        Slices(data, p, 4, 6);
        var nodeID := Be32(data[p..p + 4]);
        var textLen := Be16(data[p + 4..p + 6]);
        p := p + 6;
        if p + textLen > |data| {
          return;
        }
        Slices(data, p - 6, 6, 6 + textLen);
        var text := data[p..p + textLen];
        p := p + textLen;
        if nodeID in nodes {
          SetTextOf(nodes[nodeID], text);
        }
      }
    }

    /** `node.textContent = text`. */
    method SetTextOf(r: Ref, text: Str)
      modifies this`heap, this`next
      ensures State() == SetTextContent(old(State()), r, text)
    {
      var e := At(heap, r);
      if IsText(e) {
        heap := heap[r := e.(text := text)];
      } else {
        heap := DetachAll(heap, r);
        if text != [] {
          heap := Append(heap[next := NewText(text)], r, next);
          next := next + 1;
        }
      }
    }

    /** OpInsertNode: a registered node moves at once, a new one is attached or put off. */
    method OnInsertNode(id: uint32, parent: uint32, sibling: uint32, tag: Str, attrs: map<Str, Str>)
      modifies this`heap, this`next, this`nodes, this`batchDeferred
      ensures State() == Insert(old(State()), id, parent, sibling, tag, attrs)
    {
      hide InsertBefore, Append, Detach;
      if id in nodes {
        Move(nodes[id], parent, sibling);
        return;
      }
      var el := next;
      heap := heap[el := NewElem(id, tag, attrs)];
      next := next + 1;
      nodes := nodes[id := el];
      Attach(id, el, parent, sibling);
    }

    /** A node the client has is taken out and put where the instruction says. */
    method Move(existing: Ref, parent: uint32, sibling: uint32)
      modifies this`heap
      ensures State() == MoveNode(old(State()), existing, parent, sibling)
    {
      hide InsertBefore, Append, Detach;
      heap := Detach(heap, existing);
      var to := ROOT;
      if parent in nodes {
        to := nodes[parent];
      }
      if sibling != 0 {
        if sibling in nodes {
          heap := InsertBefore(heap, to, existing, nodes[sibling]);
          return;
        }
      }
      heap := Append(heap, to, existing);
    }

    /** A new node is put off when its parent is in the page, and attached at once otherwise. */
    method Attach(id: uint32, el: Ref, parent: uint32, sibling: uint32)
      modifies this`heap, this`batchDeferred
      ensures State() == Place(old(State()), id, el, parent, sibling)
    {
      hide InsertBefore, Append, Detach;
      if sibling == 0 && batchDepth > 0 && parent in batchExisting {
        batchDeferred := batchDeferred + [Deferred(id, parent)];
      } else if parent in nodes {
        if sibling != 0 {
          if sibling in nodes {
            heap := InsertBefore(heap, nodes[parent], el, nodes[sibling]);
            return;
          }
        }
        heap := Append(heap, nodes[parent], el);
      } else if parent == 0 {
        heap := Append(heap, ROOT, el);
      }
    }

    /** OpInsertText: always a new node. */
    method OnInsertText(id: uint32, parent: uint32, text: Str)
      modifies this`heap, this`next, this`nodes, this`batchDeferred
      ensures State() == InsertTextNode(old(State()), id, parent, text)
    {
      var el := next;
      heap := heap[el := NewText(text)];
      next := next + 1;
      nodes := nodes[id := el];
      Attach(id, el, parent, 0);
    }

    /** OpRemoveNode. */
    method OnRemoveNode(id: uint32)
      modifies this`heap, this`nodes
      ensures State() == Remove(old(State()), id)
    {
      hide IdsBelow, Detach;
      if id in nodes {
        var node := nodes[id];
        nodes := nodes - IdsBelow(heap, node);
        heap := Detach(heap, node);
        nodes := nodes - {id};
        assert nodes == old(nodes) - IdsBelow(old(heap), node) - {id};
      }
    }

    /** OpClearChildren: the root when the parent is unknown. */
    method OnClearChildren(id: uint32)
      modifies this`heap, this`nodes
      ensures State() == Clear(old(State()), id)
    {
      hide IdsBelow, DetachAll;
      var p := ROOT;
      if id in nodes {
        p := nodes[id];
      }
      nodes := nodes - IdsBelow(heap, p);
      heap := DetachAll(heap, p);
    }

    /** OpSwapNodes: a's next sibling is looked up before anything moves. */
    method OnSwapNodes(a: uint32, b: uint32)
      modifies this`heap
      ensures State() == Swap(old(State()), a, b)
    {
      hide InsertBefore, Append;
      if a !in nodes || b !in nodes {
        return;
      }
      var elA, elB := nodes[a], nodes[b];
      var parentA, nextA := ParentOf(heap, elA), NextSibling(heap, elA);
      if nextA == Some(elB) {
        if parentA.Some? {
          heap := InsertBefore(heap, parentA.value, elB, elA);
        }
      } else {
        var parentB := ParentOf(heap, elB);
        if parentB.Some? {
          heap := InsertBefore(heap, parentB.value, elA, elB);
        }
        if parentA.Some? {
          if nextA.None? {
            heap := Append(heap, parentA.value, elB);
          } else {
            heap := InsertBefore(heap, parentA.value, elB, nextA.value);
          }
        }
      }
    }

    /** OpSetAttr, OpRemoveAttr and OpSetStyle. */
    method Relabel(m: Msg)
      requires m.SetAttr? || m.RemoveAttr? || m.SetStyle?
      modifies this`heap
      ensures State() == Apply(old(State()), m)
    {
      hide SetProperty;
      match m
      case SetAttr(node, key, value) =>
        if node in nodes {
          var e := At(heap, nodes[node]);
          heap := heap[nodes[node] := e.(attrs := e.attrs[key := value])];
        }
      case RemoveAttr(node, key) =>
        if node in nodes {
          var e := At(heap, nodes[node]);
          heap := heap[nodes[node] := e.(attrs := e.attrs - {key})];
        }
      case SetStyle(node, key, value) =>
        if node in nodes {
          var e := At(heap, nodes[node]);
          heap := heap[nodes[node] := e.(styles := SetProperty(e.styles, key, value))];
        }
      case _ =>
    }

    /** Everything but the two kinds of batches. */
    method Instruct(m: Msg)
      requires !m.Batch? && !m.BatchText?
      modifies this
      ensures State() == Apply(old(State()), m)
    {
      hide SetTextContent, Insert, InsertTextNode, Remove, Clear, Swap, SetProperty, FromPairs;
      match m
      case UpdateText(node, text) =>
        if node in nodes {
          SetTextOf(nodes[node], text);
        }
      case SetAttr(_, _, _) => Relabel(m);
      case RemoveAttr(_, _) => Relabel(m);
      case SetStyle(_, _, _) => Relabel(m);
      case InsertNode(node, parent, sibling, tag, attrs) => OnInsertNode(node, parent, sibling, tag, FromPairs(attrs));
      case InsertText(node, parent, text) => OnInsertText(node, parent, text);
      case RemoveNode(node) => OnRemoveNode(node);
      case ClearChildren(parent) => OnClearChildren(parent);
      case SwapNodes(a, b) => OnSwapNodes(a, b);
      case _ =>
    }
  }

  // ------------------------------------------------------------- steps of the loops

  function Carried(c: Client, m: Option<Msg>): Client {
    if m.Some? then Apply(c, m.value) else c
  }

  /** A slice of what lies ahead is a slice of the whole. */
  lemma Slices(data: seq<byte>, pos: nat, a: nat, b: nat)
    requires a <= b && pos + b <= |data|
    ensures data[pos..][a..b] == data[pos + a..pos + b] && data[pos..][b..] == data[pos + b..]
    ensures a == 0 ==> data[pos..][..b] == data[pos..pos + b]
  {
  }

  lemma {:induction false} StreamStep(c: Client, here: seq<byte>)
    ensures ApplyAll(c, ParseStream(here)) ==
              if |here| < 4 || 4 + Be32(here[..4]) > |here| then c
              else
                var n: int := Be32(here[..4]);
                ApplyAll(Carried(c, ParseFrame(here[4..4 + n])), ParseStream(here[4 + n..]))
  {
    hide Apply, ParseFrame, Be32;
    if |here| >= 4 && 4 + Be32(here[..4]) <= |here| {
      var n: int := Be32(here[..4]);
      var m, rest := ParseFrame(here[4..4 + n]), ParseStream(here[4 + n..]);
      if m.Some? {
        assert ([m.value] + rest)[1..] == rest;
      } else {
        assert [] + rest == rest;
      }
    }
  }

  /** What the first byte of a frame decides. */
  lemma {:induction false} FrameKinds(data: seq<byte>)
    ensures |data| < 1 ==> ParseFrame(data).None?
    ensures |data| >= 1 && data[0] == OP_BATCH ==>
              ParseFrame(data) == if |data| < 5 then None else Some(Batch(ParseStream(data[5..])))
    ensures |data| >= 1 && data[0] == OP_BATCH_TEXT ==>
              ParseFrame(data) == if |data| < 3 then None else Some(BatchText(TakeUpdates(data[3..], Be16(data[1..3]))))
    ensures |data| >= 1 && data[0] != OP_BATCH && data[0] != OP_BATCH_TEXT && ParseFrame(data).Some? ==>
              !ParseFrame(data).value.Batch? && !ParseFrame(data).value.BatchText?
  {
    hide Be32, Be16;
  }

  lemma BatchIs(c: Client, data: seq<byte>)
    ensures Process(c, ParseStream(data)) == Apply(c, Batch(ParseStream(data)))
  {
    hide Process, ParseStream;
  }

  lemma BatchTextIs(c: Client, updates: seq<(uint32, Str)>)
    ensures Apply(c, Msg.BatchText(updates)) == SetTexts(c, updates)
  {
    hide SetTexts;
  }

  lemma ValidAnyDepth(c: Client, depth: nat)
    requires Valid(c)
    ensures Valid(c.(depth := depth))
  {
    hide Forest;
  }

  lemma {:induction false} UpdatesStep(c: Client, here: seq<byte>, n: nat)
    ensures SetTexts(c, TakeUpdates(here, n)) ==
              if n == 0 || |here| < 6 || 6 + Be16(here[4..6]) > |here| then c
              else
                var len := Be16(here[4..6]);
                SetTexts(SetText(c, Be32(here[..4]), here[6..6 + len]), TakeUpdates(here[6 + len..], n - 1))
  {
    hide Be32, Be16, SetText;
    if n != 0 && |here| >= 6 && 6 + Be16(here[4..6]) <= |here| {
      var len := Be16(here[4..6]);
      var rest := TakeUpdates(here[6 + len..], n - 1);
      assert ([(Be32(here[..4]), here[6..6 + len])] + rest)[1..] == rest;
    }
  }

  lemma NoneMapped()
    ensures Mapped(map[], [])
  {
  }

  lemma MappedIndex(fragMap: map<uint32, nat>, frags: seq<Frag>, parent: uint32)
    requires Mapped(fragMap, frags) && parent in fragMap
    ensures fragMap[parent] < |frags|
  {
  }

  lemma GatherNext(nodes: map<uint32, Ref>, g: Gathering, ds: seq<Deferred>, i: nat)
    requires i < |ds|
    ensures GatherAll(nodes, g, ds[i..]) == GatherAll(nodes, Gather(nodes, g, ds[i]), ds[i + 1..])
  {
    hide Gather;
    assert ds[i..][1..] == ds[i + 1..];
  }

  lemma GatherNone(nodes: map<uint32, Ref>, g: Gathering, ds: seq<Deferred>)
    ensures GatherAll(nodes, g, ds[|ds|..]) == g
  {
  }

  lemma GatherIs(nodes: map<uint32, Ref>, g: Gathering, d: Deferred)
    ensures var fs := Ensure(g.frags, d.parent);
            Gather(nodes, g, d) ==
              if d.node in nodes then
                Gathering(Detach(g.heap, nodes[d.node]), PutIn(DropFrom(fs, nodes[d.node]), d.parent, nodes[d.node]))
              else g.(frags := fs)
  {
  }

  lemma AttachNext(nodes: map<uint32, Ref>, h: Heap, fs: seq<Frag>, k: nat)
    requires k < |fs|
    ensures AttachAll(nodes, h, fs[k..]) == AttachAll(nodes, AttachFrag(nodes, h, fs[k]), fs[k + 1..])
  {
    hide AttachFrag;
    assert fs[k..][1..] == fs[k + 1..];
  }

  /** What a flush of this state is. */
  lemma {:induction false} FlushIs(c: Client)
    requires Valid(c) && forall d | d in c.deferred :: d.node != d.parent
    ensures var g := GatherAll(c.nodes, Gathering(c.heap, []), c.deferred);
            Flush(c) == c.(heap := AttachAll(c.nodes, g.heap, g.frags), deferred := [])
    ensures c.deferred == [] ==> Flush(c) == c
  {
    FragmentsSettle(c, c.deferred);
    SettleAllKeeps(c, c.deferred);
  }
}
