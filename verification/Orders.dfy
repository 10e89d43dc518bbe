module Orders {
  // Every stream keeps the client's page a proper tree. So the batch loop may be
  // run on all streams in which no insertion names the node itself as its
  // parent.

  import opened Seqs
  import opened Wire
  import opened Dom
  import opened Client
  import opened Trees
  import opened Scatter
  import ForUpdate

  // -------------------------------------------------------- the page's operations

  lemma {:induction false} DetachAlways(h: Heap, r: Ref)
    requires Forest(h) && r in h && r != ROOT
    ensures Forest(Detach(h, r)) && Detach(h, r).Keys == h.Keys && Detach(h, r)[r].parent == None
    ensures forall p :: r !in Kids(Detach(h, r), p)
  {
    DetachForest(h, r);
    var h' := Detach(h, r);
    assert NodeOk(h, r);
    assert h'[r].parent == None;
    forall p ensures r !in Kids(h', p) {
      assert p in h' ==> NodeOk(h', p);
    }
  }

  /** Attaching a detached node at any place of a child list. */
  lemma {:induction false} PutForest(h: Heap, p: Ref, r: Ref, kids: seq<Ref>)
    requires Forest(h) && p in h && r in h && r != ROOT && h[r].parent.None?
    requires Distinct(kids) && forall x :: x in kids <==> x in h[p].children || x == r
    ensures var h2 := h[p := h[p].(children := kids)];
            var h' := h2[r := h2[r].(parent := Some(p))];
            Forest(h') && h'.Keys == h.Keys
  {
    var h2 := h[p := h[p].(children := kids)];
    var h' := h2[r := h2[r].(parent := Some(p))];
    forall q | q in h' ensures NodeOk(h', q) {
      assert NodeOk(h, q) && NodeOk(h, p) && NodeOk(h, r);
    }
  }

  lemma {:induction false} AppendAlways(h: Heap, p: Ref, r: Ref)
    requires Forest(h) && p in h && r in h && r != ROOT
    ensures Forest(Append(h, p, r)) && Append(h, p, r).Keys == h.Keys
  {
    DetachAlways(h, r);
    var h1 := Detach(h, r);
    assert NodeOk(h1, p);
    DistinctSnoc(h1[p].children, r);
    hide Forest, Detach;
    PutForest(h1, p, r, h1[p].children + [r]);
  }

  lemma DistinctSnoc(s: seq<Ref>, x: Ref)
    requires Distinct(s) && x !in s
    ensures Distinct(s + [x])
  {
  }

  lemma {:induction false} PutBeforeIs(cs: seq<Ref>, r: Ref, sib: Ref)
    requires Distinct(cs) && r !in cs
    ensures Distinct(PutBefore(cs, r, sib)) && forall x :: x in PutBefore(cs, r, sib) <==> x in cs || x == r
    decreases cs
  {
    if cs == [] {
    } else if cs[0] == sib {
      DistinctCons(r, cs);
    } else {
      PutBeforeIs(cs[1..], r, sib);
      assert cs == [cs[0]] + cs[1..] && cs[0] !in cs[1..];
      hide Distinct;
      DistinctCons(cs[0], PutBefore(cs[1..], r, sib));
    }
  }

  lemma DistinctCons(x: Ref, s: seq<Ref>)
    requires Distinct(s) && x !in s
    ensures Distinct([x] + s)
  {
  }

  lemma {:induction false} InsertAlways(h: Heap, p: Ref, r: Ref, sib: Ref)
    requires Forest(h) && r in h && r != ROOT
    ensures Forest(InsertBefore(h, p, r, sib)) && InsertBefore(h, p, r, sib).Keys == h.Keys
  {
    if At(h, sib).parent == Some(p) && sib != r {
      assert NodeOk(h, sib);
      DetachAlways(h, r);
      var h1 := Detach(h, r);
      assert NodeOk(h1, p);
      PutBeforeIs(h1[p].children, r, sib);
      hide Forest, Detach, PutBefore;
      PutForest(h1, p, r, PutBefore(h1[p].children, r, sib));
    }
  }

  lemma {:induction false} DetachAllAlways(h: Heap, p: Ref)
    requires Forest(h) && p in h
    ensures Forest(DetachAll(h, p)) && DetachAll(h, p).Keys == h.Keys
  {
    var h' := DetachAll(h, p);
    assert NodeOk(h, p);
    forall q | q in h' ensures NodeOk(h', q) {
      assert NodeOk(h, q);
    }
    RootNoChild(h, p);
  }

  lemma RootNoChild(h: Heap, p: Ref)
    requires Forest(h) && p in h
    ensures ROOT !in h[p].children
  {
    assert NodeOk(h, p);
  }

  lemma {:induction false} SwapAlways(h: Heap, a: Ref, b: Ref)
    requires Forest(h) && a in h && b in h && a != ROOT && b != ROOT
    ensures Forest(SwapRefs(h, a, b)) && SwapRefs(h, a, b).Keys == h.Keys
  {
    var parentA, nextA, parentB := ParentOf(h, a), NextSibling(h, a), ParentOf(h, b);
    ParentThere(h, a);
    hide Forest, InsertBefore, Append, NextSibling;
    if nextA == Some(b) {
      if parentA.Some? {
        InsertAlways(h, parentA.value, b, a);
      }
    } else {
      var h1 := if parentB.Some? then InsertBefore(h, parentB.value, a, b) else h;
      if parentB.Some? {
        InsertAlways(h, parentB.value, a, b);
      }
      if parentA.Some? {
        if nextA.None? {
          AppendAlways(h1, parentA.value, b);
        } else {
          InsertAlways(h1, parentA.value, b, nextA.value);
        }
      }
    }
  }

  lemma ParentThere(h: Heap, r: Ref)
    requires Forest(h) && r in h
    ensures ParentOf(h, r).Some? ==> ParentOf(h, r).value in h
  {
    assert NodeOk(h, r);
  }

  // ------------------------------------------------------------ every instruction

  lemma {:induction false} HeapValid(c: Client, h: Heap)
    requires Valid(c) && Forest(h) && h.Keys == c.heap.Keys
    ensures Valid(c.(heap := h))
  {
    hide Forest;
  }

  lemma ValidRest(c: Client, n: nat, existing: set<uint32>, ds: seq<Deferred>)
    requires Valid(c)
    ensures Valid(c.(depth := n, existing := existing, deferred := ds))
  {
  }

  lemma ValidFewer(c: Client, nodes: map<uint32, Ref>)
    requires Valid(c) && nodes.Keys <= c.nodes.Keys && forall id | id in nodes :: nodes[id] == c.nodes[id]
    ensures Valid(c.(nodes := nodes))
  {
    hide Forest;
  }

  lemma {:induction false} PlaceAlways(c: Client, id: uint32, r: Ref, parent: uint32, sibling: uint32)
    requires Valid(c) && r in c.heap && r != ROOT
    ensures Valid(Place(c, id, r, parent, sibling))
  {
    NodesBelowNext(c);
    assert Forest(c.heap);
    hide Valid, Forest, Append, InsertBefore;
    if sibling == 0 && c.depth > 0 && parent in c.existing {
      ValidRest(c, c.depth, c.existing, c.deferred + [Deferred(id, parent)]);
    } else if parent in c.nodes {
      if sibling != 0 && sibling in c.nodes {
        InsertAlways(c.heap, c.nodes[parent], r, c.nodes[sibling]);
        HeapValid(c, InsertBefore(c.heap, c.nodes[parent], r, c.nodes[sibling]));
      } else {
        AppendAlways(c.heap, c.nodes[parent], r);
        HeapValid(c, Append(c.heap, c.nodes[parent], r));
      }
    } else if parent == 0 {
      AppendAlways(c.heap, ROOT, r);
      HeapValid(c, Append(c.heap, ROOT, r));
    }
  }

  lemma {:induction false} MoveAlways(c: Client, r: Ref, parent: uint32, sibling: uint32)
    requires Valid(c) && r in c.heap && r != ROOT
    ensures Valid(MoveNode(c, r, parent, sibling))
  {
    NodesBelowNext(c);
    assert Forest(c.heap);
    var h := Detach(c.heap, r);
    var p := if parent in c.nodes then c.nodes[parent] else ROOT;
    DetachAlways(c.heap, r);
    hide Valid, Forest, Append, InsertBefore, Detach;
    if sibling != 0 && sibling in c.nodes {
      InsertAlways(h, p, r, c.nodes[sibling]);
      HeapValid(c, InsertBefore(h, p, r, c.nodes[sibling]));
    } else {
      AppendAlways(h, p, r);
      HeapValid(c, Append(h, p, r));
    }
  }

  lemma CreatedThere(c: Client, id: uint32, e: Elem)
    requires Valid(c)
    ensures var c1 := Create(c, id, e); c.next in c1.heap && c.next != ROOT
  {
  }

  lemma {:induction false} InsertValid(c: Client, id: uint32, parent: uint32, sibling: uint32, tag: Str,
                                       attrs: map<Str, Str>)
    requires Valid(c)
    ensures Valid(Insert(c, id, parent, sibling, tag, attrs))
  {
    NodesBelowNext(c);
    var e := NewElem(id, tag, attrs);
    CreateAgain(c, id, e);
    CreatedThere(c, id, e);
    hide Valid, Place, MoveNode, Create;
    if id in c.nodes {
      MoveAlways(c, c.nodes[id], parent, sibling);
    } else {
      PlaceAlways(Create(c, id, e), id, c.next, parent, sibling);
    }
  }

  lemma {:induction false} InsertTextValid(c: Client, id: uint32, parent: uint32, text: Str)
    requires Valid(c)
    ensures Valid(InsertTextNode(c, id, parent, text))
  {
    var e := NewText(text);
    CreateAgain(c, id, e);
    CreatedThere(c, id, e);
    hide Valid, Place, Create;
    PlaceAlways(Create(c, id, e), id, c.next, parent, 0);
  }

  /** A node that is created but not registered. */
  lemma {:induction false} FreshNode(c: Client, e: Elem)
    requires Valid(c) && e.parent.None? && e.children == []
    ensures var c1 := c.(heap := c.heap[c.next := e], next := c.next + 1);
            Valid(c1) && c.next != ROOT
  {
    var h := c.heap[c.next := e];
    forall p | p in h ensures NodeOk(h, p) {
      if p != c.next {
        assert NodeOk(c.heap, p);
      }
    }
  }

  lemma {:induction false} SetTextValid(c: Client, id: uint32, text: Str)
    requires Valid(c)
    ensures Valid(SetText(c, id, text))
  {
    if id in c.nodes {
      NodesBelowNext(c);
      hide Valid, SetTextContent;
      ContentValid(c, c.nodes[id], text);
    }
  }

  lemma {:induction false} ContentValid(c: Client, r: Ref, text: Str)
    requires Valid(c) && r in c.heap
    ensures Valid(SetTextContent(c, r, text))
  {
    var e := c.heap[r];
    assert Forest(c.heap);
    hide Valid, Forest, DetachAll, Append;
    if IsText(e) {
      AlterForest(c.heap, r, e.(text := text));
      HeapValid(c, c.heap[r := e.(text := text)]);
    } else {
      DetachAllAlways(c.heap, r);
      var c1 := c.(heap := DetachAll(c.heap, r));
      HeapValid(c, c1.heap);
      if text != [] {
        NewTextValid(c1, r, text);
      }
    }
  }

  lemma {:induction false} NewTextValid(c: Client, r: Ref, text: Str)
    requires Valid(c) && r in c.heap
    ensures Valid(c.(heap := Append(c.heap[c.next := NewText(text)], r, c.next), next := c.next + 1))
  {
    FreshNode(c, NewText(text));
    var c2 := c.(heap := c.heap[c.next := NewText(text)], next := c.next + 1);
    assert Forest(c2.heap);
    hide Valid, Forest, Append;
    AppendAlways(c2.heap, r, c.next);
    HeapValid(c2, Append(c2.heap, r, c.next));
  }

  lemma {:induction false} SetTextsValid(c: Client, updates: seq<(uint32, Str)>)
    requires Valid(c)
    ensures Valid(SetTexts(c, updates))
    decreases updates
  {
    hide Valid, SetText;
    if updates != [] {
      SetTextValid(c, updates[0].0, updates[0].1);
      SetTextsValid(SetText(c, updates[0].0, updates[0].1), updates[1..]);
    }
  }

  lemma {:induction false} AlterValid(c: Client, id: uint32, e: Elem)
    requires Valid(c) && SameShape(Registered(c, id), e)
    ensures Valid(Alter(c, id, e))
  {
    if id in c.nodes {
      NodesBelowNext(c);
      AlterForest(c.heap, c.nodes[id], e);
      HeapValid(c, c.heap[c.nodes[id] := e]);
    }
  }

  lemma {:induction false} RemoveValid(c: Client, id: uint32)
    requires Valid(c)
    ensures Valid(Remove(c, id))
  {
    if id in c.nodes {
      NodesBelowNext(c);
      DetachForest(c.heap, c.nodes[id]);
      hide IdsBelow, Detach;
      HeapValid(c, Detach(c.heap, c.nodes[id]));
      hide Valid;
      ValidFewer(c.(heap := Detach(c.heap, c.nodes[id])), c.nodes - IdsBelow(c.heap, c.nodes[id]) - {id});
    }
  }

  lemma {:induction false} ClearValid(c: Client, parent: uint32)
    requires Valid(c)
    ensures Valid(Clear(c, parent))
  {
    var p := if parent in c.nodes then c.nodes[parent] else ROOT;
    NodesBelowNext(c);
    DetachAllAlways(c.heap, p);
    hide IdsBelow, DetachAll;
    HeapValid(c, DetachAll(c.heap, p));
    hide Valid;
    ValidFewer(c.(heap := DetachAll(c.heap, p)), c.nodes - IdsBelow(c.heap, p));
  }

  lemma {:induction false} SwapValid(c: Client, a: uint32, b: uint32)
    requires Valid(c)
    ensures Valid(Swap(c, a, b))
  {
    if a in c.nodes && b in c.nodes {
      NodesBelowNext(c);
      SwapAlways(c.heap, c.nodes[a], c.nodes[b]);
      hide SwapRefs;
      HeapValid(c, SwapRefs(c.heap, c.nodes[a], c.nodes[b]));
    }
  }

  lemma {:induction false} SettleValid(c: Client, d: Deferred)
    requires Valid(c)
    ensures Valid(Settle(c, d))
  {
    if d.node in c.nodes {
      var r := c.nodes[d.node];
      var p := if d.parent in c.nodes then c.nodes[d.parent] else ROOT;
      NodesBelowNext(c);
      AppendAlways(c.heap, p, r);
      DetachForest(c.heap, r);
      hide Append, Detach;
      HeapValid(c, Append(c.heap, p, r));
      HeapValid(c, Detach(c.heap, r));
      hide Valid;
    }
  }

  lemma {:induction false} SettleAllValid(c: Client, ds: seq<Deferred>)
    requires Valid(c)
    ensures Valid(SettleAll(c, ds))
    decreases ds
  {
    hide Valid, Settle;
    if ds != [] {
      SettleValid(c, ds[0]);
      SettleAllValid(Settle(c, ds[0]), ds[1..]);
    }
  }

  lemma {:induction false} LabelValid(c: Client, m: Msg)
    requires Valid(c) && (m.SetAttr? || m.RemoveAttr? || m.SetStyle?)
    ensures Valid(Apply(c, m))
  {
    hide Valid, SetProperty, Alter, Registered;
    match m
    case SetAttr(node, key, value) =>
      AlterValid(c, node, Registered(c, node).(attrs := Registered(c, node).attrs[key := value]));
    case RemoveAttr(node, key) =>
      AlterValid(c, node, Registered(c, node).(attrs := Registered(c, node).attrs - {key}));
    case SetStyle(node, key, value) =>
      AlterValid(c, node, Registered(c, node).(styles := SetProperty(Registered(c, node).styles, key, value)));
    case _ =>
  }

  /** No instruction, however odd, breaks the page or the registry. */
  lemma {:induction false} ApplyValid(c: Client, m: Msg)
    requires Valid(c)
    ensures Valid(Apply(c, m))
    decreases m
  {
    hide Valid, FromPairs, SetProperty, Insert, InsertTextNode, SetText, SetTexts, Alter, Registered, Remove, Clear,
         Swap, Process;
    match m
    case InsertNode(node, parent, sibling, tag, attrs) => InsertValid(c, node, parent, sibling, tag, FromPairs(attrs));
    case InsertText(node, parent, text) => InsertTextValid(c, node, parent, text);
    case UpdateText(node, text) => SetTextValid(c, node, text);
    case SetAttr(_, _, _) => LabelValid(c, m);
    case RemoveAttr(_, _) => LabelValid(c, m);
    case SetStyle(_, _, _) => LabelValid(c, m);
    case RemoveNode(node) => RemoveValid(c, node);
    case ClearChildren(parent) => ClearValid(c, parent);
    case SwapNodes(a, b) => SwapValid(c, a, b);
    case BatchText(updates) => SetTextsValid(c, updates);
    case Batch(children) => ProcessValid(c, children);
    case _ =>
  }

  lemma {:induction false} ApplyAllValid(c: Client, msgs: seq<Msg>)
    requires Valid(c)
    ensures Valid(ApplyAll(c, msgs))
    decreases msgs, 0
  {
    hide Valid, Apply;
    if msgs != [] {
      ApplyValid(c, msgs[0]);
      ApplyAllValid(Apply(c, msgs[0]), msgs[1..]);
    }
  }

  lemma {:induction false} BeginValid(c: Client)
    requires Valid(c)
    ensures Valid(Begin(c))
  {
    ValidRest(c, Begin(c).depth, Begin(c).existing, Begin(c).deferred);
  }

  lemma {:induction false} EndValid(c: Client)
    requires Valid(c) && c.depth > 0
    ensures Valid(End(c))
  {
    ValidRest(c, c.depth - 1, c.existing, c.deferred);
    hide Valid, SettleAll;
    if c.depth == 1 {
      var c1 := SettleAll(c.(depth := 0), c.deferred);
      SettleAllValid(c.(depth := 0), c.deferred);
      ValidRest(c1, c1.depth, c1.existing, []);
    }
  }

  /** Every stream, processed by any client whose page is a proper tree, leaves one. */
  lemma {:induction false} ProcessValid(c: Client, msgs: seq<Msg>)
    requires Valid(c)
    ensures Valid(Process(c, msgs))
    decreases msgs, 1
  {
    BeginValid(c);
    hide Valid, ApplyAll, End;
    ApplyAllValid(Begin(c), msgs);
    EndValid(ApplyAll(Begin(c), msgs));
    ForUpdate.ProcessIs(c, msgs);
  }
}
