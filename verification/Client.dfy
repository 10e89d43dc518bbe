/**
 What the client does with each instruction (pkg/wasm/patch.go), as functions
 on its whole state: the DOM, the registry from node ids to DOM nodes, and the
 batch variables.
 */
module Client {
  import opened Seqs
  import opened Wire
  import opened Dom

  /** An attachment put off to the end of the batch. */
  datatype Deferred = Deferred(node: uint32, parent: uint32)

  datatype Client = Client(
    heap: Heap,
    next: Ref,                     // DOM nodes are created with ever new identities
    nodes: map<uint32, Ref>,       // the registry
    depth: nat,                    // batchDepth
    existing: set<uint32>,         // batchExisting
    deferred: seq<Deferred>)       // batchDeferred

  /** A page whose root is still empty. */
  const EMPTY: Client := Client(map[ROOT := BLANK], 1, map[], 0, {}, [])

  // ------------------------------------------------------------- pieces

  function NewElem(id: uint32, tag: Str, attrs: map<Str, Str>): Elem {
    Elem(tag, [], attrs, map[], [], None, if tag == TEXT_TAG then None else Some(id))
  }

  function NewText(text: Str): Elem {
    Elem(TEXT_TAG, text, map[], map[], [], None, None)
  }

  /** Creates `e` and registers it under `id`. */
  function Create(c: Client, id: uint32, e: Elem): Client {
    c.(heap := c.heap[c.next := e], next := c.next + 1, nodes := c.nodes[id := c.next])
  }

  /** Where a freshly created node goes: put off, below its parent, below the root, or nowhere. */
  function Place(c: Client, id: uint32, r: Ref, parent: uint32, sibling: uint32): Client {
    if sibling == 0 && c.depth > 0 && parent in c.existing then
      c.(deferred := c.deferred + [Deferred(id, parent)])
    else if parent in c.nodes then
      if sibling != 0 && sibling in c.nodes then
        c.(heap := InsertBefore(c.heap, c.nodes[parent], r, c.nodes[sibling]))
      else c.(heap := Append(c.heap, c.nodes[parent], r))
    else if parent == 0 then c.(heap := Append(c.heap, ROOT, r))
    else c
  }

  /** A node already registered is taken out and put at its new place at once. */
  function MoveNode(c: Client, r: Ref, parent: uint32, sibling: uint32): Client {
    var h := Detach(c.heap, r);
    var p := if parent in c.nodes then c.nodes[parent] else ROOT;
    if sibling != 0 && sibling in c.nodes then c.(heap := InsertBefore(h, p, r, c.nodes[sibling]))
    else c.(heap := Append(h, p, r))
  }

  function Insert(c: Client, id: uint32, parent: uint32, sibling: uint32, tag: Str, attrs: map<Str, Str>): Client {
    if id in c.nodes then MoveNode(c, c.nodes[id], parent, sibling)
    else Place(Create(c, id, NewElem(id, tag, attrs)), id, c.next, parent, sibling)
  }

  function InsertTextNode(c: Client, id: uint32, parent: uint32, text: Str): Client {
    Place(Create(c, id, NewText(text)), id, c.next, parent, 0)
  }

  /** `r.textContent = text`. */
  function SetTextContent(c: Client, r: Ref, text: Str): Client {
    var e := At(c.heap, r);
    if IsText(e) then c.(heap := c.heap[r := e.(text := text)])
    else
      var h := DetachAll(c.heap, r);
      if text == [] then c.(heap := h)
      else c.(heap := Append(h[c.next := NewText(text)], r, c.next), next := c.next + 1)
  }

  function SetText(c: Client, id: uint32, text: Str): Client {
    if id in c.nodes then SetTextContent(c, c.nodes[id], text) else c
  }

  function SetTexts(c: Client, updates: seq<(uint32, Str)>): Client
    decreases updates
  {
    if updates == [] then c
    else SetTexts(SetText(c, updates[0].0, updates[0].1), updates[1..])
  }

  /** Changes the attributes or styles of the node registered under `id`, if there is one. */
  function Alter(c: Client, id: uint32, e: Elem): Client {
    if id in c.nodes then c.(heap := c.heap[c.nodes[id] := e]) else c
  }

  function Registered(c: Client, id: uint32): Elem {
    if id in c.nodes then At(c.heap, c.nodes[id]) else BLANK
  }

  /** `setProperty` with an empty value removes the property (CSSOM, section 6.6.1). */
  function SetProperty(styles: map<Str, Str>, key: Str, value: Str): map<Str, Str> {
    if value == [] then styles - {key} else styles[key := value]
  }

  /** The ids found on the elements among `refs`. */
  function BwIds(h: Heap, refs: set<Ref>): set<uint32> {
    set r | r in refs && At(h, r).bwId.Some? :: At(h, r).bwId.value
  }

  /** cleanupDescendants drops the ids of the elements below `r`. */
  function IdsBelow(h: Heap, r: Ref): set<uint32> {
    BwIds(h, Closure(h, {r}) - {r})
  }

  function Remove(c: Client, id: uint32): Client {
    if id in c.nodes then
      c.(heap := Detach(c.heap, c.nodes[id]), nodes := c.nodes - IdsBelow(c.heap, c.nodes[id]) - {id})
    else c
  }

  function Clear(c: Client, parent: uint32): Client {
    var p := if parent in c.nodes then c.nodes[parent] else ROOT;
    c.(heap := DetachAll(c.heap, p), nodes := c.nodes - IdsBelow(c.heap, p))
  }

  function NextSibling(h: Heap, r: Ref): Option<Ref> {
    if ParentOf(h, r).None? || r !in Kids(h, ParentOf(h, r).value) then None
    else
      var cs := Kids(h, ParentOf(h, r).value);
      var i := IndexOf(cs, r);
      if i + 1 < |cs| then Some(cs[i + 1]) else None
  }

  /** The three cases of OpSwapNodes. */
  function SwapRefs(h: Heap, a: Ref, b: Ref): Heap {
    var parentA, nextA := ParentOf(h, a), NextSibling(h, a);
    if nextA == Some(b) then
      if parentA.Some? then InsertBefore(h, parentA.value, b, a) else h
    else
      var parentB := ParentOf(h, b);
      var h1 := if parentB.Some? then InsertBefore(h, parentB.value, a, b) else h;
      if parentA.None? then h1
      else if nextA.None? then Append(h1, parentA.value, b)
      else InsertBefore(h1, parentA.value, b, nextA.value)
  }

  function Swap(c: Client, a: uint32, b: uint32): Client {
    if a in c.nodes && b in c.nodes then c.(heap := SwapRefs(c.heap, c.nodes[a], c.nodes[b])) else c
  }

  // -------------------------------------------------- instructions, batches

  /** Entering applyOpcodes: the outermost call takes the snapshot. */
  function Begin(c: Client): Client {
    if c.depth == 0 then c.(depth := 1, existing := c.nodes.Keys, deferred := [])
    else c.(depth := c.depth + 1)
  }

  /** One deferred attachment: an unregistered parent other than 0 leaves the node unattached. */
  function Settle(c: Client, d: Deferred): Client {
    if d.node !in c.nodes then c
    else if d.parent in c.nodes then c.(heap := Append(c.heap, c.nodes[d.parent], c.nodes[d.node]))
    else if d.parent == 0 then c.(heap := Append(c.heap, ROOT, c.nodes[d.node]))
    else c.(heap := Detach(c.heap, c.nodes[d.node]))
  }

  function SettleAll(c: Client, ds: seq<Deferred>): Client
    decreases ds
  {
    if ds == [] then c else SettleAll(Settle(c, ds[0]), ds[1..])
  }

  /** flushDeferredInserts. */
  function Flush(c: Client): Client {
    SettleAll(c, c.deferred).(deferred := [])
  }

  /** Leaving applyOpcodes: the outermost call flushes. */
  function End(c: Client): Client
    requires c.depth > 0
  {
    if c.depth == 1 then Flush(c.(depth := 0)) else c.(depth := c.depth - 1)
  }

  /** One frame (applyFrame); instructions that do not touch the tree leave the state alone. */
  function Apply(c: Client, m: Msg): (r: Client)
    ensures r.depth == c.depth
    decreases m
  {
    match m
    case UpdateText(node, text) => SetText(c, node, text)
    case SetAttr(node, key, value) =>
      Alter(c, node, Registered(c, node).(attrs := Registered(c, node).attrs[key := value]))
    case RemoveAttr(node, key) =>
      Alter(c, node, Registered(c, node).(attrs := Registered(c, node).attrs - {key}))
    case InsertNode(node, parent, sibling, tag, attrs) => Insert(c, node, parent, sibling, tag, FromPairs(attrs))
    case InsertText(node, parent, text) => InsertTextNode(c, node, parent, text)
    case RemoveNode(node) => Remove(c, node)
    case SetStyle(node, key, value) =>
      Alter(c, node, Registered(c, node).(styles := SetProperty(Registered(c, node).styles, key, value)))
    case ClearChildren(parent) => Clear(c, parent)
    case SwapNodes(a, b) => Swap(c, a, b)
    case BatchText(updates) => SetTextsKeepsDepth(c, updates); SetTexts(c, updates)
    case Batch(children) => SettleKeepsDepth(); Process(c, children)
    case _ => c
  }

  function ApplyAll(c: Client, msgs: seq<Msg>): (r: Client)
    ensures r.depth == c.depth
    decreases msgs, 0
  {
    if msgs == [] then c else ApplyAll(Apply(c, msgs[0]), msgs[1..])
  }

  /** applyOpcodes on the frames of `msgs`. */
  function Process(c: Client, msgs: seq<Msg>): (r: Client)
    ensures r.depth == c.depth
    decreases msgs, 1
  {
    SettleKeepsDepth();
    End(ApplyAll(Begin(c), msgs))
  }

  lemma {:induction false} SetTextsKeepsDepth(c: Client, updates: seq<(uint32, Str)>)
    ensures SetTexts(c, updates).depth == c.depth
    decreases updates
  {
    if updates != [] {
      SetTextsKeepsDepth(SetText(c, updates[0].0, updates[0].1), updates[1..]);
    }
  }

  lemma {:induction false} SettleAllKeeps(c: Client, ds: seq<Deferred>)
    ensures SettleAll(c, ds) == c.(heap := SettleAll(c, ds).heap)
    decreases ds
  {
    if ds != [] {
      SettleAllKeeps(Settle(c, ds[0]), ds[1..]);
    }
  }

  /** The depth does not matter to attachments. */
  lemma {:induction false} SettleAllDepth(c: Client, ds: seq<Deferred>, d: nat)
    ensures SettleAll(c.(depth := d), ds) == SettleAll(c, ds).(depth := d)
    decreases ds
  {
    if ds != [] {
      SettleAllDepth(Settle(c, ds[0]), ds[1..], d);
    }
  }

  lemma {:induction false} SettleKeepsDepth()
    ensures forall c, ds :: SettleAll(c, ds).depth == c.depth
  {
    forall c, ds ensures SettleAll(c, ds).depth == c.depth {
      SettleAllKeeps(c, ds);
    }
  }

  // ------------------------------------------------------------- validity

  /** The registry names distinct nodes of a well-formed tree, none of them the root. */
  ghost predicate Valid(c: Client) {
    && Forest(c.heap)
    && (forall r | r in c.heap :: r < c.next)
    && (forall id | id in c.nodes :: c.nodes[id] in c.heap && c.nodes[id] != ROOT)
    && (forall i, j | i in c.nodes && j in c.nodes && c.nodes[i] == c.nodes[j] :: i == j)
  }

  lemma {:induction false} CreateValid(c: Client, id: uint32, e: Elem)
    requires Valid(c) && id !in c.nodes && e.parent.None? && e.children == []
    ensures Valid(Create(c, id, e))
  {
    var h := c.heap[c.next := e];
    forall p | p in h ensures NodeOk(h, p) {
      if p != c.next {
        assert NodeOk(c.heap, p);
      }
    }
  }

  lemma {:induction false} AttachValid(c: Client, q: Ref, r: Ref)
    requires Valid(c) && q in c.heap && r in c.heap && q != r && r != ROOT && c.heap[r].parent.None?
    ensures Valid(c.(heap := Append(c.heap, q, r)))
  {
    AttachForest(c.heap, q, r);
  }

  /** The next identity occurs nowhere yet. */
  lemma {:induction false} NextUnseen(c: Client)
    requires Valid(c)
    ensures c.next !in c.heap && c.next != ROOT && ROOT in c.heap
    ensures forall r :: c.next !in Kids(c.heap, r)
    ensures forall id | id in c.nodes :: c.nodes[id] != c.next
  {
    forall r | r in c.heap ensures c.next !in c.heap[r].children {
      assert NodeOk(c.heap, r);
    }
  }

  lemma {:induction false} NodesInHeap(c: Client)
    requires Valid(c)
    ensures forall id | id in c.nodes :: c.nodes[id] in c.heap && c.nodes[id] != ROOT
    ensures ROOT in c.heap
  {
  }

  // --------------------------------------------------------- inlined batches

  /** The instructions of a stream with every batch frame replaced by its contents. */
  function Flatten(msgs: seq<Msg>): seq<Msg>
    decreases msgs
  {
    if msgs == [] then []
    else (if msgs[0].Batch? then Flatten(msgs[0].children) else [msgs[0]]) + Flatten(msgs[1..])
  }

  lemma {:induction false} ApplyAllSplit(c: Client, a: seq<Msg>, b: seq<Msg>)
    ensures ApplyAll(c, a + b) == ApplyAll(ApplyAll(c, a), b)
    decreases a
  {
    if a == [] {
      assert a + b == b;
    } else {
      assert (a + b)[1..] == a[1..] + b;
      ApplyAllSplit(Apply(c, a[0]), a[1..], b);
    }
  }

  lemma {:induction false} ApplyCons(c: Client, msgs: seq<Msg>)
    requires msgs != []
    ensures ApplyAll(c, msgs) == ApplyAll(Apply(c, msgs[0]), msgs[1..])
    ensures |msgs| == 1 ==> ApplyAll(c, msgs) == Apply(c, msgs[0])
    ensures |msgs| == 2 ==> ApplyAll(c, msgs) == Apply(Apply(c, msgs[0]), msgs[1])
  {
    hide Apply;
    if |msgs| == 2 {
      assert msgs[1..][0] == msgs[1] && msgs[1..][1..] == [];
    }
  }

  lemma {:induction false} SetTextsDepth(c: Client, updates: seq<(uint32, Str)>, d: nat)
    ensures SetTexts(c.(depth := d), updates) == SetTexts(c, updates).(depth := d)
    decreases updates
  {
    if updates != [] {
      SetTextsDepth(SetText(c, updates[0].0, updates[0].1), updates[1..], d);
    }
  }

  lemma {:induction false} InsertDepth(c: Client, id: uint32, parent: uint32, sibling: uint32, tag: Str,
                                       attrs: map<Str, Str>, d: nat)
    requires c.depth > 0 && d > 0
    ensures Insert(c.(depth := d), id, parent, sibling, tag, attrs)
            == Insert(c, id, parent, sibling, tag, attrs).(depth := d)
  {
    hide Detach, Append, InsertBefore;
  }

  lemma SetTextDepth(c: Client, id: uint32, text: Str, d: nat)
    ensures SetText(c.(depth := d), id, text) == SetText(c, id, text).(depth := d)
  {
  }

  lemma AlterDepth(c: Client, id: uint32, e: Elem, d: nat)
    ensures Alter(c.(depth := d), id, e) == Alter(c, id, e).(depth := d)
    ensures Registered(c.(depth := d), id) == Registered(c, id)
  {
  }

  lemma InsertTextDepth(c: Client, id: uint32, parent: uint32, text: Str, d: nat)
    requires c.depth > 0 && d > 0
    ensures InsertTextNode(c.(depth := d), id, parent, text) == InsertTextNode(c, id, parent, text).(depth := d)
  {
    hide Append;
  }

  lemma StructureDepth(c: Client, a: uint32, b: uint32, d: nat)
    ensures Remove(c.(depth := d), a) == Remove(c, a).(depth := d)
    ensures Clear(c.(depth := d), a) == Clear(c, a).(depth := d)
    ensures Swap(c.(depth := d), a, b) == Swap(c, a, b).(depth := d)
  {
    hide Detach, DetachAll, SwapRefs, IdsBelow;
  }

  lemma {:induction false} LabelDepth(c: Client, m: Msg, d: nat)
    requires m.SetAttr? || m.RemoveAttr? || m.SetStyle?
    ensures Apply(c.(depth := d), m) == Apply(c, m).(depth := d)
  {
    hide SetProperty, Alter, Registered;
    match m
    case SetAttr(node, key, value) =>
      AlterDepth(c, node, Registered(c, node).(attrs := Registered(c, node).attrs[key := value]), d);
    case RemoveAttr(node, key) =>
      AlterDepth(c, node, Registered(c, node).(attrs := Registered(c, node).attrs - {key}), d);
    case SetStyle(node, key, value) =>
      AlterDepth(c, node, Registered(c, node).(styles := SetProperty(Registered(c, node).styles, key, value)), d);
    case _ =>
  }

  /** How deep a batch is nested makes no difference. */
  lemma {:induction false} ApplyDepth(c: Client, m: Msg, d: nat)
    requires c.depth > 0 && d > 0
    ensures Apply(c.(depth := d), m) == Apply(c, m).(depth := d)
    decreases m
  {
    hide FromPairs, SetProperty, Insert, InsertTextNode, SetText, SetTexts, Alter, Registered, Remove, Clear, Swap,
         Process;
    match m
    case InsertNode(node, parent, sibling, tag, attrs) =>
      InsertDepth(c, node, parent, sibling, tag, FromPairs(attrs), d);
    case InsertText(node, parent, text) => InsertTextDepth(c, node, parent, text, d);
    case UpdateText(node, text) => SetTextDepth(c, node, text, d);
    case SetAttr(_, _, _) => LabelDepth(c, m, d);
    case RemoveAttr(_, _) => LabelDepth(c, m, d);
    case SetStyle(_, _, _) => LabelDepth(c, m, d);
    case RemoveNode(node) => StructureDepth(c, node, 0, d);
    case ClearChildren(parent) => StructureDepth(c, parent, 0, d);
    case SwapNodes(a, b) => StructureDepth(c, a, b, d);
    case BatchText(updates) => SetTextsDepth(c, updates, d);
    case Batch(children) => ProcessDepth(c, children, d);
    case _ =>
  }

  lemma {:induction false} ProcessDepth(c: Client, msgs: seq<Msg>, d: nat)
    requires c.depth > 0 && d > 0
    ensures Process(c.(depth := d), msgs) == Process(c, msgs).(depth := d)
    decreases msgs, 1
  {
    hide Apply, SettleAll;
    ApplyAllDepth(c, msgs, d + 1);
    ApplyAllDepth(c, msgs, c.depth + 1);
  }

  lemma {:induction false} ApplyAllDepth(c: Client, msgs: seq<Msg>, d: nat)
    requires c.depth > 0 && d > 0
    ensures ApplyAll(c.(depth := d), msgs) == ApplyAll(c, msgs).(depth := d)
    decreases msgs, 0
  {
    if msgs != [] {
      ApplyDepth(c, msgs[0], d);
      ApplyAllDepth(Apply(c, msgs[0]), msgs[1..], d);
    }
  }

  /** Inside a batch, a batch frame acts exactly like its frames in its place. */
  lemma {:induction false} NestedInlined(c: Client, msgs: seq<Msg>)
    requires c.depth > 0
    ensures ApplyAll(c, msgs) == ApplyAll(c, Flatten(msgs))
    decreases msgs
  {
    if msgs != [] {
      var m := msgs[0];
      NestedInlined(Apply(c, m), msgs[1..]);
      if m.Batch? {
        ApplyAllDepth(c, m.children, c.depth + 1);
        assert Apply(c, m) == ApplyAll(c, m.children);
        NestedInlined(c, m.children);
        ApplyAllSplit(c, Flatten(m.children), Flatten(msgs[1..]));
      } else {
        ApplyAllSplit(c, [m], Flatten(msgs[1..]));
        assert ApplyAll(c, [m]) == Apply(c, m);
      }
    }
  }

  /** A whole stream may be flattened, whatever its nesting. */
  lemma {:induction false} BatchesInlined(c: Client, msgs: seq<Msg>)
    ensures Process(c, msgs) == Process(c, Flatten(msgs))
  {
    NestedInlined(Begin(c), msgs);
  }
}
