/**
 Deferred attachment preserves meaning: putting the attachment of new nodes off
 to the end of the batch shows the same page as attaching each at once.
 */
module Deferral {
  import opened Seqs
  import opened Wire
  import opened Dom
  import opened Client

  // ---------------------------------------------------------- what is shown

  /** A node as the page shows it, with its subtree. */
  datatype Shown = Shown(tag: Str, text: Str, attrs: map<Str, Str>, styles: map<Str, Str>, children: seq<Shown>)

  /** The subtree at `r`, down to the given depth. */
  function View(h: Heap, r: Ref, depth: nat): Shown
    decreases depth
  {
    var e := At(h, r);
    Shown(e.tag, e.text, e.attrs, e.styles,
          if depth == 0 then []
          else seq(|e.children|, i requires 0 <= i < |e.children| => View(h, e.children[i], depth - 1)))
  }

  // ------------------------------------------------------ the streams covered

  /**
   New nodes are appended (sibling 0) under a fresh id; texts are set on text
   nodes only; nothing is moved, swapped or cleared.  `texts` are the ids that
   stand for text nodes.
   */
  ghost predicate Plain(m: Msg, texts: set<uint32>) {
    match m
    case InsertNode(node, parent, sibling, tag, _) =>
      node != 0 && sibling == 0 && parent != node && parent !in texts && (node in texts <==> tag == TEXT_TAG)
    case InsertText(node, parent, _) => node != 0 && parent != node && node in texts && parent !in texts
    case UpdateText(node, _) => node in texts
    case BatchText(updates) => forall u | u in updates :: u.0 in texts
    case ClearChildren(_) => false
    case SwapNodes(_, _) => false
    case Batch(_) => false
    case _ => true
  }

  function NewIds(m: Msg): set<uint32> {
    match m
    case InsertNode(node, _, _, _, _) => {node}
    case InsertText(node, _, _) => {node}
    case _ => {}
  }

  /** Every instruction is plain and inserts ids neither used nor inserted before. */
  ghost predicate FreshStream(msgs: seq<Msg>, texts: set<uint32>, used: set<uint32>)
    decreases msgs
  {
    msgs == [] ||
    (Plain(msgs[0], texts) && NewIds(msgs[0]) !! used && FreshStream(msgs[1..], texts, used + NewIds(msgs[0])))
  }

  ghost predicate Typed(c: Client, texts: set<uint32>) {
    forall id | id in c.nodes :: id in texts <==> IsText(At(c.heap, c.nodes[id]))
  }

  /** An element's id is registered for that element or not at all, and counts as used. */
  ghost predicate IdsKept(c: Client, used: set<uint32>) {
    && (forall id | id in c.nodes :: id in used)
    && (forall r | r in c.heap && c.heap[r].bwId.Some? ::
          c.heap[r].bwId.value in used && (c.heap[r].bwId.value in c.nodes ==> c.nodes[c.heap[r].bwId.value] == r))
  }

  // ------------------------------------------------- relating the two machines

  /** Nodes that wait to be attached to `r`. */
  function Pending(nodes: map<uint32, Ref>, ds: seq<Deferred>, r: Ref): seq<Ref>
    decreases ds
  {
    if ds == [] then []
    else
      (if ds[0].node in nodes && ds[0].parent in nodes && nodes[ds[0].parent] == r then [nodes[ds[0].node]] else [])
      + Pending(nodes, ds[1..], r)
  }

  /** Same nodes; those outside `dead` look the same. */
  ghost predicate SameNodes(dh: Heap, ih: Heap, dead: set<Ref>) {
    && dh.Keys == ih.Keys
    && (forall r | r in dh :: dh[r].tag == ih[r].tag && dh[r].bwId == ih[r].bwId)
    && (forall r | r in dh && r !in dead ::
          dh[r].text == ih[r].text && dh[r].attrs == ih[r].attrs && dh[r].styles == ih[r].styles)
  }

  /** One machine may know dead nodes the other has forgotten. */
  ghost predicate SameRegistry(dn: map<uint32, Ref>, ins: map<uint32, Ref>, dead: set<Ref>) {
    && (forall id | id in ins :: id in dn || ins[id] in dead)
    && (forall id | id in dn :: id in ins || dn[id] in dead)
    && (forall id | id in dn && id in ins :: dn[id] == ins[id])
  }

  /** What waits below a dead node is dead. */
  ghost predicate DeadWait(nodes: map<uint32, Ref>, ds: seq<Deferred>, dead: set<Ref>) {
    forall i | 0 <= i < |ds| && ds[i].node in nodes && ds[i].parent in nodes ::
      nodes[ds[i].parent] in dead ==> nodes[ds[i].node] in dead
  }

  /** Outside `dead`, child lists agree once the waiting nodes are added. */
  ghost predicate SameChildren(d: Client, ih: Heap, dead: set<Ref>) {
    forall r | r in ih && r !in dead :: Kids(ih, r) == Kids(d.heap, r) + Pending(d.nodes, d.deferred, r)
  }

  /** Dead nodes hang below dead nodes only, and the rest below the rest. */
  ghost predicate DeadApart(dh: Heap, ih: Heap, dead: set<Ref>) {
    && ROOT !in dead
    && dead <= ih.Keys
    && (forall r, x | r in dead && x in Kids(dh, r) :: x in dead)
    && (forall r, x | r in dead && x in Kids(ih, r) :: x in dead)
    && (forall r, x | r in ih && r !in dead && x in Kids(ih, r) :: x !in dead)
  }

  /** Waiting nodes are unattached, wait once, and below a node of the snapshot. */
  ghost predicate Waiting(d: Client, used: set<uint32>) {
    && 0 !in d.existing
    && d.existing <= used
    && (forall i | 0 <= i < |d.deferred| :: 
          d.deferred[i].parent in d.existing && d.deferred[i].node !in d.existing && d.deferred[i].node in used)
    && (forall i, j | 0 <= i < j < |d.deferred| :: d.deferred[i].node != d.deferred[j].node)
    && (forall i | 0 <= i < |d.deferred| && d.deferred[i].node in d.nodes ::
          ParentOf(d.heap, d.nodes[d.deferred[i].node]) == None)
  }

  ghost predicate Related(d: Client, i: Client, dead: set<Ref>, texts: set<uint32>, used: set<uint32>) {
    && Valid(d) && Valid(i)
    && d.next == i.next && d.depth > 0 && i.depth > 0 && i.existing == {} && i.deferred == []
    && 0 !in d.nodes && 0 !in i.nodes
    && SameNodes(d.heap, i.heap, dead)
    && SameRegistry(d.nodes, i.nodes, dead)
    && SameChildren(d, i.heap, dead)
    && DeadApart(d.heap, i.heap, dead)
    && Waiting(d, used) && DeadWait(d.nodes, d.deferred, dead)
    && IdsKept(d, used) && IdsKept(i, used) && Typed(d, texts) && Typed(i, texts)
  }

  // ------------------------------------------------------------- small facts

  lemma {:induction false} PendingSplit(nodes: map<uint32, Ref>, a: seq<Deferred>, b: seq<Deferred>, r: Ref)
    ensures Pending(nodes, a + b, r) == Pending(nodes, a, r) + Pending(nodes, b, r)
    decreases a
  {
    if a == [] {
      assert a + b == b;
    } else {
      assert (a + b)[1..] == a[1..] + b;
      PendingSplit(nodes, a[1..], b, r);
    }
  }

  /** Nothing waits for a node that no deferred entry names. */
  lemma {:induction false} PendingNone(nodes: map<uint32, Ref>, ds: seq<Deferred>, r: Ref)
    requires forall i | 0 <= i < |ds| && ds[i].parent in nodes :: nodes[ds[i].parent] != r
    ensures Pending(nodes, ds, r) == []
    decreases ds
  {
    if ds != [] {
      PendingNone(nodes, ds[1..], r);
    }
  }

  /** Registering a fresh id changes nobody's waiting list. */
  lemma {:induction false} PendingFresh(nodes: map<uint32, Ref>, ds: seq<Deferred>, r: Ref, id: uint32, new_: Ref)
    requires forall i | 0 <= i < |ds| :: ds[i].node != id && ds[i].parent != id
    ensures Pending(nodes[id := new_], ds, r) == Pending(nodes, ds, r)
    decreases ds
  {
    if ds != [] {
      PendingFresh(nodes, ds[1..], r, id, new_);
    }
  }

  // ---------------------------------------------------------------- creating

  /** A node both machines create starts out dead: registered but attached to nothing. */
  lemma {:induction false} CreateRelated(d: Client, i: Client, dead: set<Ref>, texts: set<uint32>, used: set<uint32>,
                                         id: uint32, e: Elem)
    requires Related(d, i, dead, texts, used)
    requires id !in used && id != 0
    requires e.parent.None? && e.children == [] && (e.bwId.Some? ==> e.bwId.value == id)
    requires id in texts <==> IsText(e)
    ensures Related(Create(d, id, e), Create(i, id, e), dead + {d.next}, texts, used + {id})
  {
    hide Valid, SameNodes, SameRegistry, DeadApart, Waiting, IdsKept, Typed, Forest, SameChildren, DeadWait;
    var d', i', r := Create(d, id, e), Create(i, id, e), d.next;
    IdsUsed(d, used);
    IdsUsed(i, used);
    CreateAlike(d, i, dead, id, e);
    NextUnseen(d);
    NextUnseen(i);
    assert d.heap.Keys == i.heap.Keys by {
      SameKeys(d.heap, i.heap, dead);
    }
    CreateApart(d.heap, i.heap, dead, r, e);
    CreateWaits(d, dead, used, id, e);
    CreateIds(d, used, id, e);
    CreateIds(i, used, id, e);
    CreateValid(d, id, e);
    CreateValid(i, id, e);
    CreateChildren(d, i, dead, used, id, e);
  }

  lemma {:induction false} CreateChildren(d: Client, i: Client, dead: set<Ref>, used: set<uint32>, id: uint32, e: Elem)
    requires SameChildren(d, i.heap, dead) && Waiting(d, used) && d.next == i.next
    requires id !in used && e.children == []
    ensures SameChildren(Create(d, id, e), Create(i, id, e).heap, dead + {d.next})
  {
    var d', i', r := Create(d, id, e), Create(i, id, e), d.next;
    forall x | x in i'.heap && x !in dead + {r}
      ensures Kids(i'.heap, x) == Kids(d'.heap, x) + Pending(d'.nodes, d'.deferred, x)
    {
      PendingFresh(d.nodes, d.deferred, x, id, r);
    }
  }

  lemma {:induction false} SameKeys(dh: Heap, ih: Heap, dead: set<Ref>)
    requires SameNodes(dh, ih, dead)
    ensures dh.Keys == ih.Keys
  {
  }

  lemma {:induction false} CreateAlike(d: Client, i: Client, dead: set<Ref>, id: uint32, e: Elem)
    requires SameNodes(d.heap, i.heap, dead) && SameRegistry(d.nodes, i.nodes, dead)
    requires d.next == i.next && id !in d.nodes && id !in i.nodes
    ensures var d', i' := Create(d, id, e), Create(i, id, e);
            && SameNodes(d'.heap, i'.heap, dead + {d.next}) && SameRegistry(d'.nodes, i'.nodes, dead + {d.next})
  {
  }

  lemma {:induction false} CreateApart(dh: Heap, ih: Heap, dead: set<Ref>, r: Ref, e: Elem)
    requires DeadApart(dh, ih, dead) && e.children == []
    requires r !in dh && r !in ih && r != ROOT && dh.Keys == ih.Keys
    requires forall x :: r !in Kids(ih, x)
    ensures DeadApart(dh[r := e], ih[r := e], dead + {r})
  {
    var dh', ih' := dh[r := e], ih[r := e];
    assert r !in dead;
    assert forall x | x != r :: Kids(dh', x) == Kids(dh, x) && Kids(ih', x) == Kids(ih, x);
    assert Kids(dh', r) == [] && Kids(ih', r) == [];
  }

  lemma {:induction false} IdsUsed(c: Client, used: set<uint32>)
    requires IdsKept(c, used)
    ensures c.nodes.Keys <= used
  {
  }

  lemma {:induction false} CreateIds(c: Client, used: set<uint32>, id: uint32, e: Elem)
    requires IdsKept(c, used) && Valid(c)
    requires id !in used && (e.bwId.Some? ==> e.bwId.value == id)
    ensures IdsKept(Create(c, id, e), used + {id})
    ensures forall texts :: (id in texts <==> IsText(e)) && Typed(c, texts) ==> Typed(Create(c, id, e), texts)
  {
    hide Forest;
    NextUnseen(c);
  }

  lemma {:induction false} CreateWaits(d: Client, dead: set<Ref>, used: set<uint32>, id: uint32, e: Elem)
    requires Waiting(d, used) && DeadWait(d.nodes, d.deferred, dead) && Valid(d)
    requires id !in used && e.parent.None?
    ensures Waiting(Create(d, id, e), used + {id})
    ensures DeadWait(Create(d, id, e).nodes, d.deferred, dead + {d.next})
  {
    hide Forest;
    NextUnseen(d);
  }

  // --------------------------------------------------------------- attaching

  /** A node created a moment ago: registered under `id`, attached to nothing, waiting for nothing. */
  ghost predicate Loose(d: Client, i: Client, dead: set<Ref>, id: uint32, r: Ref) {
    && id in d.nodes && id in i.nodes && d.nodes[id] == r == i.nodes[id]
    && r in d.heap && r in i.heap && d.heap[r] == i.heap[r] && r != ROOT && r in dead
    && d.heap[r].parent.None? && d.heap[r].children == []
    && id !in d.existing
    && (forall k | 0 <= k < |d.deferred| :: d.deferred[k].node != id)
    && (forall x :: r !in Kids(d.heap, x) && r !in Kids(i.heap, x))
  }

  /** Both machines attach the node at once below a node for which none waits. */
  lemma {:induction false} AttachBoth(d: Client, i: Client, dead: set<Ref>, texts: set<uint32>, used: set<uint32>,
                                      id: uint32, r: Ref, q: Ref)
    requires Related(d, i, dead, texts, used) && Loose(d, i, dead, id, r)
    requires q in d.heap && q !in dead
    requires Pending(d.nodes, d.deferred, q) == []
    ensures Related(d.(heap := Append(d.heap, q, r)), i.(heap := Append(i.heap, q, r)), dead - {r}, texts, used)
  {
    hide Valid, SameNodes, SameRegistry, SameChildren, DeadApart, Waiting, DeadWait, IdsKept, Typed, Forest;
    SameKeys(d.heap, i.heap, dead);
    AppendLoose(d.heap, q, r);
    AppendLoose(i.heap, q, r);
    var d', i' := d.(heap := Append(d.heap, q, r)), i.(heap := Append(i.heap, q, r));
    AttachValid(d, q, r);
    AttachValid(i, q, r);
    AttachWaits(d, used, texts, id, r, q);
    AttachIds(i, used, r, q);
    Revive(d, i, dead, id, r);
    AttachAlike(d.heap, d'.heap, i.heap, i'.heap, dead - {r}, q, r);
    AttachChildren(d, d'.heap, i, i'.heap, dead, used, id, r, q);
    AttachApart(d.heap, d'.heap, i.heap, i'.heap, dead, r, q);
    StillWait(d, dead, used, id, r);
  }

  lemma {:induction false} StillWait(d: Client, dead: set<Ref>, used: set<uint32>, id: uint32, r: Ref)
    requires DeadWait(d.nodes, d.deferred, dead) && Waiting(d, used) && Valid(d)
    requires id in d.nodes && d.nodes[id] == r && id !in d.existing
    requires forall k | 0 <= k < |d.deferred| :: d.deferred[k].node != id
    ensures DeadWait(d.nodes, d.deferred, dead - {r})
    ensures forall parent | parent in d.existing && parent in d.nodes && d.nodes[parent] !in dead ::
              DeadWait(d.nodes, d.deferred + [Deferred(id, parent)], dead - {r})
  {
    hide Forest;
  }

  /** `h'` is `h` with `r` appended to the children of `q`. */
  ghost predicate Grown(h: Heap, h': Heap, q: Ref, r: Ref) {
    && r in h && q in h && q != r
    && h' == h[q := h[q].(children := h[q].children + [r])][r := h[r].(parent := Some(q))]
  }

  lemma {:induction false} AttachIds(c: Client, used: set<uint32>, r: Ref, q: Ref)
    requires IdsKept(c, used) && Grown(c.heap, Append(c.heap, q, r), q, r)
    ensures IdsKept(c.(heap := Append(c.heap, q, r)), used)
    ensures forall texts | Typed(c, texts) :: Typed(c.(heap := Append(c.heap, q, r)), texts)
  {
    hide Append;
    assert forall x | x in c.heap :: Append(c.heap, q, r)[x].tag == c.heap[x].tag;
  }

  lemma {:induction false} AttachWaits(d: Client, used: set<uint32>, texts: set<uint32>, id: uint32, r: Ref, q: Ref)
    requires Waiting(d, used) && IdsKept(d, used) && Typed(d, texts) && Valid(d)
    requires Grown(d.heap, Append(d.heap, q, r), q, r)
    requires id in d.nodes && d.nodes[id] == r && forall k | 0 <= k < |d.deferred| :: d.deferred[k].node != id
    ensures var d' := d.(heap := Append(d.heap, q, r)); Waiting(d', used) && IdsKept(d', used) && Typed(d', texts)
  {
    hide Append, Forest;
    AttachIds(d, used, r, q);
  }

  lemma {:induction false} AttachAlike(dh: Heap, dh': Heap, ih: Heap, ih': Heap, dead: set<Ref>, q: Ref, r: Ref)
    requires SameNodes(dh, ih, dead) && Grown(dh, dh', q, r) && Grown(ih, ih', q, r)
    ensures SameNodes(dh', ih', dead)
  {
  }

  /** Once attached alive, the node counts as one both machines know. */
  lemma {:induction false} Revive(d: Client, i: Client, dead: set<Ref>, id: uint32, r: Ref)
    requires SameNodes(d.heap, i.heap, dead) && SameRegistry(d.nodes, i.nodes, dead) && Valid(d) && Valid(i)
    requires Loose(d, i, dead, id, r)
    ensures SameNodes(d.heap, i.heap, dead - {r}) && SameRegistry(d.nodes, i.nodes, dead - {r})
  {
    hide Forest;
  }

  lemma {:induction false} AttachChildren(d: Client, dh': Heap, i: Client, ih': Heap, dead: set<Ref>, used: set<uint32>,
                                          id: uint32, r: Ref, q: Ref)
    requires SameChildren(d, i.heap, dead) && Waiting(d, used) && Loose(d, i, dead, id, r) && Valid(d)
    requires Grown(d.heap, dh', q, r) && Grown(i.heap, ih', q, r) && q !in dead
    requires Pending(d.nodes, d.deferred, q) == []
    ensures SameChildren(d.(heap := dh'), ih', dead - {r})
  {
    hide Forest;
    var d' := d.(heap := dh');
    NothingWaitsFor(d, used, id);
    forall x | x in ih' && x !in dead - {r}
      ensures Kids(ih', x) == Kids(dh', x) + Pending(d.nodes, d.deferred, x)
    {
      assert x != q && x != r ==> Kids(ih', x) == Kids(i.heap, x) && Kids(dh', x) == Kids(d.heap, x);
    }
  }

  lemma {:induction false} NothingWaitsFor(d: Client, used: set<uint32>, id: uint32)
    requires Waiting(d, used) && Valid(d) && id in d.nodes && id !in d.existing
    ensures Pending(d.nodes, d.deferred, d.nodes[id]) == []
  {
    hide Forest;
    PendingNone(d.nodes, d.deferred, d.nodes[id]);
  }

  lemma {:induction false} AttachApart(dh: Heap, dh': Heap, ih: Heap, ih': Heap, dead: set<Ref>, r: Ref, q: Ref)
    requires DeadApart(dh, ih, dead) && dh.Keys == ih.Keys
    requires Grown(dh, dh', q, r) && Grown(ih, ih', q, r) && q !in dead && r in dead
    requires dh[r].children == [] && ih[r].children == []
    requires forall x :: r !in Kids(dh, x) && r !in Kids(ih, x)
    ensures DeadApart(dh', ih', dead - {r})
  {
    assert forall x | x != q :: Kids(dh', x) == Kids(dh, x) && Kids(ih', x) == Kids(ih, x);
    assert Kids(ih', q) == Kids(ih, q) + [r];
  }

  /** One machine puts the attachment off, the other does it: the node is alive in both. */
  lemma {:induction false} DeferBelow(d: Client, i: Client, dead: set<Ref>, texts: set<uint32>, used: set<uint32>,
                                      id: uint32, r: Ref, parent: uint32)
    requires Related(d, i, dead, texts, used) && Loose(d, i, dead, id, r)
    requires parent in d.existing && parent in d.nodes && d.nodes[parent] !in dead && id in used
    ensures Related(d.(deferred := d.deferred + [Deferred(id, parent)]),
                    i.(heap := Append(i.heap, d.nodes[parent], r)), dead - {r}, texts, used)
  {
    hide Valid, SameNodes, SameRegistry, SameChildren, DeadApart, Waiting, DeadWait, IdsKept, Typed, Forest;
    var q := d.nodes[parent];
    SameKeys(d.heap, i.heap, dead);
    NodesInHeap(d);
    AppendLoose(i.heap, q, r);
    var d', i' := d.(deferred := d.deferred + [Deferred(id, parent)]), i.(heap := Append(i.heap, q, r));
    AttachValid(i, q, r);
    AttachIds(i, used, r, q);
    Revive(d, i, dead, id, r);
    AttachAlikeOne(d.heap, i.heap, i'.heap, dead - {r}, q, r);
    DeferChildren(d, i, i'.heap, dead, used, id, r, parent);
    AttachApartOne(d.heap, i.heap, i'.heap, dead, r, q);
    DeferWaits(d, used, id, parent);
    StillWait(d, dead, used, id, r);
    assert Valid(d') && IdsKept(d', used) && Typed(d', texts) by {
      SameButDeferred(d, d', used, texts);
    }
  }

  lemma {:induction false} SameButDeferred(d: Client, d': Client, used: set<uint32>, texts: set<uint32>)
    requires Valid(d) && IdsKept(d, used) && Typed(d, texts) && d' == d.(deferred := d'.deferred)
    ensures Valid(d') && IdsKept(d', used) && Typed(d', texts)
  {
  }

  lemma {:induction false} AttachAlikeOne(dh: Heap, ih: Heap, ih': Heap, dead: set<Ref>, q: Ref, r: Ref)
    requires SameNodes(dh, ih, dead) && Grown(ih, ih', q, r)
    ensures SameNodes(dh, ih', dead)
  {
  }

  lemma {:induction false} AttachApartOne(dh: Heap, ih: Heap, ih': Heap, dead: set<Ref>, r: Ref, q: Ref)
    requires DeadApart(dh, ih, dead)
    requires Grown(ih, ih', q, r) && q !in dead && r in dead
    requires ih[r].children == []
    requires forall x :: r !in Kids(dh, x) && r !in Kids(ih, x)
    ensures DeadApart(dh, ih', dead - {r})
  {
    assert forall x | x != q :: Kids(ih', x) == Kids(ih, x);
    assert Kids(ih', q) == Kids(ih, q) + [r];
  }

  lemma {:induction false} DeferWaits(d: Client, used: set<uint32>, id: uint32, parent: uint32)
    requires Waiting(d, used) && parent in d.existing && id in used && id !in d.existing
    requires forall k | 0 <= k < |d.deferred| :: d.deferred[k].node != id
    requires id in d.nodes && ParentOf(d.heap, d.nodes[id]) == None
    ensures Waiting(d.(deferred := d.deferred + [Deferred(id, parent)]), used)
  {
  }

  lemma {:induction false} DeferChildren(d: Client, i: Client, ih': Heap, dead: set<Ref>, used: set<uint32>,
                                         id: uint32, r: Ref, parent: uint32)
    requires SameChildren(d, i.heap, dead) && Waiting(d, used) && Loose(d, i, dead, id, r) && Valid(d)
    requires parent in d.existing && parent in d.nodes && d.nodes[parent] !in dead
    requires Grown(i.heap, ih', d.nodes[parent], r)
    ensures SameChildren(d.(deferred := d.deferred + [Deferred(id, parent)]), ih', dead - {r})
  {
    hide Forest;
    var e := Deferred(id, parent);
    var q := d.nodes[parent];
    NothingWaitsFor(d, used, id);
    forall x | x in ih' && x !in dead - {r}
      ensures Kids(ih', x) == Kids(d.heap, x) + Pending(d.nodes, d.deferred + [e], x)
    {
      PendingSplit(d.nodes, d.deferred, [e], x);
      assert Pending(d.nodes, [e], x) == if x == q then [r] else [];
      assert x != q && x != r ==> Kids(ih', x) == Kids(i.heap, x);
    }
  }
}
