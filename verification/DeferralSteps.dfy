/**
 Every instruction of a plain stream keeps the two machines related.
 */
module DeferralSteps {
  import opened Seqs
  import opened Wire
  import opened Dom
  import opened Client
  import opened Deferral

  // ------------------------------------------------------ steps among the dead

  lemma {:induction false} AppendDeadD(d: Client, i: Client, dead: set<Ref>, texts: set<uint32>, used: set<uint32>,
                                       id: uint32, r: Ref, z: Ref)
    requires Related(d, i, dead, texts, used) && Loose(d, i, dead, id, r)
    requires z in dead && z != r
    ensures Related(d.(heap := Append(d.heap, z, r)), i, dead, texts, used)
  {
    hide Valid, SameNodes, SameRegistry, SameChildren, DeadApart, Waiting, DeadWait, IdsKept, Typed, Forest;
    SameKeys(d.heap, i.heap, dead);
    DeadInHeap(d.heap, i.heap, dead);
    AppendLoose(d.heap, z, r);
    AttachValid(d, z, r);
    AttachWaits(d, used, texts, id, r, z);
    GrowDead(d, Append(d.heap, z, r), i.heap, dead, z, r);
  }

  lemma {:induction false} AppendDeadI(d: Client, i: Client, dead: set<Ref>, texts: set<uint32>, used: set<uint32>,
                                       r: Ref, z: Ref)
    requires Related(d, i, dead, texts, used)
    requires z in dead && z != r && r in dead && r in i.heap && r != ROOT && i.heap[r].parent.None?
    ensures Related(d, i.(heap := Append(i.heap, z, r)), dead, texts, used)
  {
    hide Valid, SameNodes, SameRegistry, SameChildren, DeadApart, Waiting, DeadWait, IdsKept, Typed, Forest;
    SameKeys(d.heap, i.heap, dead);
    DeadInHeap(d.heap, i.heap, dead);
    AppendLoose(i.heap, z, r);
    AttachValid(i, z, r);
    AttachIds(i, used, r, z);
    GrowDeadI(d, i.heap, Append(i.heap, z, r), dead, z, r);
  }

  lemma {:induction false} DeadInHeap(dh: Heap, ih: Heap, dead: set<Ref>)
    requires DeadApart(dh, ih, dead)
    ensures dead <= ih.Keys && ROOT !in dead
  {
  }

  lemma {:induction false} GrowDead(d: Client, dh': Heap, ih: Heap, dead: set<Ref>, z: Ref, r: Ref)
    requires SameNodes(d.heap, ih, dead) && SameChildren(d, ih, dead) && DeadApart(d.heap, ih, dead)
    requires Grown(d.heap, dh', z, r) && z in dead && r in dead
    ensures SameNodes(dh', ih, dead) && SameChildren(d.(heap := dh'), ih, dead) && DeadApart(dh', ih, dead)
  {
    hide SameNodes;
    assert Kids(dh', z) == Kids(d.heap, z) + [r];
    assert forall x | x != z :: Kids(dh', x) == Kids(d.heap, x);
    GrowDeadNodes(d.heap, dh', ih, dead, z, r);
  }

  lemma {:induction false} GrowDeadI(d: Client, ih: Heap, ih': Heap, dead: set<Ref>, z: Ref, r: Ref)
    requires SameNodes(d.heap, ih, dead) && SameChildren(d, ih, dead) && DeadApart(d.heap, ih, dead)
    requires Grown(ih, ih', z, r) && z in dead && r in dead
    ensures SameNodes(d.heap, ih', dead) && SameChildren(d, ih', dead) && DeadApart(d.heap, ih', dead)
  {
    hide SameNodes;
    assert Kids(ih', z) == Kids(ih, z) + [r];
    assert forall x | x != z :: Kids(ih', x) == Kids(ih, x);
    AttachAlikeOne(d.heap, ih, ih', dead, z, r);
  }

  lemma {:induction false} GrowDeadNodes(dh: Heap, dh': Heap, ih: Heap, dead: set<Ref>, z: Ref, r: Ref)
    requires SameNodes(dh, ih, dead) && Grown(dh, dh', z, r)
    ensures SameNodes(dh', ih, dead)
  {
  }

  /** Waiting below a node that is dead or forgotten leaves the new node dead. */
  lemma {:induction false} DeferDead(d: Client, i: Client, dead: set<Ref>, texts: set<uint32>, used: set<uint32>,
                                     id: uint32, r: Ref, parent: uint32)
    requires Related(d, i, dead, texts, used) && Loose(d, i, dead, id, r)
    requires parent in d.existing && (parent in d.nodes ==> d.nodes[parent] in dead) && id in used
    ensures Related(d.(deferred := d.deferred + [Deferred(id, parent)]), i, dead, texts, used)
  {
    hide Valid, SameNodes, SameRegistry, SameChildren, DeadApart, Waiting, IdsKept, Typed, Forest;
    var d' := d.(deferred := d.deferred + [Deferred(id, parent)]);
    DeferWaits(d, used, id, parent);
    SameButDeferred(d, d', used, texts);
    assert SameChildren(d', i.heap, dead) by {
      DeferDeadChildren(d, i.heap, dead, id, parent);
    }
  }

  lemma {:induction false} DeferDeadChildren(d: Client, ih: Heap, dead: set<Ref>, id: uint32, parent: uint32)
    requires SameChildren(d, ih, dead)
    requires parent in d.nodes ==> d.nodes[parent] in dead
    ensures SameChildren(d.(deferred := d.deferred + [Deferred(id, parent)]), ih, dead)
  {
    var e := Deferred(id, parent);
    forall x | x in ih && x !in dead
      ensures Kids(ih, x) == Kids(d.heap, x) + Pending(d.nodes, d.deferred + [e], x)
    {
      PendingSplit(d.nodes, d.deferred, [e], x);
      assert Pending(d.nodes, [e], x) == [];
    }
  }

  // ---------------------------------------------------------------- inserting

  ghost predicate NewNode(id: uint32, e: Elem, texts: set<uint32>) {
    && id != 0
    && e.parent.None? && e.children == [] && (e.bwId.Some? ==> e.bwId.value == id)
    && (id in texts <==> IsText(e))
  }

  lemma {:induction false} CreateLoose(d: Client, i: Client, dead: set<Ref>, texts: set<uint32>, used: set<uint32>,
                                       id: uint32, e: Elem)
    requires Related(d, i, dead, texts, used) && id !in used && NewNode(id, e, texts)
    ensures Related(Create(d, id, e), Create(i, id, e), dead + {d.next}, texts, used + {id})
    ensures Loose(Create(d, id, e), Create(i, id, e), dead + {d.next}, id, d.next)
    ensures d.next !in dead
  {
    hide SameNodes, SameRegistry, SameChildren, DeadApart, Waiting, DeadWait, IdsKept, Typed, Forest, Valid;
    CreateRelated(d, i, dead, texts, used, id, e);
    NextUnseen(d);
    NextUnseen(i);
    DeadInHeap(d.heap, i.heap, dead);
    NotWaiting(d, used, id);
    assert forall x | x != d.next :: Kids(Create(d, id, e).heap, x) == Kids(d.heap, x);
    assert forall x | x != i.next :: Kids(Create(i, id, e).heap, x) == Kids(i.heap, x);
  }

  lemma {:induction false} NotWaiting(d: Client, used: set<uint32>, id: uint32)
    requires Waiting(d, used) && id !in used
    ensures id !in d.existing
    ensures forall k | 0 <= k < |d.deferred| :: d.deferred[k].node != id
  {
  }

  /** A fresh insert: what is dead grows by the new node if it ends up below a dead or unknown parent. */
  lemma {:induction false} InsertRelated(d: Client, i: Client, dead: set<Ref>, texts: set<uint32>, used: set<uint32>,
                                         id: uint32, parent: uint32, e: Elem)
    returns (dead': set<Ref>)
    requires Related(d, i, dead, texts, used) && id !in used && NewNode(id, e, texts) && parent != id
    ensures Related(Place(Create(d, id, e), id, d.next, parent, 0), Place(Create(i, id, e), id, i.next, parent, 0),
                    dead', texts, used + {id})
  {
    var d1, i1, r, dead1, used1 := Create(d, id, e), Create(i, id, e), d.next, dead + {d.next}, used + {id};
    CreateLoose(d, i, dead, texts, used, id, e);
    dead' := PlaceRelated(d1, i1, dead1, texts, used1, id, r, parent);
  }

  lemma {:induction false} PlaceRelated(d: Client, i: Client, dead: set<Ref>, texts: set<uint32>, used: set<uint32>,
                                        id: uint32, r: Ref, parent: uint32)
    returns (dead': set<Ref>)
    requires Related(d, i, dead, texts, used) && Loose(d, i, dead, id, r) && id in used && parent != id
    ensures Related(Place(d, id, r, parent, 0), Place(i, id, r, parent, 0), dead', texts, used)
  {
    hide Related, Loose, Append, InsertBefore;
    ParentKnown(d, i, dead, texts, used, id, r, parent);
    dead' := dead - {r};
    if parent in d.existing {
      if parent in d.nodes && d.nodes[parent] !in dead {
        DeferBelow(d, i, dead, texts, used, id, r, parent);
      } else {
        dead' := dead;
        DeferDead(d, i, dead, texts, used, id, r, parent);
        var d1 := d.(deferred := d.deferred + [Deferred(id, parent)]);
        if parent in i.nodes {
          AppendDeadI(d1, i, dead, texts, used, r, i.nodes[parent]);
        }
      }
    } else if parent in d.nodes && d.nodes[parent] !in dead {
      NothingWaits(d, i, dead, texts, used, parent);
      AttachBoth(d, i, dead, texts, used, id, r, d.nodes[parent]);
    } else if parent in d.nodes || parent in i.nodes {
      dead' := dead;
      if parent in d.nodes {
        AppendDeadD(d, i, dead, texts, used, id, r, d.nodes[parent]);
      }
      var d1 := if parent in d.nodes then d.(heap := Append(d.heap, d.nodes[parent], r)) else d;
      if parent in i.nodes {
        AppendDeadI(d1, i, dead, texts, used, r, i.nodes[parent]);
      }
    } else if parent == 0 {
      NothingWaitsForRoot(d, i, dead, texts, used);
      AttachBoth(d, i, dead, texts, used, id, r, ROOT);
    } else {
      dead' := dead;
    }
  }

  /** What the relation says about the two machines' views of one parent id. */
  lemma {:induction false} ParentKnown(d: Client, i: Client, dead: set<Ref>, texts: set<uint32>, used: set<uint32>,
                                       id: uint32, r: Ref, parent: uint32)
    requires Related(d, i, dead, texts, used) && Loose(d, i, dead, id, r) && parent != id
    ensures d.depth > 0 && i.depth > 0 && i.existing == {} && 0 !in d.existing && 0 !in d.nodes
    ensures parent in d.nodes && d.nodes[parent] !in dead ==>
              parent in i.nodes && i.nodes[parent] == d.nodes[parent] && d.nodes[parent] in d.heap
    ensures parent in i.nodes && i.nodes[parent] !in dead ==>
              parent in d.nodes && i.nodes[parent] == d.nodes[parent]
    ensures parent in d.nodes && parent in i.nodes ==> i.nodes[parent] == d.nodes[parent]
    ensures parent in d.nodes ==> d.nodes[parent] != r
    ensures parent in i.nodes ==> i.nodes[parent] != r
    ensures r in dead && r in i.heap && r != ROOT && i.heap[r].parent.None?
    ensures ROOT !in dead && ROOT in d.heap
    ensures parent == 0 ==> parent !in d.nodes && parent !in i.nodes
  {
    hide SameNodes, SameChildren, DeadWait, Typed, Forest;
    NodesInHeap(d);
  }

  lemma {:induction false} NothingWaits(d: Client, i: Client, dead: set<Ref>, texts: set<uint32>, used: set<uint32>,
                                        parent: uint32)
    requires Related(d, i, dead, texts, used) && parent in d.nodes && parent !in d.existing
    ensures Pending(d.nodes, d.deferred, d.nodes[parent]) == []
  {
    hide SameNodes, SameRegistry, SameChildren, DeadApart, DeadWait, IdsKept, Typed, Forest;
    NothingWaitsFor(d, used, parent);
  }

  lemma {:induction false} NothingWaitsForRoot(d: Client, i: Client, dead: set<Ref>, texts: set<uint32>,
                                               used: set<uint32>)
    requires Related(d, i, dead, texts, used)
    ensures Pending(d.nodes, d.deferred, ROOT) == []
  {
    hide SameNodes, SameRegistry, SameChildren, DeadApart, DeadWait, IdsKept, Typed, Forest;
    NodesInHeap(d);
    PendingNone(d.nodes, d.deferred, ROOT);
  }

  // ----------------------------------------------------------------- altering

  /** `h'` differs from `h` in text, attributes and styles only. */
  ghost predicate Relabelled(h: Heap, h': Heap) {
    h'.Keys == h.Keys && forall x | x in h :: SameShape(h[x], h'[x])
  }

  lemma {:induction false} RelabelKids(h: Heap, h': Heap)
    requires Relabelled(h, h')
    ensures forall x :: Kids(h', x) == Kids(h, x)
    ensures forall x :: ParentOf(h', x) == ParentOf(h, x)
  {
  }

  lemma {:induction false} RelabelChildren(d: Client, dh': Heap, ih: Heap, ih': Heap, dead: set<Ref>)
    requires SameChildren(d, ih, dead) && DeadApart(d.heap, ih, dead)
    requires Relabelled(d.heap, dh') && Relabelled(ih, ih')
    ensures SameChildren(d.(heap := dh'), ih', dead) && DeadApart(dh', ih', dead)
  {
    hide Relabelled;
    RelabelKids(d.heap, dh');
    RelabelKids(ih, ih');
    assert ih'.Keys == ih.Keys by { SameKeysRelabelled(ih, ih'); }
  }

  lemma {:induction false} SameKeysRelabelled(h: Heap, h': Heap)
    requires Relabelled(h, h')
    ensures h'.Keys == h.Keys
  {
  }

  lemma {:induction false} RelabelIds(c: Client, h': Heap, used: set<uint32>, texts: set<uint32>)
    requires IdsKept(c, used) && Relabelled(c.heap, h') && Valid(c)
    ensures IdsKept(c.(heap := h'), used)
    ensures Typed(c, texts) ==> Typed(c.(heap := h'), texts)
  {
    hide Forest;
  }

  lemma {:induction false} RelabelWaits(d: Client, h': Heap, used: set<uint32>)
    requires Waiting(d, used) && Relabelled(d.heap, h')
    ensures Waiting(d.(heap := h'), used)
  {
    hide Relabelled;
    RelabelKids(d.heap, h');
  }

  lemma {:induction false} AlterValid(c: Client, id: uint32, e: Elem)
    requires Valid(c) && SameShape(Registered(c, id), e)
    ensures Valid(Alter(c, id, e)) && Relabelled(c.heap, Alter(c, id, e).heap)
  {
    if id in c.nodes {
      AlterForest(c.heap, c.nodes[id], e);
    }
  }

  lemma {:induction false} AlterNodes(d: Client, i: Client, dead: set<Ref>, id: uint32, ed: Elem, ei: Elem)
    requires SameNodes(d.heap, i.heap, dead) && SameRegistry(d.nodes, i.nodes, dead)
    requires SameShape(Registered(d, id), ed) && SameShape(Registered(i, id), ei)
    requires id in d.nodes ==> d.nodes[id] in d.heap
    requires id in i.nodes ==> i.nodes[id] in i.heap
    requires id in d.nodes && d.nodes[id] !in dead ==>
               ed.text == ei.text && ed.attrs == ei.attrs && ed.styles == ei.styles
    ensures SameNodes(Alter(d, id, ed).heap, Alter(i, id, ei).heap, dead)
  {
    hide SameNodes;
    if id in d.nodes && id in i.nodes {
      AlterTwo(d.heap, i.heap, dead, d.nodes[id], ed, ei);
    } else if id in d.nodes {
      AlterDeadD(d.heap, i.heap, dead, d.nodes[id], ed);
    } else if id in i.nodes {
      AlterDeadI(d.heap, i.heap, dead, i.nodes[id], ei);
    }
  }

  lemma {:induction false} AlterTwo(dh: Heap, ih: Heap, dead: set<Ref>, r: Ref, ed: Elem, ei: Elem)
    requires SameNodes(dh, ih, dead) && r in dh && r in ih && SameShape(dh[r], ed) && SameShape(ih[r], ei)
    requires r !in dead ==> ed.text == ei.text && ed.attrs == ei.attrs && ed.styles == ei.styles
    ensures SameNodes(dh[r := ed], ih[r := ei], dead)
  {
  }

  lemma {:induction false} AlterDeadD(dh: Heap, ih: Heap, dead: set<Ref>, r: Ref, e: Elem)
    requires SameNodes(dh, ih, dead) && r in dh && r in dead && SameShape(dh[r], e)
    ensures SameNodes(dh[r := e], ih, dead)
  {
  }

  lemma {:induction false} AlterDeadI(dh: Heap, ih: Heap, dead: set<Ref>, r: Ref, e: Elem)
    requires SameNodes(dh, ih, dead) && r in ih && r in dead && SameShape(ih[r], e)
    ensures SameNodes(dh, ih[r := e], dead)
  {
  }

  /**
   The same change of text, attributes or styles on both sides; a dead node may
   end up different.
   */
  lemma {:induction false} AlterBoth(d: Client, i: Client, dead: set<Ref>, texts: set<uint32>, used: set<uint32>,
                                     id: uint32, ed: Elem, ei: Elem)
    requires Related(d, i, dead, texts, used)
    requires SameShape(Registered(d, id), ed) && SameShape(Registered(i, id), ei)
    requires id in d.nodes && d.nodes[id] !in dead ==>
               ed.text == ei.text && ed.attrs == ei.attrs && ed.styles == ei.styles
    ensures Related(Alter(d, id, ed), Alter(i, id, ei), dead, texts, used)
  {
    hide Valid, SameNodes, SameRegistry, SameChildren, DeadApart, Waiting, DeadWait, IdsKept, Typed, Relabelled,
         SameShape;
    NodesInHeap(d);
    NodesInHeap(i);
    var d', i' := Alter(d, id, ed), Alter(i, id, ei);
    AlterValid(d, id, ed);
    AlterValid(i, id, ei);
    AlterNodes(d, i, dead, id, ed, ei);
    RelabelChildren(d, d'.heap, i.heap, i'.heap, dead);
    RelabelIds(d, d'.heap, used, texts);
    RelabelIds(i, i'.heap, used, texts);
    RelabelWaits(d, d'.heap, used);
    assert d' == d.(heap := d'.heap) && i' == i.(heap := i'.heap);
  }

  /** Where both machines agree on a live node, they agree on what an id shows. */
  lemma {:induction false} RegisteredAlike(d: Client, i: Client, dead: set<Ref>, texts: set<uint32>, used: set<uint32>,
                                           id: uint32)
    requires Related(d, i, dead, texts, used)
    ensures id in d.nodes && d.nodes[id] !in dead ==>
              id in i.nodes
              && Registered(d, id).text == Registered(i, id).text
              && Registered(d, id).attrs == Registered(i, id).attrs
              && Registered(d, id).styles == Registered(i, id).styles
    ensures id in texts && id in d.nodes ==> IsText(Registered(d, id))
    ensures id in texts && id in i.nodes ==> IsText(Registered(i, id))
  {
    hide SameChildren, DeadApart, Waiting, DeadWait, IdsKept, Forest;
  }
}
