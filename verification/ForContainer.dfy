module ForContainer {
  // The list container as an object: its update and what every update keeps.

  import opened Seqs
  import opened Lis
  import MoveScripts
  import opened Wire
  import opened Trees
  import opened Reconcile
  import opened ReconcileReplay
  import opened ForNode

  // --------------------------------------------------------- after the removals

  /** The keys of the listed children, in the old order. */
  function ListedKeys(keys: seq<Str>, listed: set<Str>): (r: seq<Str>)
    ensures forall k | k in r :: k in keys && k in listed
    ensures forall k | k in keys && k in listed :: k in r
  {
    if keys == [] then []
    else (if keys[0] in listed then [keys[0]] else []) + ListedKeys(keys[1..], listed)
  }

  lemma {:induction false} ListedDistinct(keys: seq<Str>, listed: set<Str>)
    requires Distinct(keys)
    ensures Distinct(ListedKeys(keys, listed))
    decreases keys
  {
    if keys != [] {
      assert keys[0] !in keys[1..];
      ListedDistinct(keys[1..], listed);
    }
  }

  /** Keys and children stay in step. */
  lemma {:induction false} ListedInStep(children: seq<VNode>, gone: seq<VNode>, keys: seq<Str>, listed: set<Str>,
                                        index: map<Str, VNode>)
    requires |keys| == |children|
    requires forall i | 0 <= i < |keys| :: keys[i] in index && index[keys[i]] == children[i]
    requires forall i | 0 <= i < |keys| :: children[i] in gone <==> keys[i] !in listed
    ensures var r, ks := Outside(children, gone), ListedKeys(keys, listed);
            |ks| == |r| && forall i | 0 <= i < |ks| :: ks[i] in index && index[ks[i]] == r[i]
    decreases keys
  {
    if keys != [] {
      ListedInStep(children[1..], gone, keys[1..], listed, index);
      OutsideUnfold(children, gone);
      var r, ks := Outside(children[1..], gone), ListedKeys(keys[1..], listed);
      var r1, ks1 := Outside(children, gone), ListedKeys(keys, listed);
      hide Outside, ListedKeys;
      if keys[0] in listed {
        assert r1 == [children[0]] + r && ks1 == [keys[0]] + ks;
        forall i | 0 <= i < |ks1| ensures ks1[i] in index && index[ks1[i]] == r1[i] {
          assert i > 0 ==> ks1[i] == ks[i - 1] && r1[i] == r[i - 1];
        }
      } else {
        assert r1 == r && ks1 == ks;
      }
    }
  }

  lemma {:induction false} OutsideIds(s: seq<VNode>, gone: seq<VNode>)
    requires forall i, j | 0 <= i < j < |s| :: s[i].id != s[j].id
    ensures var r := Outside(s, gone); forall i, j | 0 <= i < j < |r| :: r[i].id != r[j].id
    decreases s
  {
    if s != [] {
      OutsideIds(s[1..], gone);
      OutsideUnfold(s, gone);
      var r, r1 := Outside(s[1..], gone), Outside(s, gone);
      forall j | 0 <= j < |r| ensures r[j].id != s[0].id {
        assert r[j] in s[1..];
      }
      hide Outside;
      if s[0] in gone {
        assert r1 == r;
      } else {
        assert forall j | 0 < j < |r1| :: r1[j] == r[j - 1];
      }
    }
  }

  /** Removing the unlisted keys leaves a well-indexed list. */
  lemma {:induction false} ListedIndexed(children: seq<VNode>, index: map<Str, VNode>, keys: seq<Str>,
                                         gone: seq<VNode>, listed: set<Str>)
    requires Indexed(children, index, keys)
    requires forall x :: x in gone <==> exists k :: k in index && k !in listed && index[k] == x
    ensures Indexed(Outside(children, gone), Restricted(index, listed), ListedKeys(keys, listed))
  {
    IndexedDistinct(children, index, keys);
    assert forall i | 0 <= i < |keys| :: keys[i] in index;
    forall i | 0 <= i < |keys| ensures children[i] in gone <==> keys[i] !in listed {
    }
    ListedInStep(children, gone, keys, listed, index);
    ListedDistinct(keys, listed);
    OutsideIds(children, gone);
  }

  /** What goes is what the next children lack. */
  lemma {:induction false} GoneIs(items: seq<Item>, children: seq<VNode>, index: map<Str, VNode>, keys: seq<Str>,
                                  gone: seq<VNode>, listed: set<Str>)
    requires Indexed(children, index, keys) && FreshlyRendered(items, children, index)
    requires listed == ToSet(Keys(items))
    requires forall x :: x in gone <==> exists k :: k in index && k !in listed && index[k] == x
    ensures forall x :: x in gone <==> x in children && x !in NodesFor(items, index)
    ensures Outside(children, gone) == Common(children, NodesFor(items, index))
  {
    IndexedDistinct(children, index, keys);
    hide Indexed, FreshlyRendered, NodesFor, Keys;
    forall k | k in index ensures k in listed <==> index[k] in NodesFor(items, index) {
      StaysIfListed(items, children, index, keys, k);
    }
    OutsideCommon(children, gone, NodesFor(items, index));
  }

  /** New nodes are none of the old ones. */
  lemma {:induction false} KnownIffIndexed(items: seq<Item>, children: seq<VNode>, index: map<Str, VNode>,
                                           keys: seq<Str>,
                                           rest: seq<VNode>, restIndex: map<Str, VNode>, restKeys: seq<Str>)
    requires Indexed(children, index, keys) && FreshlyRendered(items, children, index)
    requires Indexed(rest, restIndex, restKeys) && forall x | x in rest :: x in children
    requires forall i | 0 <= i < |items| :: items[i].key in restIndex <==> items[i].key in index
    ensures forall i | 0 <= i < |items| :: NodeFor(items[i], restIndex) in rest <==> items[i].key in restIndex
  {
    IndexedDistinct(rest, restIndex, restKeys);
    forall i | 0 <= i < |items| && items[i].key !in restIndex ensures items[i].node !in rest {
      assert forall x | x in children :: x.id != items[i].node.id;
    }
  }

  lemma SameNodesFor(items: seq<Item>, index: map<Str, VNode>, listed: set<Str>)
    requires listed == ToSet(Keys(items))
    ensures var restIndex := Restricted(index, listed);
            && (forall i | 0 <= i < |items| :: items[i].key in restIndex <==> items[i].key in index)
            && NodesFor(items, restIndex) == NodesFor(items, index)
  {
    assert forall i | 0 <= i < |items| :: Keys(items)[i] in listed;
  }

  /** The index that results names exactly the next children. */
  lemma {:induction false} NextIndexed(items: seq<Item>, children: seq<VNode>, index: map<Str, VNode>, keys: seq<Str>,
                                       restIndex: map<Str, VNode>, index': map<Str, VNode>)
    requires Indexed(children, index, keys) && Distinct(Keys(items)) && FreshlyRendered(items, children, index)
    requires forall k | k in restIndex :: k in Keys(items)
    requires NodesFor(items, restIndex) == NodesFor(items, index)
    requires IndexSoFar(restIndex, index', items, |items|)
    ensures Indexed(NodesFor(items, index), index', Keys(items))
  {
    NextDistinct(items, children, index, keys);
    hide Indexed, FreshlyRendered;
    assert items[..|items|] == items;
    assert forall i | 0 <= i < |items| :: NodeFor(items[i], restIndex) == NodesFor(items, restIndex)[i];
    assert forall k | k in Keys(items) :: exists i :: 0 <= i < |items| && items[i].key == k;
    IndexedNow(items, NodesFor(items, index), index');
  }

  lemma {:induction false} IndexedNow(items: seq<Item>, next: seq<VNode>, index': map<Str, VNode>)
    requires Distinct(Keys(items)) && |next| == |items|
    requires forall i | 0 <= i < |items| :: items[i].key in index' && index'[items[i].key] == next[i]
    requires forall k | k in index' :: k in Keys(items)
    requires forall k | k in Keys(items) :: exists i :: 0 <= i < |items| && items[i].key == k
    requires forall i, j | 0 <= i < j < |next| :: next[i].id != next[j].id
    ensures Indexed(next, index', Keys(items))
  {
  }

  // ------------------------------------------------------- the phases of an update

  /** First phase: what is no longer listed goes. */
  method RemovePhase(items: seq<Item>, children: seq<VNode>, index: map<Str, VNode>, ghost keys: seq<Str>)
    returns (rest: seq<VNode>, restIndex: map<Str, VNode>, ops: seq<Op>, ghost restKeys: seq<Str>)
    requires Indexed(children, index, keys) && Distinct(Keys(items)) && FreshlyRendered(items, children, index)
    ensures rest == Common(children, NodesFor(items, index))
    ensures IsRemoval(ops, children, NodesFor(items, index))
    ensures Indexed(rest, restIndex, restKeys)
    ensures NodesFor(items, restIndex) == NodesFor(items, index)
    ensures forall k | k in restIndex :: k in Keys(items)
    ensures forall i | 0 <= i < |items| :: NodeFor(items[i], restIndex) in rest <==> items[i].key in restIndex
  {
    hide Indexed, FreshlyRendered, Common, NodesFor, Keys, Outside, IsRemoval;
    ghost var next := NodesFor(items, index);
    var listed := KeySet(items);
    SameNodesFor(items, index, listed);
    IndexedDistinct(children, index, keys);
    ghost var gone;
    if listed == {} && index != map[] {
      ops := [Clear];
      rest, restIndex, restKeys := [], map[], [];
      AllCleared(items, children, index, keys, listed);
    } else {
      rest, restIndex, ops, gone := RemoveMissing(children, index, listed);
      restKeys := ListedKeys(keys, listed);
      ListedIndexed(children, index, keys, gone, listed);
      GoneIs(items, children, index, keys, gone, listed);
      SomeRemoved(items, children, index, keys, listed, gone, ops);
    }
    KnownIffIndexed(items, children, index, keys, rest, restIndex, restKeys);
  }

  /** Nothing listed, something indexed: one clearing operation. */
  lemma {:induction false} AllCleared(items: seq<Item>, children: seq<VNode>, index: map<Str, VNode>, keys: seq<Str>,
                                      listed: set<Str>)
    requires Indexed(children, index, keys) && Distinct(Keys(items))
    requires listed == ToSet(Keys(items)) && listed == {} && index != map[]
    ensures items == [] && NodesFor(items, index) == [] && children != []
    ensures Common(children, []) == [] && Indexed([], map[], [])
    ensures IsRemoval([Clear], children, []) && NodesFor(items, map[]) == []
  {
    DistinctSize(Keys(items));
    CommonNone(children);
    assert index.Keys == {} ==> index == map[];
    var k :| k in index.Keys;
    assert k in keys;
  }

  lemma {:induction false} SomeRemoved(items: seq<Item>, children: seq<VNode>, index: map<Str, VNode>, keys: seq<Str>,
                                       listed: set<Str>, gone: seq<VNode>, ops: seq<Op>)
    requires Indexed(children, index, keys) && listed == ToSet(Keys(items)) && (listed != {} || index == map[])
    requires Distinct(gone) && forall x :: x in gone <==> x in children && x !in NodesFor(items, index)
    requires ops == seq(|gone|, i requires 0 <= i < |gone| => Remove(gone[i]))
    ensures IsRemoval(ops, children, NodesFor(items, index))
  {
    if items == [] {
      assert listed == {};
      assert ToSet(keys) == {};
      DistinctSize(keys);
    }
  }

  /** A swap leaves all indexed. */
  lemma {:induction false} AllKnown(items: seq<Item>, index: map<Str, VNode>)
    requires |KnownItems(items, index)| == |items|
    ensures forall i | 0 <= i < |items| :: items[i].key in index
    decreases items
  {
    if items != [] {
      KnownNoMore(items[..|items| - 1], index);
      AllKnown(items[..|items| - 1], index);
      forall i | 0 <= i < |items| ensures items[i].key in index {
        assert i < |items| - 1 ==> items[i] == items[..|items| - 1][i];
      }
    }
  }

  lemma {:induction false} KnownNoMore(items: seq<Item>, index: map<Str, VNode>)
    ensures |KnownItems(items, index)| <= |items|
    decreases items
  {
    if items != [] {
      KnownNoMore(items[..|items| - 1], index);
    }
  }

  /** The children in the new order, all of them known. */
  method InNewOrder(items: seq<Item>, index: map<Str, VNode>) returns (children: seq<VNode>)
    requires forall i | 0 <= i < |items| :: items[i].key in index
    ensures children == NodesFor(items, index)
  {
    children := [];
    for i := 0 to |items|
      invariant children == NodesFor(items, index)[..i]
    {
      children := children + [index[items[i].key]];
    }
  }

  /** Second phase: one swap, or moves and insertions around a longest increasing subsequence. */
  method ReorderPhase(items: seq<Item>, rest: seq<VNode>, index: map<Str, VNode>, ghost keys: seq<Str>)
    returns (children: seq<VNode>, index': map<Str, VNode>, ops: seq<Op>, ghost marks: seq<bool>)
    requires Indexed(rest, index, keys) && Distinct(Keys(items))
    requires forall i | 0 <= i < |items| :: NodeFor(items[i], index) in rest <==> items[i].key in index
    ensures children == NodesFor(items, index)
    ensures IndexSoFar(index, index', items, |items|)
    ensures var next := NodesFor(items, index);
            && (forall x | x in Common(next, rest) :: x in rest)
            && IsLis(MoveScripts.Positions(rest, Common(next, rest)), marks)
            && Latest(MoveScripts.Positions(rest, Common(next, rest)), marks)
            && |Common(next, rest)| == |marks|
            && ops == Reorder(next, rest, marks)
  {
    hide Indexed, Common, IsLis, Latest, MoveScripts.Positions, Keys, Kinds, Rebuild, IndexSoFar, KnownItems, Unmarked;
    ghost var next := NodesFor(items, index);
    IndexedDistinct(rest, index, keys);
    KnownIsCommon(items, index, rest);
    var pos := PositionsByKey(rest, index, keys);
    var positions := OldPositions(items, rest, index, pos);
    PositionsFound(positions, rest, Common(next, rest));
    var lis := LisIndices(positions);
    marks := lis;
    LisLength(positions, lis);
    if |positions| == |items| && |positions| >= 2 {
      var count, a, b := FindSwap(lis);
      if count == 2 {
        AllKnown(items, index);
        ops := [Op.Swap(index[items[a].key], index[items[b].key])];
        children := InNewOrder(items, index);
        index' := index;
        NothingNew(items, index);
        return;
      }
    }
    children, index', ops := RebuildLoop(items, index, lis, rest);
  }

  lemma LisLength(p: seq<int>, marks: seq<bool>)
    requires IsLis(p, marks)
    ensures |marks| == |p|
  {
  }

  lemma NothingNew(items: seq<Item>, index: map<Str, VNode>)
    requires forall i | 0 <= i < |items| :: items[i].key in index
    ensures IndexSoFar(index, index, items, |items|)
  {
  }

  // ----------------------------------------------------------------- the object

  /** Every key's last item. */
  function LastIndex(items: seq<Item>): map<Str, VNode> {
    if items == [] then map[]
    else LastIndex(items[..|items| - 1])[items[|items| - 1].key := items[|items| - 1].node]
  }

  lemma {:induction false} LastIndexKeys(items: seq<Item>)
    ensures forall k :: k in LastIndex(items) <==> exists j :: 0 <= j < |items| && items[j].key == k
    decreases items
  {
    if items != [] {
      var front := items[..|items| - 1];
      LastIndexKeys(front);
      assert forall j | 0 <= j < |front| :: front[j] == items[j];
    }
  }

  lemma {:induction false} LastIndexOf(items: seq<Item>, j: nat)
    requires j < |items| && forall i | j < i < |items| :: items[i].key != items[j].key
    ensures items[j].key in LastIndex(items) && LastIndex(items)[items[j].key] == items[j].node
    decreases items
  {
    if j < |items| - 1 {
      var front := items[..|items| - 1];
      assert forall i | 0 <= i < |front| :: front[i] == items[i];
      LastIndexOf(front, j);
    }
  }

  /** The initial render loop. */
  method RenderAll(items: seq<Item>) returns (kids: seq<VNode>, index: map<Str, VNode>, parents: set<uint32>)
    ensures kids == NodesFor(items, map[]) && index == LastIndex(items)
    ensures parents == set x | x in kids :: x.id
  {
    hide Keys;
    kids, index, parents := [], map[], {};
    for i := 0 to |items|
      invariant kids == NodesFor(items, map[])[..i]
      invariant index == LastIndex(items[..i])
      invariant parents == set x | x in kids :: x.id
    {
      assert items[..i + 1][..i] == items[..i];
      index := index[items[i].key := items[i].node];
      kids := kids + [items[i].node];
      parents := parents + {items[i].node.id};
    }
    assert items[..|items|] == items;
  }

  lemma {:induction false} RenderedIndex(items: seq<Item>, kids: seq<VNode>, index: map<Str, VNode>)
    requires Distinct(Keys(items)) && kids == NodesFor(items, map[]) && index == LastIndex(items)
    requires forall i, j | 0 <= i < j < |items| :: items[i].node.id != items[j].node.id
    ensures Indexed(kids, index, Keys(items))
  {
    var keys := Keys(items);
    assert forall j | 0 <= j < |items| :: keys[j] == items[j].key;
    LastIndexKeys(items);
    forall j | 0 <= j < |items| ensures items[j].key in index && index[items[j].key] == items[j].node {
      assert forall i | j < i < |items| :: Keys(items)[i] != Keys(items)[j];
      LastIndexOf(items, j);
    }
    hide LastIndex;
  }

  /**
   The nodes whose parent is the container after an update: the new children and,
   if all were cleared at once, still those that went.
   */
  function ParentedAfter(parented: set<uint32>, old_: seq<VNode>, next: seq<VNode>): set<uint32> {
    (if next == [] && old_ != [] then parented else parented - set x | x in old_ && x !in next :: x.id)
    + set x | x in next :: x.id
  }

  /**
   After an update every item whose key was listed has its old node, and any other its
   own; an old node that is not listed any more has lost its parent, unless the list
   is empty.
   */
  lemma {:induction false} NodesKept(items: seq<Item>, children: seq<VNode>, index: map<Str, VNode>, keys: seq<Str>,
                                     parented: set<uint32>)
    requires Indexed(children, index, keys) && FreshlyRendered(items, children, index)
    requires forall x | x in children :: x.id in parented
    ensures var next := NodesFor(items, index);
            && |next| == |items|
            && (forall i | 0 <= i < |items| ::
                 next[i] == if items[i].key in index then index[items[i].key] else items[i].node)
            && (forall x | x in children && x !in next ::
                 x.id in ParentedAfter(parented, children, next) <==> next == [])
  {
    var next := NodesFor(items, index);
    IndexedDistinct(children, index, keys);
    forall x | x in children && x !in next ensures forall y | y in next :: y.id != x.id {
      forall y | y in next ensures y.id != x.id {
        var i :| 0 <= i < |next| && next[i] == y;
        var j :| 0 <= j < |children| && children[j] == x;
        if items[i].key in index {
          var k :| 0 <= k < |children| && children[k] == y;
        }
      }
    }
  }

  /** RemoveChild resets the parent of what goes, clearing the list does not; what is listed gets its parent. */
  method Reparent(parented: set<uint32>, were: seq<VNode>, rest: seq<VNode>, children: seq<VNode>)
    returns (r: set<uint32>)
    requires rest == Common(were, children)
    ensures r == ParentedAfter(parented, were, children) && forall x | x in children :: x.id in r
  {
    r := parented;
    if |children| > 0 || |were| == 0 {
      r := r - set x | x in were && x !in rest :: x.id;
    }
    r := r + set x | x in children :: x.id;
  }

  class ListContainer {
    const id: uint32
    var children: seq<VNode>
    var nodeMap: map<Str, VNode>
    var parented: set<uint32>      // ids of the nodes whose Parent is this container
    var pending: seq<Op>
    var dirty: bool
    ghost var keys: seq<Str>       // keys of the current items

    /**
     The children are the nodes of the current items in order, the index is a
     bijection onto them, ids are distinct and every parent is set.
     */
    ghost predicate Valid()
      reads this
    {
      Indexed(children, nodeMap, keys) && forall x | x in children :: x.id in parented
    }

    /** The initial render; the list can be updated if its keys, and the rendered nodes' ids, are distinct. */
    constructor (id: uint32, items: seq<Item>)
      ensures keys == Keys(items) && children == NodesFor(items, map[]) && nodeMap == LastIndex(items)
      ensures parented == set x | x in children :: x.id
      ensures pending == [] && !dirty && this.id == id
      ensures Distinct(Keys(items)) && (forall i, j | 0 <= i < j < |items| :: items[i].node.id != items[j].node.id)
              ==> Valid()
    {
      var kids, index, parents := RenderAll(items);
      this.id, this.pending, this.dirty := id, [], false;
      this.children, this.nodeMap, this.parented := kids, index, parents;
      this.keys := Keys(items);
      new;
      if Distinct(Keys(items)) && forall i, j | 0 <= i < j < |items| :: items[i].node.id != items[j].node.id {
        RenderedIndex(items, kids, index);
      }
    }

    /**
     One notification with a new list of items, their keys distinct: the
     children become the nodes of the items in order, surviving keys keep their
     node, and what is queued is an update from the old children to the new.
     */
    method Update(items: seq<Item>) returns (ghost marks: seq<bool>, ghost cut: nat)
      requires Valid() && Distinct(Keys(items)) && FreshlyRendered(items, children, nodeMap)
      modifies this
      ensures Valid() && keys == Keys(items) && dirty
      ensures children == NodesFor(items, old(nodeMap))
      ensures |old(pending)| <= |pending| && pending[..|old(pending)|] == old(pending)
      ensures IsUpdate(pending[|old(pending)|..], old(children), children, marks, cut)
      ensures TieBroken(old(children), children, marks)
      ensures parented == ParentedAfter(old(parented), old(children), children)
    {
      hide Indexed, FreshlyRendered, Common, IsLis, Latest, MoveScripts.Positions, Keys, Distinct, IsRemoval, Reorder,
           IndexSoFar, ParentedAfter;
      ghost var next, before, index, queued := NodesFor(items, nodeMap), children, nodeMap, pending;
      var removals, reorder;
      ghost var restKeys;
      var were := children;
      children, nodeMap, removals, restKeys := RemovePhase(items, children, nodeMap, keys);
      pending := pending + removals;
      var rest := children;
      cut := |removals|;
      ghost var restIndex := nodeMap;
      children, nodeMap, reorder, marks := ReorderPhase(items, children, nodeMap, restKeys);
      pending := pending + reorder;
      NextIndexed(items, before, index, keys, restIndex, nodeMap);
      keys := Keys(items);
      parented := Reparent(parented, were, rest, children);
      dirty := true;
      assert pending[|queued|..] == removals + reorder;
      assert (removals + reorder)[..cut] == removals && (removals + reorder)[cut..] == reorder;
    }
  }
}
