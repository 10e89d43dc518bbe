/**
 The keyed list container of pkg/dom/reactive.go (For): its children, its key
 index and the operations each update queues.
 */
module ForNode {
  import opened Seqs
  import opened Ranges
  import opened Lis
  import MoveScripts
  import opened Wire
  import opened Trees
  import opened Reconcile
  import opened ReconcileReplay

  /** An item's key, and the node that rendering the item now would return. */
  datatype Item = Item(key: Str, node: VNode)

  function Keys(items: seq<Item>): (r: seq<Str>)
    ensures |r| == |items| && forall i | 0 <= i < |items| :: r[i] == items[i].key
  {
    seq(|items|, i requires 0 <= i < |items| => items[i].key)
  }

  /** Known keys keep their node, the others get the rendered one. */
  function NodeFor(item: Item, known: map<Str, VNode>): VNode {
    if item.key in known then known[item.key] else item.node
  }

  function NodesFor(items: seq<Item>, known: map<Str, VNode>): (r: seq<VNode>)
    ensures |r| == |items| && forall i | 0 <= i < |items| :: r[i] == NodeFor(items[i], known)
  {
    seq(|items|, i requires 0 <= i < |items| => NodeFor(items[i], known))
  }

  /** `children` are the nodes of the keys `keys`, in order, with distinct ids, and the index knows exactly them. */
  ghost predicate Indexed(children: seq<VNode>, index: map<Str, VNode>, keys: seq<Str>) {
    && Distinct(keys) && |keys| == |children|
    && (forall k :: k in index <==> k in keys)
    && (forall i | 0 <= i < |keys| :: index[keys[i]] == children[i])
    && (forall i, j | 0 <= i < j < |children| :: children[i].id != children[j].id)
  }

  /** Rendering makes nodes with ids of their own. */
  ghost predicate FreshlyRendered(items: seq<Item>, children: seq<VNode>, index: map<Str, VNode>) {
    && (forall i, j | 0 <= i < j < |items| && items[i].key !in index && items[j].key !in index ::
          items[i].node.id != items[j].node.id)
    && (forall i, j | 0 <= i < |items| && items[i].key !in index && 0 <= j < |children| ::
          items[i].node.id != children[j].id)
  }

  lemma {:induction false} IndexedDistinct(children: seq<VNode>, index: map<Str, VNode>, keys: seq<Str>)
    requires Indexed(children, index, keys)
    ensures Distinct(children)
    ensures forall k, l | k in index && l in index && index[k] == index[l] :: k == l
    ensures forall k | k in index :: index[k] in children
    ensures forall x | x in children :: exists k :: k in index && index[k] == x
  {
    forall k, l | k in index && l in index && index[k] == index[l] ensures k == l {
      var i :| 0 <= i < |keys| && keys[i] == k;
      var j :| 0 <= j < |keys| && keys[j] == l;
    }
    forall k | k in index ensures index[k] in children {
      var i :| 0 <= i < |keys| && keys[i] == k;
    }
    forall x | x in children ensures exists k :: k in index && index[k] == x {
      var i :| 0 <= i < |children| && children[i] == x;
      assert keys[i] in index;
    }
  }

  /** The nodes of the next children have distinct ids. */
  lemma {:induction false} NextDistinct(items: seq<Item>, children: seq<VNode>, index: map<Str, VNode>, keys: seq<Str>)
    requires Indexed(children, index, keys) && Distinct(Keys(items)) && FreshlyRendered(items, children, index)
    ensures var next := NodesFor(items, index);
            (forall i, j | 0 <= i < j < |next| :: next[i].id != next[j].id) && Distinct(next)
  {
    var next := NodesFor(items, index);
    IndexedDistinct(children, index, keys);
    forall i, j | 0 <= i < j < |next| ensures next[i].id != next[j].id {
      assert Keys(items)[i] != Keys(items)[j];
      if items[i].key in index && items[j].key in index {
        assert next[i] in children && next[j] in children && next[i] != next[j];
        var a :| 0 <= a < |children| && children[a] == next[i];
        var b :| 0 <= b < |children| && children[b] == next[j];
        assert a != b;
      } else if items[i].key in index {
        var a :| 0 <= a < |children| && children[a] == next[i];
      } else if items[j].key in index {
        var b :| 0 <= b < |children| && children[b] == next[j];
      }
    }
  }

  /** Which old children are among the next ones: those whose key is listed. */
  lemma {:induction false} StaysIfListed(items: seq<Item>, children: seq<VNode>, index: map<Str, VNode>,
                                         keys: seq<Str>, k: Str)
    requires Indexed(children, index, keys) && FreshlyRendered(items, children, index) && k in index
    ensures index[k] in NodesFor(items, index) <==> k in Keys(items)
  {
    var next := NodesFor(items, index);
    IndexedDistinct(children, index, keys);
    var j :| 0 <= j < |children| && children[j] == index[k];
    if k in Keys(items) {
      var i :| 0 <= i < |items| && Keys(items)[i] == k;
      assert next[i] == index[k];
    }
    if index[k] in next {
      var i :| 0 <= i < |next| && next[i] == index[k];
      assert items[i].key in index;
      assert items[i].key == k == Keys(items)[i];
    }
  }

  // ------------------------------------------------------- loops of one update

  /** The set of listed keys. */
  method KeySet(items: seq<Item>) returns (keys: set<Str>)
    ensures keys == ToSet(Keys(items))
  {
    keys := {};
    for i := 0 to |items|
      invariant forall k :: k in keys <==> exists j :: 0 <= j < i && items[j].key == k
    {
      keys := keys + {items[i].key};
    }
    assert forall k :: k in Keys(items) <==> exists j :: 0 <= j < |items| && items[j].key == k;
  }

  /** The key of every indexed node. */
  method KeysByNode(index: map<Str, VNode>) returns (toKey: map<VNode, Str>)
    ensures forall x | x in toKey :: toKey[x] in index && index[toKey[x]] == x
    ensures forall k | k in index :: index[k] in toKey
  {
    toKey := map[];
    var todo := index.Keys;
    while todo != {}
      invariant todo <= index.Keys
      invariant forall x | x in toKey :: toKey[x] in index && index[toKey[x]] == x
      invariant forall k | k in index && k !in todo :: index[k] in toKey
      decreases todo
    {
      var key :| key in todo;
      toKey := toKey[index[key] := key];
      todo := todo - {key};
    }
  }

  /** Positions of the children by key. */
  method PositionsByKey(children: seq<VNode>, index: map<Str, VNode>, ghost keys: seq<Str>)
    returns (pos: map<Str, nat>)
    requires Indexed(children, index, keys)
    ensures pos.Keys == index.Keys
    ensures forall k | k in index :: pos[k] < |children| && children[pos[k]] == index[k]
  {
    IndexedDistinct(children, index, keys);
    var toKey := KeysByNode(index);
    ChildKeys(children, index, keys, toKey);
    hide Indexed, Placed;
    pos := map[];
    NonePlaced(keys);
    for i := 0 to |children|
      invariant Placed(pos, keys, i)
    {
      var child := children[i];
      assert child in toKey && toKey[child] == keys[i];
      PlacedNext(pos, keys, i);
      if child in toKey {
        pos := pos[toKey[child] := i];
      }
    }
    AllPlaced(pos, keys);
    PositionsMeaning(children, index, keys, pos);
  }

  /** The positions of the first `n` keys. */
  ghost predicate Placed(pos: map<Str, nat>, keys: seq<Str>, n: nat) {
    && n <= |keys|
    && (forall k | k in pos :: pos[k] < n && keys[pos[k]] == k)
    && (forall j | 0 <= j < n :: keys[j] in pos)
  }

  lemma NonePlaced(keys: seq<Str>)
    ensures Placed(map[], keys, 0)
  {
  }

  lemma PlacedNext(pos: map<Str, nat>, keys: seq<Str>, n: nat)
    requires Placed(pos, keys, n) && n < |keys|
    ensures Placed(pos[keys[n] := n], keys, n + 1)
  {
  }

  lemma AllPlaced(pos: map<Str, nat>, keys: seq<Str>)
    requires Placed(pos, keys, |keys|)
    ensures forall k | k in pos :: pos[k] < |keys| && keys[pos[k]] == k
    ensures forall j | 0 <= j < |keys| :: keys[j] in pos
  {
  }

  lemma {:induction false} PositionsMeaning(children: seq<VNode>, index: map<Str, VNode>, keys: seq<Str>,
                                            pos: map<Str, nat>)
    requires Indexed(children, index, keys)
    requires forall k | k in pos :: pos[k] < |keys| && keys[pos[k]] == k
    requires forall j | 0 <= j < |keys| :: keys[j] in pos
    ensures pos.Keys == index.Keys
    ensures forall k | k in index :: pos[k] < |children| && children[pos[k]] == index[k]
  {
  }

  lemma {:induction false} ChildKeys(children: seq<VNode>, index: map<Str, VNode>, keys: seq<Str>,
                                     toKey: map<VNode, Str>)
    requires Indexed(children, index, keys)
    requires forall x | x in toKey :: toKey[x] in index && index[toKey[x]] == x
    requires forall k | k in index :: index[k] in toKey
    ensures |keys| == |children| && index.Keys == ToSet(keys)
    ensures forall i | 0 <= i < |children| :: children[i] in toKey && toKey[children[i]] == keys[i]
  {
    IndexedDistinct(children, index, keys);
    forall i | 0 <= i < |children| ensures children[i] in toKey && toKey[children[i]] == keys[i] {
      assert keys[i] in index;
    }
  }

  /** Items whose key is known, in order. */
  function KnownItems(items: seq<Item>, index: map<Str, VNode>): seq<VNode> {
    if items == [] then []
    else
      var rest := KnownItems(items[..|items| - 1], index);
      var last := items[|items| - 1];
      if last.key in index then rest + [index[last.key]] else rest
  }

  /** Old positions of the known items, in the new order. */
  method OldPositions(items: seq<Item>, children: seq<VNode>, index: map<Str, VNode>, pos: map<Str, nat>)
    returns (p: seq<int>)
    requires pos.Keys == index.Keys && Distinct(children)
    requires forall k | k in index :: pos[k] < |children| && children[pos[k]] == index[k]
    ensures |p| == |KnownItems(items, index)|
    ensures forall i | 0 <= i < |p| :: 0 <= p[i] < |children| && children[p[i]] == KnownItems(items, index)[i]
  {
    p := [];
    for i := 0 to |items|
      invariant |p| == |KnownItems(items[..i], index)|
      invariant forall j | 0 <= j < |p| :: 0 <= p[j] < |children| && children[p[j]] == KnownItems(items[..i], index)[j]
    {
      var key := items[i].key;
      assert items[..i + 1][..i] == items[..i];
      if key in pos {
        p := p + [pos[key]];
      }
    }
    assert items[..|items|] == items;
  }

  /** Counts the unmarked positions up to the third, noting the first two. */
  method FindSwap(marks: seq<bool>) returns (count: nat, a: nat, b: nat)
    ensures count == 2 <==> |Unmarked(marks)| == 2
    ensures count == 2 ==> Unmarked(marks) == [a, b] && a < b < |marks|
  {
    hide Found;
    count, a, b := 0, 0, 0;
    ghost var found: seq<nat> := [];
    FoundNone(marks);
    for i := 0 to |marks|
      invariant Found(found, marks, i) && |found| == count <= 2
      invariant count >= 1 ==> found[0] == a && a < i
      invariant count >= 2 ==> found[1] == b && a < b < i
    {
      FoundNext(found, marks, i);
      if !marks[i] {
        if count == 0 {
          a := i;
        } else if count == 1 {
          b := i;
        }
        count := count + 1;
        found := found + [i];
        if count > 2 {
          FoundAll(found, marks, i + 1);
          return;
        }
      }
    }
    FoundAll(found, marks, |marks|);
    assert count == 2 ==> found == [a, b];
  }

  /** `found` are the unmarked positions before `n`. */
  ghost predicate Found(found: seq<nat>, marks: seq<bool>, n: nat)
    requires n <= |marks|
  {
    found == Unmarked(marks[..n])
  }

  lemma FoundNone(marks: seq<bool>)
    ensures Found([], marks, 0)
  {
  }

  lemma FoundNext(found: seq<nat>, marks: seq<bool>, i: nat)
    requires i < |marks| && Found(found, marks, i)
    ensures Found(if marks[i] then found else found + [i], marks, i + 1)
  {
    assert marks[..i + 1][..i] == marks[..i];
  }

  lemma {:induction false} FoundAll(found: seq<nat>, marks: seq<bool>, n: nat)
    requires n <= |marks| && Found(found, marks, n)
    ensures |Unmarked(marks)| >= |found| && (n == |marks| ==> Unmarked(marks) == found)
  {
    UnmarkedGrows(marks, n);
    assert marks[..|marks|] == marks;
  }

  lemma {:induction false} UnmarkedGrows(marks: seq<bool>, n: nat)
    requires n <= |marks|
    ensures |Unmarked(marks)| >= |Unmarked(marks[..n])|
    decreases |marks| - n
  {
    if n < |marks| {
      UnmarkedGrows(marks, n + 1);
      UnmarkedLast(marks[..n + 1]);
      hide Unmarked;
      assert marks[..n + 1][..n] == marks[..n];
    } else {
      assert marks[..n] == marks;
    }
  }

  lemma UnmarkedLast(marks: seq<bool>)
    requires marks != []
    ensures |Unmarked(marks)| >= |Unmarked(marks[..|marks| - 1])|
  {
  }

  lemma {:induction false} CommonSnoc(s: seq<VNode>, x: VNode, t: seq<VNode>)
    ensures Common(s + [x], t) == Common(s, t) + if x in t then [x] else []
    decreases s
  {
    if s == [] {
      assert [x][1..] == [] && s + [x] == [x];
    } else {
      CommonSnoc(s[1..], x, t);
      CommonUnfold(s, t);
      CommonUnfold(s + [x], t);
      assert (s + [x])[1..] == s[1..] + [x];
      hide Common;
      Regroup(if s[0] in t then [s[0]] else [], Common(s[1..], t), if x in t then [x] else []);
    }
  }

  lemma CommonUnfold(s: seq<VNode>, t: seq<VNode>)
    requires s != []
    ensures Common(s, t) == (if s[0] in t then [s[0]] else []) + Common(s[1..], t)
  {
  }

  /** The known items are the surviving nodes, in the new order. */
  lemma {:induction false} KnownIsCommon(items: seq<Item>, index: map<Str, VNode>, known: seq<VNode>)
    requires forall i | 0 <= i < |items| :: NodeFor(items[i], index) in known <==> items[i].key in index
    ensures KnownItems(items, index) == Common(NodesFor(items, index), known)
    decreases items
  {
    if items != [] {
      var front, last := items[..|items| - 1], items[|items| - 1];
      KnownIsCommon(front, index, known);
      assert NodesFor(items, index) == NodesFor(front, index) + [NodeFor(last, index)];
      CommonSnoc(NodesFor(front, index), NodeFor(last, index), known);
    }
  }

  lemma {:induction false} PositionsFound(p: seq<int>, known: seq<VNode>, s: seq<VNode>)
    requires Distinct(known) && |p| == |s| && forall x | x in s :: x in known
    requires forall i | 0 <= i < |p| :: 0 <= p[i] < |known| && known[p[i]] == s[i]
    ensures p == MoveScripts.Positions(known, s)
  {
    forall i | 0 <= i < |p| ensures p[i] == MoveScripts.Positions(known, s)[i] {
      IndexOfUnique(known, p[i]);
    }
  }

  /** RemoveChild: the first occurrence goes. */
  method RemoveChild(children: seq<VNode>, child: VNode) returns (rest: seq<VNode>)
    requires Distinct(children)
    ensures rest == Without(children, child)
  {
    for i := 0 to |children|
      invariant child !in children[..i]
    {
      if children[i] == child {
        WithoutAt(children, i);
        return children[..i] + children[i + 1..];
      }
    }
    assert children[..|children|] == children;
    WithoutAbsent(children, child);
    return children;
  }

  lemma {:induction false} OutsideSnoc(s: seq<VNode>, gone: seq<VNode>, x: VNode)
    ensures Outside(s, gone + [x]) == Without(Outside(s, gone), x)
    decreases s
  {
    if s != [] {
      OutsideSnoc(s[1..], gone, x);
      OutsideUnfold(s, gone);
      OutsideUnfold(s, gone + [x]);
      WithoutSplit(if s[0] in gone then [] else [s[0]], Outside(s[1..], gone), x);
      hide Outside;
    }
  }

  lemma OutsideUnfold(s: seq<VNode>, gone: seq<VNode>)
    requires s != []
    ensures Outside(s, gone) == (if s[0] in gone then [] else [s[0]]) + Outside(s[1..], gone)
  {
  }

  lemma {:induction false} OutsideDistinct(s: seq<VNode>, gone: seq<VNode>)
    requires Distinct(s)
    ensures Distinct(Outside(s, gone))
    decreases s
  {
    if s != [] {
      assert s[0] !in s[1..];
      OutsideDistinct(s[1..], gone);
    }
  }

  /** The entries of `index` with keys among `keys`. */
  function Restricted(index: map<Str, VNode>, keys: set<Str>): map<Str, VNode> {
    map k | k in index && k in keys :: index[k]
  }

  lemma RestrictedAll(index: map<Str, VNode>, listed: set<Str>)
    ensures Restricted(index, index.Keys + listed) == index
  {
  }

  lemma RestrictedStep(index: map<Str, VNode>, todo: set<Str>, listed: set<Str>, key: Str)
    requires key !in todo
    ensures key in listed ==> Restricted(index, todo + {key} + listed) == Restricted(index, todo + listed)
    ensures key !in listed ==> Restricted(index, todo + {key} + listed) - {key} == Restricted(index, todo + listed)
  {
  }

  /** `gone` are the nodes of the unlisted keys outside `todo`. */
  ghost predicate Dropped(gone: seq<VNode>, index: map<Str, VNode>, todo: set<Str>, listed: set<Str>) {
    && (forall x | x in gone :: exists k :: k in index && k !in todo && k !in listed && index[k] == x)
    && (forall k | k in index && k !in todo && k !in listed :: index[k] in gone)
  }

  lemma DroppedNone(index: map<Str, VNode>, listed: set<Str>)
    ensures Dropped([], index, index.Keys, listed)
  {
  }

  lemma {:induction false} DroppedNext(gone: seq<VNode>, index: map<Str, VNode>, todo: set<Str>, listed: set<Str>,
                                       key: Str)
    requires forall k, l | k in index && l in index && index[k] == index[l] :: k == l
    requires Dropped(gone, index, todo + {key}, listed) && key in index && key !in todo && key !in listed
    ensures index[key] !in gone && Dropped(gone + [index[key]], index, todo, listed)
  {
    forall x | x in gone + [index[key]] ensures exists k :: k in index && k !in todo && k !in listed && index[k] == x {
      if x in gone {
        var k :| k in index && k !in todo + {key} && k !in listed && index[k] == x;
      }
    }
  }

  lemma {:induction false} DroppedSkip(gone: seq<VNode>, index: map<Str, VNode>, todo: set<Str>, listed: set<Str>,
                                       key: Str)
    requires Dropped(gone, index, todo + {key}, listed) && key in listed
    ensures Dropped(gone, index, todo, listed)
  {
    forall x | x in gone ensures exists k :: k in index && k !in todo && k !in listed && index[k] == x {
      var k :| k in index && k !in todo + {key} && k !in listed && index[k] == x;
    }
  }

  lemma {:induction false} DroppedAll(gone: seq<VNode>, index: map<Str, VNode>, listed: set<Str>)
    requires Dropped(gone, index, {}, listed)
    ensures forall x :: x in gone <==> exists k :: k in index && k !in listed && index[k] == x
  {
  }

  /** The children whose key is no longer listed go one by one, in the order the map yields them. */
  method RemoveMissing(children: seq<VNode>, index: map<Str, VNode>, listed: set<Str>)
    returns (rest: seq<VNode>, index': map<Str, VNode>, ops: seq<Op>, ghost gone: seq<VNode>)
    requires Distinct(children)
    requires forall k, l | k in index && l in index && index[k] == index[l] :: k == l
    ensures Distinct(gone) && forall x :: x in gone <==> exists k :: k in index && k !in listed && index[k] == x
    ensures rest == Outside(children, gone)
    ensures index' == Restricted(index, listed)
    ensures ops == seq(|gone|, i requires 0 <= i < |gone| => Remove(gone[i]))
  {
    hide Outside, Dropped, Restricted;
    RestrictedAll(index, listed);
    rest, index', ops, gone := children, index, [], [];
    OutsideNone(children);
    DroppedNone(index, listed);
    var todo := index.Keys;
    while todo != {}
      invariant todo <= index.Keys
      invariant Distinct(gone)
      invariant Dropped(gone, index, todo, listed)
      invariant rest == Outside(children, gone)
      invariant index' == Restricted(index, todo + listed)
      invariant ops == seq(|gone|, i requires 0 <= i < |gone| => Remove(gone[i]))
      decreases todo
    {
      var key :| key in todo;
      var node := index[key];
      assert todo == (todo - {key}) + {key};
      todo := todo - {key};
      RestrictedStep(index, todo, listed, key);
      if key in listed {
        DroppedSkip(gone, index, todo, listed, key);
      } else {
        DroppedNext(gone, index, todo, listed, key);
        ops := ops + [Remove(node)];
        OutsideDistinct(children, gone);
        rest := RemoveChild(rest, node);
        index' := index' - {key};
        OutsideSnoc(children, gone, node);
        gone := gone + [node];
      }
    }
    assert {} + listed == listed;
    DroppedAll(gone, index, listed);
  }

  /** The index after the first `n` items: what was known, and the nodes made for these items. */
  ghost predicate IndexSoFar(index: map<Str, VNode>, index': map<Str, VNode>, items: seq<Item>, n: nat)
    requires n <= |items|
  {
    && (forall k | k in index :: k in index' && index'[k] == index[k])
    && (forall j | 0 <= j < n :: items[j].key in index' && index'[items[j].key] == NodeFor(items[j], index))
    && (forall k | k in index' :: k in index || k in Keys(items[..n]))
  }

  lemma {:induction false} IndexStep(index: map<Str, VNode>, index': map<Str, VNode>, items: seq<Item>, n: nat)
    requires n < |items| && Distinct(Keys(items)) && IndexSoFar(index, index', items, n)
    ensures items[n].key in index' <==> items[n].key in index
    ensures items[n].key in index' ==>
              index'[items[n].key] == NodeFor(items[n], index) && IndexSoFar(index, index', items, n + 1)
    ensures items[n].key !in index' ==> IndexSoFar(index, index'[items[n].key := items[n].node], items, n + 1)
  {
    assert Keys(items)[n] == items[n].key;
    assert Keys(items[..n]) == Keys(items)[..n];
    assert Keys(items[..n + 1]) == Keys(items[..n]) + [items[n].key];
    assert items[n].key !in Keys(items[..n]);
    assert forall j | 0 <= j < n :: items[j].key == Keys(items)[j] != items[n].key;
  }

  /** What is still to be queued from item `i` on, with `exist` marks used up. */
  function Left(next: seq<VNode>, known: seq<VNode>, marks: seq<bool>, i: nat, exist: nat, bulk: seq<VNode>): seq<Op>
    requires Aligned(next, known, marks, i, exist)
  {
    Rebuild(next[i..], Kinds(next[i..], known, marks[exist..]), bulk)
  }

  /** The marks from `exist` on belong to the known items from `i` on. */
  ghost predicate Aligned(next: seq<VNode>, known: seq<VNode>, marks: seq<bool>, i: nat, exist: nat) {
    i <= |next| && exist <= |marks| && |Common(next[i..], known)| == |marks| - exist
  }

  lemma {:induction false} AlignedStep(next: seq<VNode>, known: seq<VNode>, marks: seq<bool>, i: nat, exist: nat)
    requires Aligned(next, known, marks, i, exist) && i < |next|
    ensures next[i] in known ==> exist < |marks| && Aligned(next, known, marks, i + 1, exist + 1)
    ensures next[i] !in known ==> Aligned(next, known, marks, i + 1, exist)
  {
    CommonUnfold(next[i..], known);
    assert next[i..][1..] == next[i + 1..];
  }

  lemma {:induction false} LeftNew(next: seq<VNode>, known: seq<VNode>, marks: seq<bool>, i: nat, exist: nat,
                                   bulk: seq<VNode>)
    requires Aligned(next, known, marks, i, exist) && i < |next| && next[i] !in known
    ensures Aligned(next, known, marks, i + 1, exist)
    ensures Left(next, known, marks, i, exist, bulk) == Left(next, known, marks, i + 1, exist, bulk + [next[i]])
  {
    AlignedStep(next, known, marks, i, exist);
    hide Common;
    var rest := next[i..];
    assert rest[0] == next[i] && rest[1..] == next[i + 1..];
    assert Kinds(rest, known, marks[exist..])[1..] == Kinds(rest[1..], known, marks[exist..]);
  }

  lemma {:induction false} LeftKnown(next: seq<VNode>, known: seq<VNode>, marks: seq<bool>, i: nat, exist: nat,
                                     bulk: seq<VNode>)
    requires Aligned(next, known, marks, i, exist) && i < |next| && next[i] in known
    ensures exist < |marks| && Aligned(next, known, marks, i + 1, exist + 1)
    ensures Left(next, known, marks, i, exist, bulk)
            == if marks[exist] then Left(next, known, marks, i + 1, exist + 1, bulk)
               else FlushBulk(bulk) + [Op.Move(next[i])] + Left(next, known, marks, i + 1, exist + 1, [])
  {
    AlignedStep(next, known, marks, i, exist);
    hide Common, FlushBulk;
    var rest := next[i..];
    assert rest[0] == next[i] && rest[1..] == next[i + 1..];
    assert marks[exist..][0] == marks[exist] && marks[exist..][1..] == marks[exist + 1..];
    assert Kinds(rest, known, marks[exist..])[1..] == Kinds(rest[1..], known, marks[exist + 1..]);
  }

  lemma {:induction false} LeftStart(next: seq<VNode>, known: seq<VNode>, marks: seq<bool>)
    requires |Common(next, known)| == |marks|
    ensures Aligned(next, known, marks, 0, 0)
    ensures Left(next, known, marks, 0, 0, []) == Rebuild(next, Kinds(next, known, marks), [])
  {
    hide Common, Kinds, Rebuild;
    assert next[0..] == next && marks[0..] == marks;
  }

  lemma {:induction false} LeftEnd(next: seq<VNode>, known: seq<VNode>, marks: seq<bool>, exist: nat, bulk: seq<VNode>)
    requires Aligned(next, known, marks, |next|, exist)
    ensures Left(next, known, marks, |next|, exist, bulk) == FlushBulk(bulk)
  {
    assert next[|next|..] == [];
  }

  lemma NothingToFlush()
    ensures FlushBulk([]) == []
  {
  }

  lemma NothingIndexed(index: map<Str, VNode>, items: seq<Item>)
    ensures IndexSoFar(index, index, items, 0)
  {
  }

  lemma Queued(ops: seq<Op>, flush: seq<Op>, move: seq<Op>, rest: seq<Op>)
    ensures ops + (flush + move + rest) == ops + flush + move + rest
    ensures flush == [] ==> ops + flush == ops
  {
  }

  /** The rebuild loop: children in the new order, new nodes indexed, moves and insertions queued. */
  method RebuildLoop(items: seq<Item>, index: map<Str, VNode>, marks: seq<bool>, ghost known: seq<VNode>)
    returns (children: seq<VNode>, index': map<Str, VNode>, ops: seq<Op>)
    requires Distinct(Keys(items))
    requires forall i | 0 <= i < |items| :: NodeFor(items[i], index) in known <==> items[i].key in index
    requires |Common(NodesFor(items, index), known)| == |marks|
    ensures children == NodesFor(items, index)
    ensures IndexSoFar(index, index', items, |items|)
    ensures ops == Rebuild(NodesFor(items, index), Kinds(NodesFor(items, index), known, marks), [])
  {
    hide Common, Kinds, Rebuild, FlushBulk, IndexSoFar, Keys, Left, Aligned, Distinct;
    ghost var next := NodesFor(items, index);
    children, index', ops := [], index, [];
    var bulk: seq<VNode> := [];
    var exist := 0;
    LeftStart(next, known, marks);
    NothingToFlush();
    NothingIndexed(index, items);
    for i := 0 to |items|
      invariant children == next[..i]
      invariant IndexSoFar(index, index', items, i)
      invariant Aligned(next, known, marks, i, exist)
      invariant Left(next, known, marks, 0, 0, []) == ops + Left(next, known, marks, i, exist, bulk)
    {
      var key := items[i].key;
      IndexStep(index, index', items, i);
      if key in index' {
        var existing := index'[key];
        LeftKnown(next, known, marks, i, exist, bulk);
        if !marks[exist] {
          ghost var rest := Left(next, known, marks, i + 1, exist + 1, []);
          Queued(ops, FlushBulk(bulk), [Op.Move(existing)], rest);
          if |bulk| > 0 {
            ops := ops + FlushBulk(bulk);
            bulk := [];
          }
          ops := ops + [Op.Move(existing)];
        }
        exist := exist + 1;
        children := children + [existing];
      } else {
        var child := items[i].node;
        LeftNew(next, known, marks, i, exist, bulk);
        index' := index'[key := child];
        children := children + [child];
        bulk := bulk + [child];
      }
    }
    LeftEnd(next, known, marks, exist, bulk);
    if |bulk| > 0 {
      ops := ops + FlushBulk(bulk);
    }
  }
}
