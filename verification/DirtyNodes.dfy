/**
 Server nodes as objects: the observers that mark them and the flush that drains them.
 */
module DirtyNodes {
  import opened Seqs
  import opened Ranges
  import opened Wire
  import opened Emission
  import opened Dirty
  import DirtyRuns

  class Node {
    const id: uint32
    const isText: bool
    const children: seq<Node>
    ghost const rank: nat

    var text: Str
    var attrs: map<Str, Str>
    var styles: map<Str, Str>
    var dirty: bool
    var dirtyText: bool
    var dirtyAttrs: map<Str, Str>
    var dirtyStyles: map<Str, Str>

    ghost function Value(): Mark
      reads this
    {
      Mark(isText, text, attrs, styles, dirty, dirtyText, dirtyAttrs, dirtyStyles)
    }

    constructor (id: uint32, isText: bool, text: Str, attrs: map<Str, Str>, styles: map<Str, Str>, children: seq<Node>,
                 ghost rank: nat)
      ensures this.id == id && this.isText == isText && this.children == children && this.rank == rank
      ensures Value() == Mark(isText, text, attrs, styles, false, false, map[], map[])
    {
      this.id, this.isText, this.children, this.rank := id, isText, children, rank;
      this.text, this.attrs, this.styles := text, attrs, styles;
      dirty, dirtyText, dirtyAttrs, dirtyStyles := false, false, map[], map[];
    }

    /** The observer behind TextF. */
    method OnText(value: Str)
      modifies this
      ensures Value() == TextChanged(old(Value()), value)
    {
      text := value;
      dirty := true;
      dirtyText := true;
    }

    /** The observer behind AttrF. */
    method OnAttr(key: Str, value: Str)
      modifies this
      ensures Value() == AttrChanged(old(Value()), key, value)
    {
      if (if key in attrs then attrs[key] else []) == value {
        return;
      }
      attrs := attrs[key := value];
      dirtyAttrs := dirtyAttrs[key := value];
      dirty := true;
    }

    /** The observer behind StyleF. */
    method OnStyle(property: Str, value: Str)
      modifies this
      ensures Value() == StyleChanged(old(Value()), property, value)
    {
      if (if property in styles then styles[property] else []) == value {
        return;
      }
      styles := styles[property := value];
      dirtyStyles := dirtyStyles[property := value];
      dirty := true;
    }

    /** One round of the flush loop: what the node has noted, and its text update if it has one. */
    method Drain() returns (msgs: seq<Msg>, updates: seq<(uint32, Str)>)
      modifies this
      ensures IsDrain(msgs, id, old(Value())) && Value() == Cleared(old(Value()))
      ensures updates == if old(dirtyText) then [(id, text)] else []
    {
      hide IsAttrs, IsStyles, IsDrain;
      updates := [];
      if dirtyText {
        updates := [(id, text)];
        dirtyText := false;
      }
      var fromAttrs := DrainAttrs(id, dirtyAttrs);
      dirtyAttrs := map[];
      var fromStyles := DrainStyles(id, dirtyStyles);
      dirtyStyles := map[];
      dirty := false;
      msgs := fromAttrs + fromStyles;
      DrainBoth(id, old(Value()), fromAttrs, fromStyles);
    }
  }

  lemma {:induction false} DrainBoth(id: uint32, n: Mark, a: seq<Msg>, b: seq<Msg>)
    requires IsAttrs(a, id, n.dirtyAttrs) && IsStyles(b, id, n.dirtyStyles)
    ensures IsDrain(a + b, id, n)
  {
    hide IsAttrs, IsStyles;
    assert (a + b)[..|a|] == a && (a + b)[|a|..] == b;
  }

  method DrainAttrs(id: uint32, noted: map<Str, Str>) returns (msgs: seq<Msg>)
    ensures IsAttrs(msgs, id, noted)
  {
    var keys := Range(noted);
    OrderCovers(keys, noted);
    msgs := [];
    for i := 0 to |keys|
      invariant msgs == AttrOps(id, Entries(keys[..i], noted))
    {
      var key := keys[i];
      assert keys[..i + 1][..i] == keys[..i];
      EntriesLast(keys[..i + 1], noted);
      var m := if noted[key] == [] then RemoveAttr(id, key) else SetAttr(id, key, noted[key]);
      msgs := msgs + [m];
    }
    assert keys[..|keys|] == keys;
  }

  method DrainStyles(id: uint32, noted: map<Str, Str>) returns (msgs: seq<Msg>)
    ensures IsStyles(msgs, id, noted)
  {
    var keys := Range(noted);
    OrderCovers(keys, noted);
    msgs := [];
    for i := 0 to |keys|
      invariant msgs == StyleOps(id, Entries(keys[..i], noted))
    {
      assert keys[..i + 1][..i] == keys[..i];
      EntriesLast(keys[..i + 1], noted);
      msgs := msgs + [SetStyle(id, keys[i], noted[keys[i]])];
    }
    assert keys[..|keys|] == keys;
  }

  // --------------------------------------------------------------- the tree

  /** A node's descendants form a tree of finite height. */
  ghost predicate Treelike(n: Node)
    decreases n.rank
  {
    forall c | c in n.children :: c.rank < n.rank && Treelike(c)
  }

  /** A node and its descendants, parents first. */
  ghost function Preorder(n: Node): (r: seq<Node>)
    requires Treelike(n)
    ensures n in r
    decreases n.rank, 1, 0
  {
    [n] + PreorderAll(n, 0)
  }

  /** The same for the children of `n` from `i` on. */
  ghost function PreorderAll(n: Node, i: nat): seq<Node>
    requires Treelike(n) && i <= |n.children|
    decreases n.rank, 0, |n.children| - i
  {
    if i == |n.children| then [] else Preorder(n.children[i]) + PreorderAll(n, i + 1)
  }

  /** Those marked dirty. */
  ghost function Marked(ns: seq<Node>): (r: seq<Node>)
    reads ns
  {
    if ns == [] then [] else (if ns[0].dirty then [ns[0]] else []) + Marked(ns[1..])
  }

  lemma {:induction false} MarkedSplit(a: seq<Node>, b: seq<Node>)
    ensures Marked(a + b) == Marked(a) + Marked(b)
    decreases a
  {
    if a == [] {
      assert a + b == b;
    } else {
      assert (a + b)[1..] == a[1..] + b;
      MarkedSplit(a[1..], b);
    }
  }

  /** collectDirty. */
  method CollectDirty(n: Node) returns (out: seq<Node>)
    requires Treelike(n)
    ensures out == Marked(Preorder(n))
    decreases n.rank
  {
    hide Treelike;
    out := [];
    if n.dirty {
      out := [n];
    }
    MarkedOne(n);
    ghost var done: seq<Node> := [n];
    for i := 0 to |n.children|
      invariant out == Marked(done)
      invariant done + PreorderAll(n, i) == Preorder(n)
    {
      ChildTree(n, i);
      PreorderStep(n, i);
      var below := CollectDirty(n.children[i]);
      ghost var more := Preorder(n.children[i]);
      MarkedSplit(done, more);
      hide Preorder, Marked;
      out := out + below;
      assert done + (more + PreorderAll(n, i + 1)) == (done + more) + PreorderAll(n, i + 1);
      done := done + more;
    }
    assert done + [] == done;
  }

  lemma MarkedOne(n: Node)
    ensures Marked([n]) == if n.dirty then [n] else []
  {
    assert [n][1..] == [];
  }

  lemma ChildTree(n: Node, i: nat)
    requires Treelike(n) && i < |n.children|
    ensures Treelike(n.children[i]) && n.children[i].rank < n.rank
  {
  }

  lemma PreorderStep(n: Node, i: nat)
    requires Treelike(n) && i < |n.children|
    ensures Treelike(n.children[i]) && PreorderAll(n, i) == Preorder(n.children[i]) + PreorderAll(n, i + 1)
  {
  }

  // ------------------------------------------------------------------ the flush

  function Ids(ns: seq<Node>): (r: seq<uint32>)
    ensures |r| == |ns| && forall i | 0 <= i < |ns| :: r[i] == ns[i].id
  {
    seq(|ns|, i requires 0 <= i < |ns| => ns[i].id)
  }

  /** The values of the nodes, by id. */
  ghost function Values(ns: seq<Node>): map<uint32, Mark>
    reads ns
  {
    if ns == [] then map[] else Values(ns[1..])[ns[0].id := ns[0].Value()]
  }

  lemma {:induction false} ValueAt(ns: seq<Node>, i: nat)
    requires Distinct(Ids(ns)) && i < |ns|
    ensures ns[i].id in Values(ns) && Values(ns)[ns[i].id] == ns[i].Value()
    decreases ns
  {
    if i > 0 {
      assert forall k | 0 <= k < |ns[1..]| :: Ids(ns[1..])[k] == Ids(ns)[k + 1];
      ValueAt(ns[1..], i - 1);
      assert Ids(ns)[0] == ns[0].id && Ids(ns)[i] == ns[i].id;
    }
  }

  lemma {:induction false} ValueOf(ns: seq<Node>, n: Node)
    requires Distinct(Ids(ns)) && n in ns
    ensures n.id in Values(ns) && Values(ns)[n.id] == n.Value()
  {
    ValueAt(ns, IndexOf(ns, n));
  }

  lemma {:induction false} ValueKeys(ns: seq<Node>)
    ensures Values(ns).Keys == ToSet(Ids(ns))
    decreases ns
  {
    if ns == [] {
    } else {
      ValueKeys(ns[1..]);
      assert Ids(ns) == [ns[0].id] + Ids(ns[1..]);
    }
  }

  lemma {:induction false} MarkedMembers(ns: seq<Node>)
    ensures forall n | n in Marked(ns) :: n in ns && n.dirty
    ensures forall n | n in ns && n.dirty :: n in Marked(ns)
    decreases ns
  {
    if ns != [] {
      MarkedMembers(ns[1..]);
      assert ns == [ns[0]] + ns[1..];
      assert Marked(ns) == (if ns[0].dirty then [ns[0]] else []) + Marked(ns[1..]);
    }
  }

  lemma {:induction false} MarkedDistinct(ns: seq<Node>)
    requires Distinct(Ids(ns))
    ensures Distinct(Ids(Marked(ns)))
    decreases ns
  {
    if ns != [] {
      DistinctTail(ns);
      MarkedDistinct(ns[1..]);
      MarkedMembers(ns[1..]);
      var rest, all := Marked(ns[1..]), Marked(ns);
      assert all == (if ns[0].dirty then [ns[0]] else []) + rest;
      hide Marked;
      if ns[0].dirty {
        forall i, j | 0 <= i < j < |all| ensures Ids(all)[i] != Ids(all)[j] {
          assert all[j] == rest[j - 1] && rest[j - 1] in ns[1..];
          assert i > 0 ==> Ids(all)[i] == Ids(rest)[i - 1] && Ids(all)[j] == Ids(rest)[j - 1];
        }
      }
    }
  }

  lemma DistinctTail(ns: seq<Node>)
    requires ns != [] && Distinct(Ids(ns))
    ensures Distinct(Ids(ns[1..])) && forall n | n in ns[1..] :: n.id != ns[0].id
  {
    assert forall i | 0 <= i < |ns[1..]| :: Ids(ns[1..])[i] == Ids(ns)[i + 1];
    forall n | n in ns[1..] ensures n.id != ns[0].id {
      var i := IndexOf(ns[1..], n);
      assert Ids(ns)[i + 1] == n.id && Ids(ns)[0] == ns[0].id;
    }
  }

  /** The dirty nodes found by the walk are exactly the ones marked. */
  lemma {:induction false} MarkedAreDirty(ns: seq<Node>)
    requires Distinct(Ids(ns))
    ensures DirtyRuns.DirtyOnes(Ids(Marked(ns)), Values(ns))
  {
    var found, ids, nodes := Marked(ns), Ids(Marked(ns)), Values(ns);
    MarkedDistinct(ns);
    MarkedMembers(ns);
    ValueKeys(ns);
    forall i | 0 <= i < |ns| ensures ns[i].id in nodes && nodes[ns[i].id] == ns[i].Value() {
      ValueAt(ns, i);
    }
    hide Marked, Values;
    forall id ensures id in ids <==> id in nodes && nodes[id].dirty {
      if id in ids {
        var k := IndexOf(ids, id);
        assert found[k] in ns;
      }
      if id in nodes && nodes[id].dirty {
        assert id in ToSet(Ids(ns));
        var k := IndexOf(Ids(ns), id);
        assert ns[k] in found;
        var j := IndexOf(found, ns[k]);
        assert ids[j] == id;
      }
    }
  }

  lemma {:induction false} DrainAllSnoc(msgs: seq<Msg>, ids: seq<uint32>, nodes: map<uint32, Mark>, more: seq<Msg>,
                                        id: uint32)
    requires IsDrainAll(msgs, ids, nodes) && id in nodes && IsDrain(more, id, nodes[id])
    ensures IsDrainAll(msgs + more, ids + [id], nodes)
    decreases ids
  {
    hide IsDrain;
    var all := msgs + more;
    if ids == [] {
      assert [id][1..] == [] && all[..|more|] == more && all[|more|..] == [];
    } else {
      var k :| 0 <= k <= |msgs| && IsDrain(msgs[..k], ids[0], nodes[ids[0]]) && IsDrainAll(msgs[k..], ids[1..], nodes);
      DrainAllSnoc(msgs[k..], ids[1..], nodes, more, id);
      assert all[..k] == msgs[..k] && all[k..] == msgs[k..] + more;
      assert (ids + [id])[1..] == ids[1..] + [id] && (ids + [id])[0] == ids[0];
    }
  }

  lemma {:induction false} TextsSnoc(ids: seq<uint32>, nodes: map<uint32, Mark>, id: uint32)
    requires id in nodes && forall i | i in ids :: i in nodes
    ensures Texts(ids + [id], nodes) == Texts(ids, nodes) + if nodes[id].dirtyText then [(id, nodes[id].text)] else []
    decreases ids
  {
    if ids == [] {
      assert [id][1..] == [];
    } else {
      var one := if nodes[ids[0]].dirtyText then [(ids[0], nodes[ids[0]].text)] else [];
      TextsSnoc(ids[1..], nodes, id);
      assert ids + [id] == [ids[0]] + (ids[1..] + [id]) && ids == [ids[0]] + ids[1..];
      TextsFirst(ids[0], ids[1..] + [id], nodes);
      TextsFirst(ids[0], ids[1..], nodes);
      hide Texts;
      Regroup(one, Texts(ids[1..], nodes), if nodes[id].dirtyText then [(id, nodes[id].text)] else []);
    }
  }

  lemma TextsFirst(id: uint32, ids: seq<uint32>, nodes: map<uint32, Mark>)
    requires id in nodes && forall i | i in ids :: i in nodes
    ensures forall i | i in [id] + ids :: i in nodes
    ensures Texts([id] + ids, nodes) == (if nodes[id].dirtyText then [(id, nodes[id].text)] else []) + Texts(ids, nodes)
  {
    assert ([id] + ids)[1..] == ids;
  }

  lemma {:induction false} NothingYet(ids: seq<uint32>, nodes: map<uint32, Mark>)
    ensures ids[..0] == [] && IsDrainAll([], ids[..0], nodes) && Texts([], nodes) == []
  {
  }

  /** The flush loop: each dirty node gives its instructions and is cleared, the others stay. */
  method DrainAll(dirty: seq<Node>, ghost all: seq<Node>, ghost nodes: map<uint32, Mark>)
    returns (msgs: seq<Msg>, updates: seq<(uint32, Str)>)
    requires Distinct(dirty) && (forall n | n in dirty :: n in all)
    requires forall n | n in all :: n.id in nodes && nodes[n.id] == n.Value()
    modifies all
    ensures forall id | id in Ids(dirty) :: id in nodes
    ensures IsDrainAll(msgs, Ids(dirty), nodes) && updates == Texts(Ids(dirty), nodes)
    ensures forall n | n in all :: n.Value() == if n in dirty then Cleared(nodes[n.id]) else nodes[n.id]
  {
    hide IsDrain, Texts, IsDrainAll;
    ghost var ids := Ids(dirty);
    NothingYet(ids, nodes);
    msgs := [];
    updates := [];
    for i := 0 to |dirty|
      invariant forall id | id in ids :: id in nodes
      invariant IsDrainAll(msgs, ids[..i], nodes)
      invariant updates == Texts(ids[..i], nodes)
      invariant forall n | n in all :: n.Value() == if n in dirty[..i] then Cleared(nodes[n.id]) else nodes[n.id]
    {
      assert dirty[i] in all && dirty[i] !in dirty[..i] && ids[i] in ids;
      var more, text := dirty[i].Drain();
      DrainAllSnoc(msgs, ids[..i], nodes, more, ids[i]);
      TextsSnoc(ids[..i], nodes, ids[i]);
      assert ids[..i + 1] == ids[..i] + [ids[i]] && dirty[..i + 1] == dirty[..i] + [dirty[i]];
      msgs := msgs + more;
      updates := updates + text;
    }
    assert ids[..|dirty|] == ids && dirty[..|dirty|] == dirty;
  }

  lemma {:induction false} AllFlushed(all: seq<Node>, dirty: seq<Node>, nodes: map<uint32, Mark>)
    requires Distinct(Ids(all)) && nodes.Keys == ToSet(Ids(all))
    requires forall n | n in all :: n.id in nodes && (n in dirty <==> nodes[n.id].dirty)
    requires forall n | n in all :: n.Value() == if n in dirty then Cleared(nodes[n.id]) else nodes[n.id]
    ensures Values(all) == FlushedNodes(nodes)
  {
    ValueKeys(all);
    forall id | id in nodes ensures Values(all)[id] == FlushedNodes(nodes)[id] {
      assert id in ToSet(Ids(all));
      var k := IndexOf(Ids(all), id);
      ValueAt(all, k);
      assert all[k] in all;
    }
  }

  lemma {:induction false} DistinctNodes(ns: seq<Node>)
    requires Distinct(Ids(ns))
    ensures Distinct(ns)
  {
    forall i, j | 0 <= i < j < |ns| ensures ns[i] != ns[j] {
      assert Ids(ns)[i] != Ids(ns)[j];
    }
  }

  /**
   flushDirtyNodes: what is sent is a flush of exactly the nodes marked dirty, and
   afterwards no mark is left.
   */
  method Flush(root: Node, ghost all: seq<Node>) returns (msgs: seq<Msg>, ghost ids: seq<uint32>)
    requires Treelike(root) && all == Preorder(root) && Distinct(Ids(all))
    modifies all
    ensures DirtyRuns.DirtyOnes(ids, old(Values(all))) && IsFlush(msgs, ids, old(Values(all)))
    ensures Values(all) == FlushedNodes(old(Values(all)))
  {
    hide Treelike, Preorder, Texts, IsDrainAll, Marked, Values, DirtyRuns.DirtyOnes, FlushedNodes;
    var dirty := CollectDirty(root);
    MarkedAreDirty(all);
    MarkedMembers(all);
    MarkedDistinct(all);
    DistinctNodes(dirty);
    ValueKeys(all);
    ids := Ids(dirty);
    ghost var nodes := Values(all);
    forall n | n in all ensures n.id in nodes && nodes[n.id] == n.Value() {
      ValueOf(all, n);
    }
    var front, updates := DrainAll(dirty, all, nodes);
    AllFlushed(all, dirty, nodes);
    msgs := front;
    if |updates| >= 2 {
      msgs := msgs + [BatchText(updates)];
    } else if |updates| == 1 {
      msgs := msgs + [UpdateText(updates[0].0, updates[0].1)];
    }
    assert msgs[..|front|] == front && msgs[|front|..] == TextOps(updates);
  }
}
