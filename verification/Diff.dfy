/**
 Comparing two versions of a tree (pkg/dom/diff.go): what is written, and what it leaves unwritten.
 */
module Diffs {
  import opened Seqs
  import opened Ranges
  import opened Wire
  import opened Buffers
  import opened Dom
  import opened Trees
  import opened Emission
  import opened Dirty
  import opened Mount
  import Conditional

  /** Entries of `next` that differ from `old_`, where a missing key reads "". */
  function Changed(old_: map<Str, Str>, next: map<Str, Str>): map<Str, Str> {
    map k | k in next && Get(old_, k) != next[k] :: next[k]
  }

  /** Entries of `old_` whose key is gone. */
  function Gone(old_: map<Str, Str>, next: map<Str, Str>): map<Str, Str> {
    map k | k in old_ && k !in next :: old_[k]
  }

  function SetOps(id: uint32, entries: seq<(Str, Str)>): (r: seq<Msg>)
    ensures |r| == |entries|
  {
    if entries == [] then []
    else SetOps(id, entries[..|entries| - 1]) + [SetAttr(id, entries[|entries| - 1].0, entries[|entries| - 1].1)]
  }

  function RemoveOps(id: uint32, keys: seq<Str>): (r: seq<Msg>)
    ensures |r| == |keys|
  {
    if keys == [] then []
    else RemoveOps(id, keys[..|keys| - 1]) + [RemoveAttr(id, keys[|keys| - 1])]
  }

  ghost predicate IsSets(msgs: seq<Msg>, id: uint32, attrs: map<Str, Str>) {
    exists order :: IsOrder(order, attrs) && (forall k | k in order :: k in attrs)
      && msgs == SetOps(id, Entries(order, attrs))
  }

  ghost predicate IsRemoves(msgs: seq<Msg>, id: uint32, attrs: map<Str, Str>) {
    exists order :: IsOrder(order, attrs) && msgs == RemoveOps(id, order)
  }

  /** What is written for the node itself: changed attributes, dropped attributes, changed styles. */
  ghost predicate IsOwnDiff(msgs: seq<Msg>, old_: VNode, next: VNode)
    requires old_.VElem? && next.VElem?
  {
    exists i, j :: 0 <= i <= j <= |msgs|
      && IsSets(msgs[..i], old_.id, Changed(old_.attrs, next.attrs))
      && IsRemoves(msgs[i..j], old_.id, Gone(old_.attrs, next.attrs))
      && IsStyles(msgs[j..], old_.id, Changed(old_.styles, next.styles))
  }

  /** `msgs` is what Diff may write for two matched nodes of the same type. */
  ghost predicate IsDiff(msgs: seq<Msg>, old_: VNode, next: VNode)
    decreases old_
  {
    match (old_, next)
    case (VText(id, was), VText(_, text)) => msgs == if was != text then [UpdateText(id, text)] else []
    case (VElem(_, _, _, _, olds), VElem(id, _, _, _, nexts)) =>
      exists k :: 0 <= k <= |msgs| && IsOwnDiff(msgs[..k], old_, next) && IsDiffAll(msgs[k..], olds, nexts, id)
    case _ => false
  }

  /** Children are compared by position: what is left over is removed or inserted. */
  ghost predicate IsDiffAll(msgs: seq<Msg>, olds: seq<VNode>, nexts: seq<VNode>, parent: uint32)
    decreases olds, |nexts|
  {
    if olds == [] && nexts == [] then msgs == []
    else if olds == [] then
      exists k :: 0 <= k <= |msgs| && IsInsertTree(msgs[..k], nexts[0], parent)
        && IsDiffAll(msgs[k..], [], nexts[1..], parent)
    else if nexts == [] then
      msgs != [] && msgs[0] == RemoveNode(olds[0].id) && IsDiffAll(msgs[1..], olds[1..], [], parent)
    else
      exists k :: 0 <= k <= |msgs| && IsDiff(msgs[..k], olds[0], nexts[0])
                  && IsDiffAll(msgs[k..], olds[1..], nexts[1..], parent)
  }

  // --------------------------------------------------------- nothing to write

  lemma {:induction false} NothingChanged(m: map<Str, Str>)
    ensures Changed(m, m) == map[] && Gone(m, m) == map[]
  {
  }

  lemma {:induction false} EmptyOrder(order: seq<Str>, m: map<Str, Str>)
    requires m == map[] && IsOrder(order, m)
    ensures order == []
  {
    DistinctSize(order);
  }

  lemma {:induction false} NoneWritten(msgs: seq<Msg>, id: uint32, m: map<Str, Str>)
    requires m == map[] && (IsSets(msgs, id, m) || IsRemoves(msgs, id, m) || IsStyles(msgs, id, m))
    ensures msgs == []
  {
    forall order | IsOrder(order, m) ensures order == [] {
      EmptyOrder(order, m);
    }
  }

  /** A tree differs from itself by nothing. */
  lemma {:induction false} SameNothing(v: VNode, msgs: seq<Msg>)
    requires IsDiff(msgs, v, v)
    ensures msgs == []
    decreases v
  {
    if v.VElem? {
      var k :| 0 <= k <= |msgs| && IsOwnDiff(msgs[..k], v, v) && IsDiffAll(msgs[k..], v.children, v.children, v.id);
      OwnNothing(v, msgs[..k]);
      SameNothingAll(v.children, msgs[k..], v.id);
      assert msgs == msgs[..k] + msgs[k..];
    }
  }

  lemma {:induction false} OwnNothing(v: VNode, msgs: seq<Msg>)
    requires v.VElem? && IsOwnDiff(msgs, v, v)
    ensures msgs == []
  {
    NothingChanged(v.attrs);
    NothingChanged(v.styles);
    hide Changed, Gone, IsSets, IsRemoves, IsStyles;
    var i, j :| 0 <= i <= j <= |msgs| && IsSets(msgs[..i], v.id, map[]) && IsRemoves(msgs[i..j], v.id, map[])
                && IsStyles(msgs[j..], v.id, map[]);
    NoneWritten(msgs[..i], v.id, map[]);
    NoneWritten(msgs[i..j], v.id, map[]);
    NoneWritten(msgs[j..], v.id, map[]);
    assert msgs == msgs[..i] + msgs[i..j] + msgs[j..];
  }

  lemma {:induction false} SameNothingAll(vs: seq<VNode>, msgs: seq<Msg>, parent: uint32)
    requires IsDiffAll(msgs, vs, vs, parent)
    ensures msgs == []
    decreases vs
  {
    if vs != [] {
      var k :| 0 <= k <= |msgs| && IsDiff(msgs[..k], vs[0], vs[0]) && IsDiffAll(msgs[k..], vs[1..], vs[1..], parent);
      SameNothing(vs[0], msgs[..k]);
      SameNothingAll(vs[1..], msgs[k..], parent);
      assert msgs == msgs[..k] + msgs[k..];
    }
  }

  // ----------------------------------------------------------------- the method

  /** The keys among `keys` that `m` has, in order. */
  function Picked(keys: seq<Str>, m: map<Str, Str>): (r: seq<Str>)
    ensures forall k | k in r :: k in m && k in keys
  {
    if keys == [] then []
    else Picked(keys[..|keys| - 1], m) + if keys[|keys| - 1] in m then [keys[|keys| - 1]] else []
  }

  lemma {:induction false} PickedMembers(keys: seq<Str>, m: map<Str, Str>)
    requires Distinct(keys)
    ensures Distinct(Picked(keys, m)) && forall k | k in keys && k in m :: k in Picked(keys, m)
  {
    if keys != [] {
      var front, last := keys[..|keys| - 1], keys[|keys| - 1];
      assert keys == front + [last] && last !in front;
      PickedMembers(front, m);
    }
  }

  /** Going over all keys of a map and writing some of them is going over these in some order. */
  lemma {:induction false} PickedOrder(keys: seq<Str>, all: map<Str, Str>, m: map<Str, Str>)
    requires IsOrder(keys, all) && forall k | k in m :: k in all
    ensures IsOrder(Picked(keys, m), m)
  {
    OrderCovers(keys, all);
    PickedMembers(keys, m);
    assert forall k :: k in ToSet(Picked(keys, m)) <==> k in Picked(keys, m);
  }

  lemma {:induction false} PickedNext(keys: seq<Str>, i: nat, m: map<Str, Str>)
    requires i < |keys|
    ensures Picked(keys[..i + 1], m) == if keys[i] in m then Picked(keys[..i], m) + [keys[i]] else Picked(keys[..i], m)
  {
    assert keys[..i + 1][..i] == keys[..i];
  }

  lemma ChangedAt(old_: map<Str, Str>, next: map<Str, Str>, k: Str)
    requires k in next
    ensures k in Changed(old_, next) <==> (if k in old_ then old_[k] else []) != next[k]
    ensures k in Changed(old_, next) ==> Changed(old_, next)[k] == next[k]
    ensures forall x | x in Changed(old_, next) :: x in next
  {
  }

  lemma SetsSnoc(id: uint32, order: seq<Str>, m: map<Str, Str>, key: Str)
    requires (forall k | k in order :: k in m) && key in m
    ensures forall k | k in order + [key] :: k in m
    ensures SetOps(id, Entries(order + [key], m)) == SetOps(id, Entries(order, m)) + [SetAttr(id, key, m[key])]
  {
    var all := order + [key];
    EntriesLast(all, m);
    assert all[..|all| - 1] == order;
  }

  lemma StylesSnoc(id: uint32, order: seq<Str>, m: map<Str, Str>, key: Str)
    requires (forall k | k in order :: k in m) && key in m
    ensures forall k | k in order + [key] :: k in m
    ensures StyleOps(id, Entries(order + [key], m)) == StyleOps(id, Entries(order, m)) + [SetStyle(id, key, m[key])]
  {
    var all := order + [key];
    EntriesLast(all, m);
    assert all[..|all| - 1] == order;
  }

  method EmitSets(buf: Buffer, id: uint32, old_: map<Str, Str>, next: map<Str, Str>) returns (ghost msgs: seq<Msg>)
    modifies buf
    ensures buf.buf == old(buf.buf) + EncodeAll(msgs) && IsSets(msgs, id, Changed(old_, next))
  {
    hide Body, Frame, Changed, Picked, Entries, SetOps, EncodeAll, IsOrder, Distinct;
    var keys := Range(next);
    OrderCovers(keys, next);
    ghost var changed := Changed(old_, next);
    msgs := [];
    Starts(id, changed);
    for i := 0 to |keys|
      invariant msgs == SetOps(id, Entries(Picked(keys[..i], changed), changed))
      invariant buf.buf == old(buf.buf) + EncodeAll(msgs)
    {
      var key := keys[i];
      ChangedAt(old_, next, key);
      PickedNext(keys, i, changed);
      if (if key in old_ then old_[key] else []) != next[key] {
        buf.EncodeSetAttr(id, key, next[key]);
        ghost var m := SetAttr(id, key, next[key]);
        EncodeSnoc(old(buf.buf), msgs, m);
        SetsSnoc(id, Picked(keys[..i], changed), changed, key);
        msgs := msgs + [m];
      }
    }
    assert keys[..|keys|] == keys;
    ChangedWithin(old_, next);
    PickedOrder(keys, next, changed);
  }

  lemma ChangedWithin(old_: map<Str, Str>, next: map<Str, Str>)
    ensures forall x | x in Changed(old_, next) :: x in next
    ensures forall x | x in Gone(old_, next) :: x in old_
  {
  }

  lemma Starts(id: uint32, m: map<Str, Str>)
    ensures SetOps(id, Entries(Picked([], m), m)) == [] && StyleOps(id, Entries(Picked([], m), m)) == []
    ensures RemoveOps(id, Picked([], m)) == [] && EncodeAll([]) == []
  {
  }

  lemma GoneAt(old_: map<Str, Str>, next: map<Str, Str>, k: Str)
    requires k in old_
    ensures k in Gone(old_, next) <==> k !in next
  {
  }

  lemma RemovesSnoc(id: uint32, order: seq<Str>, key: Str)
    ensures RemoveOps(id, order + [key]) == RemoveOps(id, order) + [RemoveAttr(id, key)]
  {
    assert (order + [key])[..|order|] == order;
  }

  method EmitRemoves(buf: Buffer, id: uint32, old_: map<Str, Str>, next: map<Str, Str>) returns (ghost msgs: seq<Msg>)
    modifies buf
    ensures buf.buf == old(buf.buf) + EncodeAll(msgs) && IsRemoves(msgs, id, Gone(old_, next))
  {
    hide Body, Frame, Picked, EncodeAll, IsOrder, Distinct, RemoveOps, Gone;
    var keys := Range(old_);
    OrderCovers(keys, old_);
    ghost var gone := Gone(old_, next);
    msgs := [];
    Starts(id, gone);
    for i := 0 to |keys|
      invariant msgs == RemoveOps(id, Picked(keys[..i], gone))
      invariant buf.buf == old(buf.buf) + EncodeAll(msgs)
    {
      var key := keys[i];
      GoneAt(old_, next, key);
      PickedNext(keys, i, gone);
      if key !in next {
        buf.EncodeRemoveAttr(id, key);
        ghost var m := RemoveAttr(id, key);
        EncodeSnoc(old(buf.buf), msgs, m);
        RemovesSnoc(id, Picked(keys[..i], gone), key);
        msgs := msgs + [m];
      }
    }
    assert keys[..|keys|] == keys;
    ChangedWithin(old_, next);
    PickedOrder(keys, old_, gone);
  }

  method EmitStyleDiff(buf: Buffer, id: uint32, old_: map<Str, Str>, next: map<Str, Str>) returns (ghost msgs: seq<Msg>)
    modifies buf
    ensures buf.buf == old(buf.buf) + EncodeAll(msgs) && IsStyles(msgs, id, Changed(old_, next))
  {
    hide Body, Frame, Changed, Picked, Entries, StyleOps, EncodeAll, IsOrder, Distinct;
    var keys := Range(next);
    OrderCovers(keys, next);
    ghost var changed := Changed(old_, next);
    msgs := [];
    Starts(id, changed);
    for i := 0 to |keys|
      invariant msgs == StyleOps(id, Entries(Picked(keys[..i], changed), changed))
      invariant buf.buf == old(buf.buf) + EncodeAll(msgs)
    {
      var key := keys[i];
      ChangedAt(old_, next, key);
      PickedNext(keys, i, changed);
      if (if key in old_ then old_[key] else []) != next[key] {
        buf.EncodeSetStyle(id, key, next[key]);
        ghost var m := SetStyle(id, key, next[key]);
        EncodeSnoc(old(buf.buf), msgs, m);
        StylesSnoc(id, Picked(keys[..i], changed), changed, key);
        msgs := msgs + [m];
      }
    }
    assert keys[..|keys|] == keys;
    ChangedWithin(old_, next);
    PickedOrder(keys, next, changed);
  }

  /** Both nodes are of one type, all the way down where children are matched. */
  ghost predicate SameTypes(old_: VNode, next: VNode)
    decreases old_
  {
    match (old_, next)
    case (VText(_, _), VText(_, _)) => true
    case (VElem(_, _, _, _, olds), VElem(_, _, _, _, nexts)) => SameTypesAll(olds, nexts)
    case _ => false
  }

  ghost predicate SameTypesAll(olds: seq<VNode>, nexts: seq<VNode>)
    decreases olds
  {
    olds == [] || nexts == [] || (SameTypes(olds[0], nexts[0]) && SameTypesAll(olds[1..], nexts[1..]))
  }

  lemma {:induction false} TypesAt(olds: seq<VNode>, nexts: seq<VNode>, i: nat)
    requires SameTypesAll(olds, nexts) && i < |olds| && i < |nexts|
    ensures SameTypes(olds[i], nexts[i])
    decreases i
  {
    if i > 0 {
      TypesAt(olds[1..], nexts[1..], i - 1);
    }
  }

  function Rest<T>(s: seq<T>, i: nat): seq<T> {
    if i <= |s| then s[i..] else []
  }

  /** What is written for one position. */
  ghost predicate IsDiffAt(msgs: seq<Msg>, olds: seq<VNode>, nexts: seq<VNode>, i: nat, parent: uint32)
    requires i < |olds| || i < |nexts|
  {
    if i < |olds| && i < |nexts| then IsDiff(msgs, olds[i], nexts[i])
    else if i < |nexts| then IsInsertTree(msgs, nexts[i], parent)
    else msgs == [RemoveNode(olds[i].id)]
  }

  lemma {:induction false} DiffHead(b: seq<Msg>, tail: seq<Msg>, olds: seq<VNode>, nexts: seq<VNode>, i: nat,
                                    parent: uint32)
    requires (i < |olds| || i < |nexts|) && IsDiffAt(b, olds, nexts, i, parent)
    requires IsDiffAll(tail, Rest(olds, i + 1), Rest(nexts, i + 1), parent)
    ensures IsDiffAll(b + tail, Rest(olds, i), Rest(nexts, i), parent)
  {
    hide IsDiff, IsInsertTree;
    var o, n := Rest(olds, i), Rest(nexts, i);
    assert (b + tail)[..|b|] == b && (b + tail)[|b|..] == tail;
    assert i < |olds| ==> o[0] == olds[i] && o[1..] == Rest(olds, i + 1);
    assert i < |nexts| ==> n[0] == nexts[i] && n[1..] == Rest(nexts, i + 1);
    HeadCase(b, tail, b + tail, o, n, parent);
  }

  lemma {:induction false} HeadCase(b: seq<Msg>, tail: seq<Msg>, all: seq<Msg>, o: seq<VNode>, n: seq<VNode>,
                                    parent: uint32)
    requires (o != [] || n != []) && |b| <= |all| && all[..|b|] == b && all[|b|..] == tail
    requires if o != [] && n != [] then IsDiff(b, o[0], n[0])
             else if n != [] then IsInsertTree(b, n[0], parent) else b == [RemoveNode(o[0].id)]
    requires IsDiffAll(tail, if o == [] then o else o[1..], if n == [] then n else n[1..], parent)
    ensures IsDiffAll(all, o, n, parent)
  {
    hide IsDiff, IsInsertTree;
  }

  /** Whatever completes the positions from `i` on completes `msgs`. */
  ghost predicate Completes(msgs: seq<Msg>, olds: seq<VNode>, nexts: seq<VNode>, i: nat, parent: uint32) {
    forall tail | IsDiffAll(tail, Rest(olds, i), Rest(nexts, i), parent) :: IsDiffAll(msgs + tail, olds, nexts, parent)
  }

  lemma {:induction false} CompletesNext(msgs: seq<Msg>, b: seq<Msg>, olds: seq<VNode>, nexts: seq<VNode>, i: nat,
                                         parent: uint32)
    requires Completes(msgs, olds, nexts, i, parent)
    requires (i < |olds| || i < |nexts|) && IsDiffAt(b, olds, nexts, i, parent)
    ensures Completes(msgs + b, olds, nexts, i + 1, parent)
  {
    hide IsDiffAt, IsDiffAll, Rest;
    forall tail | IsDiffAll(tail, Rest(olds, i + 1), Rest(nexts, i + 1), parent)
      ensures IsDiffAll(msgs + b + tail, olds, nexts, parent)
    {
      DiffHead(b, tail, olds, nexts, i, parent);
      assert msgs + b + tail == msgs + (b + tail);
    }
  }

  lemma {:induction false} CompletesStart(olds: seq<VNode>, nexts: seq<VNode>, parent: uint32)
    ensures Completes([], olds, nexts, 0, parent)
  {
    hide IsDiffAll;
    forall tail | IsDiffAll(tail, Rest(olds, 0), Rest(nexts, 0), parent)
      ensures IsDiffAll([] + tail, olds, nexts, parent)
    {
      assert [] + tail == tail;
    }
  }

  lemma {:induction false} CompletesEnd(msgs: seq<Msg>, olds: seq<VNode>, nexts: seq<VNode>, i: nat, parent: uint32)
    requires Completes(msgs, olds, nexts, i, parent) && i >= |olds| && i >= |nexts|
    ensures IsDiffAll(msgs, olds, nexts, parent)
  {
    assert IsDiffAll([], [], [], parent);
    hide IsDiffAll;
    assert msgs + [] == msgs;
  }

  /** Diff on two matched nodes of the same type. */
  method Diff(buf: Buffer, old_: VNode, next: VNode) returns (ghost msgs: seq<Msg>)
    requires SameTypes(old_, next)
    modifies buf
    ensures buf.buf == old(buf.buf) + EncodeAll(msgs) && IsDiff(msgs, old_, next)
    decreases old_, 1
  {
    hide Body, Frame, EncodeAll, IsDiffAll, IsOwnDiff;
    ghost var start := buf.buf;
    if old_.VText? {
      msgs := [];
      if old_.text != next.text {
        buf.EncodeUpdateText(old_.id, next.text);
        msgs := [UpdateText(old_.id, next.text)];
        EncodeFirst(start, msgs[0]);
      } else {
        EncodeEmpty();
      }
    } else {
      ghost var own := DiffOwn(buf, old_, next);
      ghost var below := DiffChildren(buf, old_, next);
      msgs := own + below;
      EncodeMore(start, own, below);
      OwnThenBelow(msgs, own, below, old_, next);
    }
  }

  lemma EncodeEmpty()
    ensures EncodeAll([]) == []
  {
  }

  lemma {:induction false} OwnThenBelow(msgs: seq<Msg>, own: seq<Msg>, below: seq<Msg>, old_: VNode, next: VNode)
    requires old_.VElem? && next.VElem? && IsOwnDiff(own, old_, next)
    requires IsDiffAll(below, old_.children, next.children, next.id) && msgs == own + below
    ensures IsDiff(msgs, old_, next)
  {
    hide IsOwnDiff, IsDiffAll;
    assert msgs[..|own|] == own && msgs[|own|..] == below;
  }

  method DiffOwn(buf: Buffer, old_: VNode, next: VNode) returns (ghost msgs: seq<Msg>)
    requires old_.VElem? && next.VElem?
    modifies buf
    ensures buf.buf == old(buf.buf) + EncodeAll(msgs) && IsOwnDiff(msgs, old_, next)
  {
    hide EncodeAll, IsSets, IsRemoves, IsStyles, IsOwnDiff, Changed, Gone;
    ghost var start := buf.buf;
    ghost var sets := EmitSets(buf, old_.id, old_.attrs, next.attrs);
    ghost var removes := EmitRemoves(buf, old_.id, old_.attrs, next.attrs);
    EncodeMore(start, sets, removes);
    ghost var styles := EmitStyleDiff(buf, old_.id, old_.styles, next.styles);
    EncodeMore(start, sets + removes, styles);
    msgs := sets + removes + styles;
    OwnParts(msgs, sets, removes, styles, old_, next);
  }

  lemma {:induction false} OwnParts(msgs: seq<Msg>, sets: seq<Msg>, removes: seq<Msg>, styles: seq<Msg>, old_: VNode,
                                    next: VNode)
    requires old_.VElem? && next.VElem? && msgs == sets + removes + styles
    requires IsSets(sets, old_.id, Changed(old_.attrs, next.attrs))
    requires IsRemoves(removes, old_.id, Gone(old_.attrs, next.attrs))
    requires IsStyles(styles, old_.id, Changed(old_.styles, next.styles))
    ensures IsOwnDiff(msgs, old_, next)
  {
    hide IsSets, IsRemoves, IsStyles, Changed, Gone;
    var i, j := |sets|, |sets| + |removes|;
    assert msgs[..i] == sets && msgs[i..j] == removes && msgs[j..] == styles;
  }

  method DiffChildren(buf: Buffer, old_: VNode, next: VNode) returns (ghost msgs: seq<Msg>)
    requires old_.VElem? && next.VElem? && SameTypesAll(old_.children, next.children)
    modifies buf
    ensures buf.buf == old(buf.buf) + EncodeAll(msgs) && IsDiffAll(msgs, old_.children, next.children, next.id)
    decreases old_, 0
  {
    hide Body, Frame, EncodeAll, IsDiff, IsDiffAll, IsInsertTree, Completes, SameTypes;
    ghost var start := buf.buf;
    var olds, nexts := old_.children, next.children;
    var maxLen := |olds|;
    if |nexts| > maxLen {
      maxLen := |nexts|;
    }
    msgs := [];
    EncodeEmpty();
    CompletesStart(olds, nexts, next.id);
    for i := 0 to maxLen
      invariant buf.buf == start + EncodeAll(msgs) && Completes(msgs, olds, nexts, i, next.id)
    {
      ghost var more;
      if i < |olds| && i < |nexts| {
        TypesAt(olds, nexts, i);
        more := Diff(buf, olds[i], nexts[i]);
      } else if i < |nexts| {
        more := Conditional.EmitInsertTree(buf, nexts[i], next.id);
      } else {
        ghost var before := buf.buf;
        buf.EncodeRemoveNode(olds[i].id);
        more := [RemoveNode(olds[i].id)];
        EncodeFirst(before, more[0]);
      }
      EncodeMore(start, msgs, more);
      CompletesNext(msgs, more, olds, nexts, i, next.id);
      msgs := msgs + more;
    }
    CompletesEnd(msgs, olds, nexts, maxLen, next.id);
  }
}
