/**
 What the queue of a container that replaces its one child writes: the If
 observer of pkg/dom/reactive.go, and the router's page swap.
 */
module FlipStreams {
  import opened Seqs
  import opened Wire
  import opened Dom
  import opened Trees
  import opened Emission

  /** A branch, or nothing. */
  function Listed(b: Option<VNode>): seq<VNode> {
    if b.Some? then [b.value] else []
  }

  /** What is written for a branch when the queue is drained. */
  ghost predicate IsShow(msgs: seq<Msg>, b: Option<VNode>, parent: uint32) {
    if b.Some? then IsInsertTree(msgs, b.value, parent) else msgs == []
  }

  function Drop(b: Option<VNode>): seq<Msg> {
    if b.Some? then [RemoveNode(b.value.id)] else []
  }

  function Last(bs: seq<Option<VNode>>): Option<VNode>
    requires bs != []
  {
    bs[|bs| - 1]
  }

  /** The parent of the first of these branches once the last one is current. */
  function ParentAtFlush(container: uint32, bs: seq<Option<VNode>>): uint32
    requires bs != []
  {
    if bs[0] == Last(bs) then container else 0
  }

  /**
   What one flush writes after the container has gone from `cur` through `bs`:
   every branch is inserted and, if another one followed, removed again. A queued
   insertion asks for the node's parent when it is written: only the node that is
   the container's child by then has one, all others are inserted below 0.
   */
  ghost predicate FlipStream(msgs: seq<Msg>, container: uint32, cur: Option<VNode>, bs: seq<Option<VNode>>)
    decreases bs, 1
  {
    if bs == [] then msgs == []
    else Drop(cur) <= msgs && FlipsFrom(msgs[|Drop(cur)|..], container, bs)
  }

  /** A stream behind the removal that opens it. */
  ghost predicate FlipsFrom(msgs: seq<Msg>, container: uint32, bs: seq<Option<VNode>>)
    requires bs != []
    decreases bs, 0
  {
    exists j :: 0 <= j <= |msgs| && IsShow(msgs[..j], bs[0], ParentAtFlush(container, bs))
                && FlipStream(msgs[j..], container, bs[0], bs[1..])
  }

  /** The removal that opens a stream, and the rest. */
  lemma {:induction false} StreamSplit(msgs: seq<Msg>, container: uint32, cur: Option<VNode>, bs: seq<Option<VNode>>)
    returns (rest: seq<Msg>)
    requires bs != [] && FlipStream(msgs, container, cur, bs)
    ensures msgs == Drop(cur) + rest && FlipsFrom(rest, container, bs)
  {
    hide FlipsFrom, Drop;
    rest := msgs[|Drop(cur)|..];
  }

  /** The first branch, and the stream behind it. */
  lemma {:induction false} ShowSplit(msgs: seq<Msg>, container: uint32, bs: seq<Option<VNode>>)
    returns (front: seq<Msg>, rest: seq<Msg>)
    requires bs != [] && FlipsFrom(msgs, container, bs)
    ensures msgs == front + rest && IsShow(front, bs[0], ParentAtFlush(container, bs))
    ensures FlipStream(rest, container, bs[0], bs[1..])
  {
    hide IsShow, FlipStream;
    var j :| 0 <= j <= |msgs| && IsShow(msgs[..j], bs[0], ParentAtFlush(container, bs))
             && FlipStream(msgs[j..], container, bs[0], bs[1..]);
    front, rest := msgs[..j], msgs[j..];
  }
}
