/**
 The router container's queue and what draining it writes: for every navigation
 the page swap and a history entry, in the order of the navigations.
 */
module RouteQueue {
  import opened Seqs
  import opened Wire
  import opened Dom
  import opened Client
  import opened Trees
  import opened Emission
  import opened FlipStreams
  import opened Conditional
  import ForUpdate

  /** A queued closure. */
  datatype Entry = Swap(q: Queued) | Push(path: Str)

  /** What the navigations to `paths`, which lead from `cur` through the pages `bs`, queue. */
  function Trail(cur: Option<VNode>, bs: seq<Option<VNode>>, paths: seq<Str>): seq<Entry>
    requires |paths| == |bs|
    decreases bs
  {
    if bs == [] then []
    else [Swap(Gone(cur))] + (if bs[0].Some? then [Swap(Come(bs[0].value))] else []) + [Push(paths[0])]
         + Trail(bs[0], bs[1..], paths[1..])
  }

  lemma {:induction false} TrailSnoc(cur: Option<VNode>, bs: seq<Option<VNode>>, paths: seq<Str>, b: Option<VNode>,
                                     path: Str)
    requires |paths| == |bs|
    ensures Trail(cur, bs + [b], paths + [path])
            == Trail(cur, bs, paths) + [Swap(Gone(Current(cur, bs)))]
               + (if b.Some? then [Swap(Come(b.value))] else []) + [Push(path)]
    decreases bs
  {
    if bs == [] {
      assert [b][1..] == [] && [path][1..] == [];
    } else {
      assert (bs + [b])[1..] == bs[1..] + [b] && (bs + [b])[0] == bs[0];
      assert (paths + [path])[1..] == paths[1..] + [path] && (paths + [path])[0] == paths[0];
      TrailSnoc(bs[0], bs[1..], paths[1..], b, path);
      var one := [Swap(Gone(cur))] + (if bs[0].Some? then [Swap(Come(bs[0].value))] else []) + [Push(paths[0])];
      var last := if b.Some? then [Swap(Come(b.value))] else [];
      var rest := Trail(bs[0], bs[1..], paths[1..]);
      assert Trail(cur, bs, paths) == one + rest;
      assert Trail(cur, bs + [b], paths + [path]) == one + Trail(bs[0], bs[1..] + [b], paths[1..] + [path]);
      assert Current(cur, bs) == Current(bs[0], bs[1..]);
      hide Trail;
      Regroup(one, rest, [Swap(Gone(Current(cur, bs)))]);
      Regroup(one, rest + [Swap(Gone(Current(cur, bs)))], last);
      Regroup(one, rest + [Swap(Gone(Current(cur, bs)))] + last, [Push(path)]);
    }
  }

  /** What one closure writes when the container's child is `now`. */
  ghost predicate EntryDrained(msgs: seq<Msg>, e: Entry, container: uint32, now: Option<VNode>) {
    match e
    case Swap(q) => DrainedOne(msgs, q, container, now)
    case Push(path) => msgs == [PushHistory(path)]
  }

  ghost predicate TrailDrained(msgs: seq<Msg>, queue: seq<Entry>, container: uint32, now: Option<VNode>)
    decreases queue
  {
    if queue == [] then msgs == []
    else exists k :: 0 <= k <= |msgs| && EntryDrained(msgs[..k], queue[0], container, now)
                     && TrailDrained(msgs[k..], queue[1..], container, now)
  }

  lemma {:induction false} TrailDrainedSnoc(msgs: seq<Msg>, queue: seq<Entry>, container: uint32, now: Option<VNode>,
                                            more: seq<Msg>, e: Entry)
    requires TrailDrained(msgs, queue, container, now) && EntryDrained(more, e, container, now)
    ensures TrailDrained(msgs + more, queue + [e], container, now)
    decreases queue
  {
    hide EntryDrained;
    var all := msgs + more;
    if queue == [] {
      assert [e][1..] == [] && all[..|more|] == more && all[|more|..] == [];
    } else {
      var k :| 0 <= k <= |msgs| && EntryDrained(msgs[..k], queue[0], container, now)
               && TrailDrained(msgs[k..], queue[1..], container, now);
      TrailDrainedSnoc(msgs[k..], queue[1..], container, now, more, e);
      assert all[..k] == msgs[..k] && all[k..] == msgs[k..] + more;
      assert (queue + [e])[1..] == queue[1..] + [e] && (queue + [e])[0] == queue[0];
    }
  }

  /** One closure, then the rest. */
  lemma {:induction false} TrailSplit(msgs: seq<Msg>, queue: seq<Entry>, container: uint32, now: Option<VNode>)
    returns (front: seq<Msg>, rest: seq<Msg>)
    requires queue != [] && TrailDrained(msgs, queue, container, now)
    ensures msgs == front + rest && EntryDrained(front, queue[0], container, now)
    ensures TrailDrained(rest, queue[1..], container, now)
  {
    hide EntryDrained;
    var k :| 0 <= k <= |msgs| && EntryDrained(msgs[..k], queue[0], container, now)
             && TrailDrained(msgs[k..], queue[1..], container, now);
    front, rest := msgs[..k], msgs[k..];
  }

  // ------------------------------------------------------ the stream of a queue

  /** The flips of FlipStream, with a history entry after each. */
  ghost predicate RouteStream(msgs: seq<Msg>, container: uint32, cur: Option<VNode>, bs: seq<Option<VNode>>,
                              paths: seq<Str>)
    requires |paths| == |bs|
    decreases bs
  {
    if bs == [] then msgs == []
    else exists show, rest :: msgs == Drop(cur) + show + [PushHistory(paths[0])] + rest
                              && IsShow(show, bs[0], ParentAtFlush(container, bs))
                              && RouteStream(rest, container, bs[0], bs[1..], paths[1..])
  }

  /** Every navigation's history entry comes behind its page: with the last one the stream ends. */
  lemma {:induction false} EntryLast(msgs: seq<Msg>, container: uint32, cur: Option<VNode>, bs: seq<Option<VNode>>,
                                     paths: seq<Str>)
    requires |paths| == |bs| && bs != [] && RouteStream(msgs, container, cur, bs, paths)
    ensures msgs != [] && msgs[|msgs| - 1] == PushHistory(paths[|paths| - 1])
    decreases bs
  {
    hide IsShow;
    var show, rest :| msgs == Drop(cur) + show + [PushHistory(paths[0])] + rest
      && IsShow(show, bs[0], ParentAtFlush(container, bs)) && RouteStream(rest, container, bs[0], bs[1..], paths[1..]);
    if |bs| > 1 {
      EntryLast(rest, container, bs[0], bs[1..], paths[1..]);
    }
  }

  /** A drained trail is such a stream. */
  lemma {:induction false} TrailIsStream(msgs: seq<Msg>, cur: Option<VNode>, bs: seq<Option<VNode>>, paths: seq<Str>,
                                         container: uint32, now: Option<VNode>)
    requires |paths| == |bs| && TrailDrained(msgs, Trail(cur, bs, paths), container, now)
             && (bs != [] ==> now == Last(bs))
    ensures RouteStream(msgs, container, cur, bs, paths)
    decreases bs
  {
    if bs != [] {
      var show, rest := OneRoute(msgs, cur, bs, paths, container, now);
      hide TrailDrained, Trail, IsShow;
      TrailIsStream(rest, bs[0], bs[1..], paths[1..], container, now);
    }
  }

  lemma TrailParts(cur: Option<VNode>, bs: seq<Option<VNode>>, paths: seq<Str>)
    requires bs != [] && |paths| == |bs|
    ensures var q, tail := Trail(cur, bs, paths), Trail(bs[0], bs[1..], paths[1..]);
            && q != [] && q[0] == Swap(Gone(cur))
            && q[1..] == (if bs[0].Some? then [Swap(Come(bs[0].value))] else []) + ([Push(paths[0])] + tail)
  {
    var g, come := [Swap(Gone(cur))], if bs[0].Some? then [Swap(Come(bs[0].value))] else [];
    var p, tail := [Push(paths[0])], Trail(bs[0], bs[1..], paths[1..]);
    assert Trail(cur, bs, paths) == ((g + come) + p) + tail;
    hide Trail;
    Regroup(g, come, p);
    Regroup(g, come + p, tail);
    Regroup(come, p, tail);
    FirstOff(g[0], come + (p + tail));
  }

  lemma FirstOff(e: Entry, es: seq<Entry>)
    ensures ([e] + es)[0] == e && ([e] + es)[1..] == es
  {
  }

  /** The first navigation of several. */
  lemma {:induction false} OneRoute(msgs: seq<Msg>, cur: Option<VNode>, bs: seq<Option<VNode>>, paths: seq<Str>,
                                    container: uint32, now: Option<VNode>)
    returns (show: seq<Msg>, rest: seq<Msg>)
    requires bs != [] && |paths| == |bs| && now == Last(bs) && TrailDrained(msgs, Trail(cur, bs, paths), container, now)
    ensures msgs == Drop(cur) + show + [PushHistory(paths[0])] + rest
    ensures IsShow(show, bs[0], ParentAtFlush(container, bs))
    ensures TrailDrained(rest, Trail(bs[0], bs[1..], paths[1..]), container, now)
  {
    var q, tail := Trail(cur, bs, paths), Trail(bs[0], bs[1..], paths[1..]);
    var come := if bs[0].Some? then [Swap(Come(bs[0].value))] else [];
    var push := [Push(paths[0])];
    TrailParts(cur, bs, paths);
    hide TrailDrained, Trail, IsShow;
    var drop, m1 := TrailSplit(msgs, q, container, now);
    assert drop == Drop(cur);
    var m2;
    show, m2 := ShowDrained(m1, bs, push + tail, container, now);
    FirstOff(push[0], tail);
    var entry;
    entry, rest := TrailSplit(m2, push + tail, container, now);
    assert entry == [PushHistory(paths[0])];
    hide EntryDrained;
    Regroup(drop, show, m2);
    Regroup(drop + show, entry, rest);
  }

  lemma {:induction false} ShowDrained(msgs: seq<Msg>, bs: seq<Option<VNode>>, tail: seq<Entry>, container: uint32,
                                       now: Option<VNode>)
    returns (show: seq<Msg>, rest: seq<Msg>)
    requires bs != [] && now == Last(bs)
    requires TrailDrained(msgs, (if bs[0].Some? then [Swap(Come(bs[0].value))] else []) + tail, container, now)
    ensures msgs == show + rest && IsShow(show, bs[0], ParentAtFlush(container, bs))
    ensures TrailDrained(rest, tail, container, now)
  {
    hide TrailDrained;
    if bs[0].Some? {
      var q := [Swap(Come(bs[0].value))] + tail;
      show, rest := TrailSplit(msgs, q, container, now);
      assert q[1..] == tail;
    } else {
      assert [] + tail == tail;
      show, rest := [], msgs;
    }
  }

  // ---------------------------------------------------- without the history entries

  function TreeOnly(msgs: seq<Msg>): seq<Msg> {
    if msgs == [] then [] else (if msgs[0].PushHistory? then [] else [msgs[0]]) + TreeOnly(msgs[1..])
  }

  function Histories(msgs: seq<Msg>): seq<Str> {
    if msgs == [] then [] else (if msgs[0].PushHistory? then [msgs[0].text] else []) + Histories(msgs[1..])
  }

  lemma {:induction false} TreeOnlySplit(a: seq<Msg>, b: seq<Msg>)
    ensures TreeOnly(a + b) == TreeOnly(a) + TreeOnly(b) && Histories(a + b) == Histories(a) + Histories(b)
    decreases a
  {
    if a == [] {
      assert a + b == b;
    } else {
      var m := a[0];
      TreeOnlySplit(a[1..], b);
      assert a + b == [m] + (a[1..] + b);
      TreeOnlyFirst(m, a[1..] + b);
      TreeOnlyFirst(m, a[1..]);
      assert a == [m] + a[1..];
      hide TreeOnly, Histories;
      Regroup(if m.PushHistory? then [] else [m], TreeOnly(a[1..]), TreeOnly(b));
      Regroup(if m.PushHistory? then [m.text] else [], Histories(a[1..]), Histories(b));
    }
  }

  lemma TreeOnlyFirst(m: Msg, rest: seq<Msg>)
    ensures TreeOnly([m] + rest) == (if m.PushHistory? then [] else [m]) + TreeOnly(rest)
    ensures Histories([m] + rest) == (if m.PushHistory? then [m.text] else []) + Histories(rest)
  {
    assert ([m] + rest)[1..] == rest;
  }

  lemma {:induction false} TreeOnlyAll(msgs: seq<Msg>)
    requires forall m | m in msgs :: !m.PushHistory?
    ensures TreeOnly(msgs) == msgs && Histories(msgs) == []
    decreases msgs
  {
    if msgs != [] {
      assert msgs[0] in msgs;
      TreeOnlyAll(msgs[1..]);
    }
  }

  lemma {:induction false} InsertsOnly(msgs: seq<Msg>, v: VNode, parent: uint32)
    requires IsInsertTree(msgs, v, parent)
    ensures forall m | m in msgs :: m.InsertNode? || m.InsertText?
    decreases v
  {
    if v.VElem? {
      InsertsOnlyAll(msgs[1..], v.children, v.id);
      assert msgs == [msgs[0]] + msgs[1..];
    }
  }

  lemma {:induction false} InsertsOnlyAll(msgs: seq<Msg>, vs: seq<VNode>, parent: uint32)
    requires IsInsertForest(msgs, vs, parent)
    ensures forall m | m in msgs :: m.InsertNode? || m.InsertText?
    decreases vs
  {
    if vs != [] {
      var front, rest := InsertSplit(msgs, vs, parent);
      InsertsOnly(front, vs[0], parent);
      InsertsOnlyAll(rest, vs[1..], parent);
    }
  }

  lemma {:induction false} RouteParts(msgs: seq<Msg>, container: uint32, cur: Option<VNode>, bs: seq<Option<VNode>>,
                                      paths: seq<Str>)
    returns (show: seq<Msg>, rest: seq<Msg>)
    requires |paths| == |bs| > 0 && RouteStream(msgs, container, cur, bs, paths)
    ensures msgs == Drop(cur) + show + [PushHistory(paths[0])] + rest
    ensures IsShow(show, bs[0], ParentAtFlush(container, bs))
            && RouteStream(rest, container, bs[0], bs[1..], paths[1..])
  {
    hide IsShow, Drop;
    show, rest :| msgs == Drop(cur) + show + [PushHistory(paths[0])] + rest
                  && IsShow(show, bs[0], ParentAtFlush(container, bs))
                  && RouteStream(rest, container, bs[0], bs[1..], paths[1..]);
  }

  /** Without the history entries it is the stream of the flips; the entries are the paths, in order. */
  lemma {:induction false} RouteIsFlips(msgs: seq<Msg>, container: uint32, cur: Option<VNode>, bs: seq<Option<VNode>>,
                                        paths: seq<Str>)
    requires |paths| == |bs| && RouteStream(msgs, container, cur, bs, paths)
    ensures FlipStream(TreeOnly(msgs), container, cur, bs) && Histories(msgs) == paths
    decreases bs
  {
    if bs != [] {
      var show, rest := RouteParts(msgs, container, cur, bs, paths);
      hide RouteStream, IsShow, FlipStream, TreeOnly, Histories;
      RouteIsFlips(rest, container, bs[0], bs[1..], paths[1..]);
      ShowOnly(show, bs[0], ParentAtFlush(container, bs));
      PartsOnly(msgs, cur, show, paths[0], rest);
      FlipsJoin(TreeOnly(rest), show, container, cur, bs);
      assert paths == [paths[0]] + paths[1..];
    } else {
      assert TreeOnly([]) == [] && Histories([]) == [];
    }
  }

  lemma {:induction false} ShowOnly(show: seq<Msg>, b: Option<VNode>, parent: uint32)
    requires IsShow(show, b, parent)
    ensures TreeOnly(show) == show && Histories(show) == []
  {
    hide IsInsertTree;
    if b.Some? {
      InsertsOnly(show, b.value, parent);
    }
    TreeOnlyAll(show);
  }

  lemma {:induction false} PartsOnly(msgs: seq<Msg>, cur: Option<VNode>, show: seq<Msg>, path: Str, rest: seq<Msg>)
    requires msgs == Drop(cur) + show + [PushHistory(path)] + rest && TreeOnly(show) == show && Histories(show) == []
    ensures TreeOnly(msgs) == Drop(cur) + (show + TreeOnly(rest)) && Histories(msgs) == [path] + Histories(rest)
  {
    var d, p := Drop(cur), [PushHistory(path)];
    TreeOnlyAll(d);
    OneHistory(path);
    hide Drop, TreeOnly, Histories;
    TreeOnlySplit(d + show + p, rest);
    TreeOnlySplit(d + show, p);
    TreeOnlySplit(d, show);
    assert (d + show) + [] == d + show && [] + [] + [path] == [path];
    Regroup(d, show, TreeOnly(rest));
  }

  lemma OneHistory(path: Str)
    ensures TreeOnly([PushHistory(path)]) == [] && Histories([PushHistory(path)]) == [path]
  {
    assert [PushHistory(path)][1..] == [];
  }

  lemma {:induction false} FlipsJoin(rest: seq<Msg>, show: seq<Msg>, container: uint32, cur: Option<VNode>,
                                     bs: seq<Option<VNode>>)
    requires bs != [] && IsShow(show, bs[0], ParentAtFlush(container, bs))
             && FlipStream(rest, container, bs[0], bs[1..])
    ensures FlipStream(Drop(cur) + (show + rest), container, cur, bs)
  {
    var msgs := show + rest;
    assert msgs[..|show|] == show && msgs[|show|..] == rest;
    assert FlipsFrom(msgs, container, bs) by { hide IsShow, FlipStream; }
    var all := Drop(cur) + msgs;
    assert Drop(cur) <= all && all[|Drop(cur)|..] == msgs;
    hide FlipsFrom, IsShow, Drop;
  }

  /** History entries do not touch the tree. */
  lemma {:induction false} HistoryIgnored(c: Client, msgs: seq<Msg>)
    ensures ApplyAll(c, msgs) == ApplyAll(c, TreeOnly(msgs)) && Process(c, msgs) == Process(c, TreeOnly(msgs))
  {
    AppliedOnly(c, msgs);
    AppliedOnly(Begin(c), msgs);
    hide ApplyAll, SettleAll, TreeOnly;
    ForUpdate.ProcessIs(c, msgs);
    ForUpdate.ProcessIs(c, TreeOnly(msgs));
  }

  lemma {:induction false} AppliedOnly(c: Client, msgs: seq<Msg>)
    ensures ApplyAll(c, msgs) == ApplyAll(c, TreeOnly(msgs))
    decreases msgs
  {
    if msgs != [] {
      var m, rest := msgs[0], msgs[1..];
      AppliedOnly(Apply(c, m), rest);
      assert msgs == [m] + rest;
      TreeOnlyFirst(m, rest);
      if m.PushHistory? {
        assert Apply(c, m) == c && [] + TreeOnly(rest) == TreeOnly(rest);
      } else {
        assert ([m] + TreeOnly(rest))[1..] == TreeOnly(rest);
        hide Apply, TreeOnly;
        ApplyCons(c, [m] + TreeOnly(rest));
      }
    }
  }
}
