/**
 Change tracking over whole runs of changes and flushes.
 */
module DirtyRuns {
  import opened Seqs
  import opened Wire
  import opened Dom
  import opened Client
  import opened Dirty

  // ------------------------------------------------------------- one flush

  /** Every tracked node is registered, coherent, and followed by the client up to what it has noted. */
  ghost predicate Tracks(c: Client, nodes: map<uint32, Mark>) {
    && Valid(c) && c.depth == 0
    && forall id | id in nodes :: id in c.nodes && Coherent(nodes[id]) && Follows(ElemOf(c, id), nodes[id])
  }

  function ElemOf(c: Client, id: uint32): Elem {
    if id in c.nodes then At(c.heap, c.nodes[id]) else BLANK
  }

  /** Only labels have changed. */
  ghost predicate LabelsOnly(c: Client, c': Client) {
    && c' == c.(heap := c'.heap) && c'.heap.Keys == c.heap.Keys
    && forall r | r in c.heap :: SameShape(c.heap[r], c'.heap[r])
  }

  lemma {:induction false} LabelsOnlyThen(c: Client, c1: Client, c2: Client)
    requires LabelsOnly(c, c1) && LabelsOnly(c1, c2)
    ensures LabelsOnly(c, c2)
  {
  }

  lemma {:induction false} RelabelledOnly(c: Client, id: uint32, e: Elem)
    requires id in c.nodes && c.nodes[id] in c.heap && SameShape(c.heap[c.nodes[id]], e)
    ensures LabelsOnly(c, Relabelled(c, id, e))
  {
  }

  /** The registry tells nodes apart. */
  ghost predicate Registry(c: Client) {
    && (forall id | id in c.nodes :: c.nodes[id] in c.heap)
    && (forall i, j | i in c.nodes && j in c.nodes && c.nodes[i] == c.nodes[j] :: i == j)
  }

  lemma ValidRegistry(c: Client)
    requires Valid(c)
    ensures Registry(c)
  {
  }

  lemma RegistryKept(c: Client, c': Client)
    requires Registry(c) && LabelsOnly(c, c')
    ensures Registry(c')
  {
  }

  lemma {:induction false} OthersKept(c: Client, id: uint32, e: Elem, other: uint32)
    requires Registry(c) && id in c.nodes && other in c.nodes && other != id
    ensures ElemOf(Relabelled(c, id, e), other) == ElemOf(c, other)
    ensures ElemOf(Relabelled(c, id, e), id) == e
  {
  }

  /** What draining does to the browser's node `e`. */
  ghost predicate Drained(e: Elem, e': Elem, n: Mark) {
    && e' == e.(attrs := e'.attrs, styles := e'.styles)
    && Overlaid(e'.attrs, e.attrs, n.dirtyAttrs) && Overlaid(e'.styles, e.styles, n.dirtyStyles)
  }

  /** Draining several nodes: each listed one gets what it noted, the others nothing. */
  lemma {:induction false} DrainAllApplied(c: Client, ids: seq<uint32>, nodes: map<uint32, Mark>, msgs: seq<Msg>,
                                           id: uint32)
    requires Registry(c) && Distinct(ids) && IsDrainAll(msgs, ids, nodes)
    requires (forall i | i in ids :: i in c.nodes && i in nodes) && id in c.nodes
    ensures LabelsOnly(c, ApplyAll(c, msgs))
    ensures var e, e' := ElemOf(c, id), ElemOf(ApplyAll(c, msgs), id);
            if id in ids then Drained(e, e', nodes[id]) else e' == e
    decreases ids
  {
    hide IsDrain, Apply, Overlaid, Registry;
    if ids != [] {
      var i := ids[0];
      var front, rest := DrainSplit(msgs, ids, nodes);
      ApplyAllSplit(c, front, rest);
      hide ApplyAll, IsDrainAll, LabelsOnly;
      assert i in c.nodes && c.nodes[i] in c.heap by { RegistryHas(c, i); }
      var e := DrainApplied(c, i, nodes[i], front);
      var c1 := Relabelled(c, i, e);
      RelabelledOnly(c, i, e);
      RegistryKept(c, c1);
      assert forall j | j in ids[1..] :: j in ids && j != i;
      DrainAllApplied(c1, ids[1..], nodes, rest, id);
      LabelsOnlyThen(c, c1, ApplyAll(c, msgs));
      assert id in ids <==> id == i || id in ids[1..];
      if id != i {
        OthersKept(c, i, e, id);
      }
    }
  }

  lemma RegistryHas(c: Client, id: uint32)
    requires Registry(c) && id in c.nodes
    ensures c.nodes[id] in c.heap
  {
  }

  lemma {:induction false} DrainSplit(msgs: seq<Msg>, ids: seq<uint32>, nodes: map<uint32, Mark>)
    returns (front: seq<Msg>, rest: seq<Msg>)
    requires IsDrainAll(msgs, ids, nodes) && ids != [] && ids[0] in nodes
    ensures msgs == front + rest && IsDrain(front, ids[0], nodes[ids[0]]) && IsDrainAll(rest, ids[1..], nodes)
  {
    hide IsDrain;
    var k :| 0 <= k <= |msgs| && IsDrain(msgs[..k], ids[0], nodes[ids[0]]) && IsDrainAll(msgs[k..], ids[1..], nodes);
    front, rest := msgs[..k], msgs[k..];
  }

  /** A text update on a text node. */
  lemma {:induction false} TextApplied(c: Client, id: uint32, text: Str)
    requires id in c.nodes && c.nodes[id] in c.heap && IsText(c.heap[c.nodes[id]])
    ensures SetText(c, id, text) == Relabelled(c, id, c.heap[c.nodes[id]].(text := text))
  {
  }

  /** A list of text updates, each node at most once. */
  lemma {:induction false} TextsApplied(c: Client, ids: seq<uint32>, nodes: map<uint32, Mark>, id: uint32)
    requires Registry(c) && Distinct(ids) && id in c.nodes
    requires forall i | i in ids :: i in c.nodes && i in nodes && (nodes[i].dirtyText ==> IsText(ElemOf(c, i)))
    ensures var c' := SetTexts(c, Texts(ids, nodes));
            && LabelsOnly(c, c')
            && ElemOf(c', id)
               == if id in ids && nodes[id].dirtyText then ElemOf(c, id).(text := nodes[id].text) else ElemOf(c, id)
    decreases ids
  {
    hide Registry, LabelsOnly;
    if ids != [] {
      var i := ids[0];
      assert forall j | j in ids[1..] :: j in ids && j != i;
      TextsStep(c, ids, nodes);
      var c1 := if nodes[i].dirtyText then SetText(c, i, nodes[i].text) else c;
      forall j | j in c.nodes
        ensures ElemOf(c1, j)
                == if j == i && nodes[i].dirtyText then ElemOf(c, i).(text := nodes[i].text) else ElemOf(c, j)
      {
        TextStep(c, i, nodes[i], j);
      }
      TextStep(c, i, nodes[i], id);
      hide SetTexts, Texts, SetText, ElemOf;
      TextsApplied(c1, ids[1..], nodes, id);
      LabelsOnlyThen(c, c1, SetTexts(c1, Texts(ids[1..], nodes)));
    } else {
      LabelsOnlyNone(c);
    }
  }

  lemma LabelsOnlyNone(c: Client)
    ensures LabelsOnly(c, c)
  {
  }

  /** One pending text update, or none. */
  lemma {:induction false} TextStep(c: Client, i: uint32, n: Mark, id: uint32)
    requires Registry(c) && i in c.nodes && id in c.nodes && (n.dirtyText ==> IsText(ElemOf(c, i)))
    ensures var c1 := if n.dirtyText then SetText(c, i, n.text) else c;
            && LabelsOnly(c, c1) && Registry(c1) && c1.nodes == c.nodes
            && ElemOf(c1, id) == if id == i && n.dirtyText then ElemOf(c, i).(text := n.text) else ElemOf(c, id)
  {
    if n.dirtyText {
      TextApplied(c, i, n.text);
      var e := ElemOf(c, i).(text := n.text);
      RelabelledOnly(c, i, e);
      RegistryKept(c, Relabelled(c, i, e));
      hide SetText;
      if id != i {
        OthersKept(c, i, e, id);
      }
    }
  }

  lemma {:induction false} TextsStep(c: Client, ids: seq<uint32>, nodes: map<uint32, Mark>)
    requires ids != [] && forall i | i in ids :: i in nodes
    ensures var n := nodes[ids[0]];
            SetTexts(c, Texts(ids, nodes))
            == SetTexts(if n.dirtyText then SetText(c, ids[0], n.text) else c, Texts(ids[1..], nodes))
  {
    hide SetText;
    var n, rest := nodes[ids[0]], Texts(ids[1..], nodes);
    if n.dirtyText {
      SetTextsCons(c, (ids[0], n.text), rest);
    } else {
      assert Texts(ids, nodes) == rest;
    }
  }

  lemma SetTextsCons(c: Client, u: (uint32, Str), rest: seq<(uint32, Str)>)
    ensures SetTexts(c, [u] + rest) == SetTexts(SetText(c, u.0, u.1), rest)
  {
    assert ([u] + rest)[1..] == rest;
  }

  /** One instruction or several: the same updates. */
  lemma {:induction false} TextOpsApplied(c: Client, updates: seq<(uint32, Str)>)
    ensures ApplyAll(c, TextOps(updates)) == SetTexts(c, updates)
  {
    hide SetText;
    if |updates| == 1 {
      assert updates == [updates[0]] + [];
      SetTextsCons(c, updates[0], []);
    }
    ApplyAllFew(c, TextOps(updates));
  }

  lemma {:induction false} ApplyAllFew(c: Client, msgs: seq<Msg>)
    requires |msgs| <= 1
    ensures ApplyAll(c, msgs) == if msgs == [] then c else Apply(c, msgs[0])
  {
    hide Apply;
    if msgs != [] {
      ApplyCons(c, msgs);
    }
  }

  /** What a flush leaves of one node of the browser. */
  lemma {:induction false} FlushOne(c: Client, ids: seq<uint32>, nodes: map<uint32, Mark>, msgs: seq<Msg>, id: uint32)
    requires Registry(c) && Distinct(ids) && IsFlush(msgs, ids, nodes) && id in c.nodes
    requires forall i | i in ids :: i in c.nodes && i in nodes && (nodes[i].dirtyText ==> IsText(ElemOf(c, i)))
    ensures LabelsOnly(c, ApplyAll(c, msgs))
    ensures var e, e' := ElemOf(c, id), ElemOf(ApplyAll(c, msgs), id);
            if id in ids then
              Drained(e.(text := e'.text), e', nodes[id])
              && e'.text == if nodes[id].dirtyText then nodes[id].text else e.text
            else e' == e
  {
    hide IsDrainAll, ApplyAll, TextOps, Texts, LabelsOnly, Overlaid, Registry, Distinct, SetTexts;
    var k :| 0 <= k <= |msgs| && IsDrainAll(msgs[..k], ids, nodes) && msgs[k..] == TextOps(Texts(ids, nodes));
    assert msgs == msgs[..k] + msgs[k..];
    hide IsFlush;
    ApplyAllSplit(c, msgs[..k], msgs[k..]);
    var c1 := ApplyAll(c, msgs[..k]);
    DrainAllApplied(c, ids, nodes, msgs[..k], id);
    DrainedReady(c, c1, ids, nodes, msgs[..k]);
    TextOpsApplied(c1, Texts(ids, nodes));
    TextsApplied(c1, ids, nodes, id);
    LabelsOnlyThen(c, c1, ApplyAll(c, msgs));
  }

  /** After the drain the texts may follow. */
  lemma {:induction false} DrainedReady(c: Client, c1: Client, ids: seq<uint32>, nodes: map<uint32, Mark>,
                                        msgs: seq<Msg>)
    requires Registry(c) && Distinct(ids) && IsDrainAll(msgs, ids, nodes) && c1 == ApplyAll(c, msgs)
    requires LabelsOnly(c, c1)
    requires forall i | i in ids :: i in c.nodes && i in nodes && (nodes[i].dirtyText ==> IsText(ElemOf(c, i)))
    ensures Registry(c1) && c1.nodes == c.nodes
    ensures forall i | i in ids :: nodes[i].dirtyText ==> IsText(ElemOf(c1, i))
  {
    hide IsDrainAll, ApplyAll, Overlaid, Registry, Distinct, ElemOf, LabelsOnly;
    RegistryKept(c, c1);
    LabelsNodes(c, c1);
    forall i | i in ids ensures nodes[i].dirtyText ==> IsText(ElemOf(c1, i)) {
      DrainAllApplied(c, ids, nodes, msgs, i);
    }
  }

  lemma LabelsNodes(c: Client, c': Client)
    requires LabelsOnly(c, c')
    ensures c'.nodes == c.nodes && c'.depth == c.depth && c'.deferred == c.deferred
  {
  }

  ghost predicate DirtyOnes(ids: seq<uint32>, nodes: map<uint32, Mark>) {
    Distinct(ids) && forall id :: id in ids <==> id in nodes && nodes[id].dirty
  }

  /** Drained and updated, the browser's node agrees. */
  lemma {:induction false} DrainedAgrees(e: Elem, e': Elem, n: Mark)
    requires Coherent(n) && Follows(e, n) && Drained(e.(text := e'.text), e', n)
    requires e'.text == if n.dirtyText then n.text else e.text
    ensures Agrees(e', n)
  {
    forall k | !n.isText ensures Get(e'.attrs, k) == Get(n.attrs, k) && Get(e'.styles, k) == Get(n.styles, k) {
    }
  }

  lemma {:induction false} AgreesFollows(e: Elem, n: Mark)
    requires Agrees(e, n)
    ensures Coherent(Cleared(n)) && Follows(e, Cleared(n))
  {
  }

  /**
   A flush brings the whole page into agreement, whatever the order in which
   entries come out of the maps, and changes labels only.
   */
  lemma {:induction false} FlushAgrees(c: Client, ids: seq<uint32>, nodes: map<uint32, Mark>, msgs: seq<Msg>)
    requires Tracks(c, nodes) && DirtyOnes(ids, nodes) && IsFlush(msgs, ids, nodes)
    ensures var c' := Process(c, msgs);
            && (forall id | id in nodes :: id in c'.nodes && Agrees(ElemOf(c', id), nodes[id]))
            && (forall id | id in c.nodes && id !in nodes :: ElemOf(c', id) == ElemOf(c, id))
            && Tracks(c', FlushedNodes(nodes))
            && c'.nodes == c.nodes && c'.heap.Keys == c.heap.Keys
            && (forall r | r in c.heap :: SameShape(c.heap[r], c'.heap[r]))
  {
    var c' := Process(c, msgs);
    assert Valid(c) && c.depth == 0;
    ValidRegistry(c);
    FlushProcess(c, ids, nodes, msgs);
    hide IsFlush, Process, Valid, Registry, Coherent, Follows, Agrees, Distinct, SameShape;
    forall id | id in nodes
      ensures id in c'.nodes && Agrees(ElemOf(c', id), nodes[id])
      ensures Coherent(FlushedNodes(nodes)[id]) && Follows(ElemOf(c', id), FlushedNodes(nodes)[id])
    {
      FlushNode(c, ids, nodes, msgs, id);
    }
    forall id | id in c.nodes && id !in nodes ensures ElemOf(c', id) == ElemOf(c, id) {
      FlushOther(c, ids, nodes, msgs, id);
    }
  }

  lemma {:induction false} FlushReady(c: Client, ids: seq<uint32>, nodes: map<uint32, Mark>)
    requires Tracks(c, nodes) && DirtyOnes(ids, nodes)
    ensures var b := Begin(c);
            Registry(b) && Distinct(ids) && b.nodes == c.nodes && b.heap == c.heap && b.deferred == [] && b.depth == 1
            && forall i | i in ids :: i in b.nodes && i in nodes && (nodes[i].dirtyText ==> IsText(ElemOf(b, i)))
  {
    ValidRegistry(c);
    hide Valid, Distinct;
  }

  lemma {:induction false} FlushEnd(c: Client, msgs: seq<Msg>)
    requires c.depth == 0 && LabelsOnly(Begin(c), ApplyAll(Begin(c), msgs))
    ensures var c', c1 := Process(c, msgs), ApplyAll(Begin(c), msgs);
            c'.heap == c1.heap && c'.nodes == c.nodes && c'.depth == 0 && c'.next == c.next
            && c'.heap.Keys == c.heap.Keys && forall r | r in c.heap :: SameShape(c.heap[r], c'.heap[r])
  {
    hide ApplyAll;
  }

  lemma {:induction false} FlushProcess(c: Client, ids: seq<uint32>, nodes: map<uint32, Mark>, msgs: seq<Msg>)
    requires Tracks(c, nodes) && DirtyOnes(ids, nodes) && IsFlush(msgs, ids, nodes)
    ensures var c' := Process(c, msgs);
            Valid(c') && c'.depth == 0 && c'.nodes == c.nodes && c'.heap.Keys == c.heap.Keys
            && forall r | r in c.heap :: SameShape(c.heap[r], c'.heap[r])
  {
    FlushReady(c, ids, nodes);
    assert Valid(c) && c.depth == 0;
    assert |ids| > 0 ==> ids[0] in ids;
    if c.nodes != map[] {
      var id :| id in c.nodes;
      FlushOne(Begin(c), ids, nodes, msgs, id);
    } else {
      NothingFlushed(Begin(c), nodes, msgs);
    }
    hide IsFlush, Tracks, DirtyOnes, ApplyAll, Process, Valid;
    FlushEnd(c, msgs);
    ShapeValid(c, Process(c, msgs));
  }

  lemma {:induction false} NothingFlushed(c: Client, nodes: map<uint32, Mark>, msgs: seq<Msg>)
    requires IsFlush(msgs, [], nodes)
    ensures LabelsOnly(c, ApplyAll(c, msgs))
  {
    assert msgs == [];
  }

  lemma {:induction false} ShapeValid(c: Client, c': Client)
    requires Valid(c) && c'.nodes == c.nodes && c'.next == c.next && c'.heap.Keys == c.heap.Keys
    requires forall r | r in c.heap :: SameShape(c.heap[r], c'.heap[r])
    ensures Valid(c')
  {
    forall p | p in c'.heap ensures NodeOk(c'.heap, p) {
      assert NodeOk(c.heap, p);
    }
  }

  lemma {:induction false} FlushNode(c: Client, ids: seq<uint32>, nodes: map<uint32, Mark>, msgs: seq<Msg>, id: uint32)
    requires Tracks(c, nodes) && DirtyOnes(ids, nodes) && IsFlush(msgs, ids, nodes) && id in nodes
    ensures var c' := Process(c, msgs);
            && id in c'.nodes && Agrees(ElemOf(c', id), nodes[id])
            && Coherent(FlushedNodes(nodes)[id]) && Follows(ElemOf(c', id), FlushedNodes(nodes)[id])
  {
    FlushReady(c, ids, nodes);
    assert Coherent(nodes[id]) && Follows(ElemOf(c, id), nodes[id]) && id in c.nodes && c.depth == 0;
    assert id in ids <==> nodes[id].dirty;
    hide Valid, Registry, Process, ApplyAll, Distinct, Coherent, Follows, Agrees, Drained;
    FlushOne(Begin(c), ids, nodes, msgs, id);
    hide IsFlush, Tracks, DirtyOnes, LabelsOnly;
    FlushEnd(c, msgs);
    var e, e' := ElemOf(c, id), ElemOf(Process(c, msgs), id);
    if id in ids {
      DrainedAgrees(e, e', nodes[id]);
      AgreesFollows(e', nodes[id]);
    } else {
      UnmarkedAgrees(e, nodes[id]);
    }
  }

  lemma {:induction false} FlushOther(c: Client, ids: seq<uint32>, nodes: map<uint32, Mark>, msgs: seq<Msg>, id: uint32)
    requires Tracks(c, nodes) && DirtyOnes(ids, nodes) && IsFlush(msgs, ids, nodes) && id in c.nodes && id !in nodes
    ensures ElemOf(Process(c, msgs), id) == ElemOf(c, id)
  {
    FlushReady(c, ids, nodes);
    assert c.depth == 0 && id !in ids;
    hide Valid, Registry, Process, ApplyAll, Distinct, Tracks;
    FlushOne(Begin(c), ids, nodes, msgs, id);
    FlushEnd(c, msgs);
  }

  // ------------------------------------------------------------------- runs

  /** Something that happens to a mounted page. */
  datatype Event =
    | TextSet(id: uint32, text: Str)
    | AttrSet(id: uint32, key: Str, value: Str)
    | StyleSet(id: uint32, key: Str, value: Str)
    | Flushed(ids: seq<uint32>, msgs: seq<Msg>)

  datatype World = World(nodes: map<uint32, Mark>, client: Client)

  /** Texts are bound to text nodes, attributes and styles to elements; a flush sends what it may. */
  ghost predicate Possible(w: World, e: Event) {
    match e
    case TextSet(id, _) => id in w.nodes && w.nodes[id].isText
    case AttrSet(id, _, _) => id in w.nodes && !w.nodes[id].isText
    case StyleSet(id, _, _) => id in w.nodes && !w.nodes[id].isText
    case Flushed(ids, msgs) => DirtyOnes(ids, w.nodes) && IsFlush(msgs, ids, w.nodes)
  }

  ghost function Next(w: World, e: Event): World
    requires Possible(w, e)
  {
    match e
    case TextSet(id, text) => w.(nodes := w.nodes[id := TextChanged(w.nodes[id], text)])
    case AttrSet(id, key, value) => w.(nodes := w.nodes[id := AttrChanged(w.nodes[id], key, value)])
    case StyleSet(id, key, value) => w.(nodes := w.nodes[id := StyleChanged(w.nodes[id], key, value)])
    case Flushed(_, msgs) => World(FlushedNodes(w.nodes), Process(w.client, msgs))
  }

  ghost predicate PossibleAll(w: World, events: seq<Event>)
    decreases events
  {
    events == [] || (Possible(w, events[0]) && PossibleAll(Next(w, events[0]), events[1..]))
  }

  ghost function Run(w: World, events: seq<Event>): World
    requires PossibleAll(w, events)
    decreases events
  {
    if events == [] then w else Run(Next(w, events[0]), events[1..])
  }

  lemma {:induction false} NextTracks(w: World, e: Event)
    requires Tracks(w.client, w.nodes) && Possible(w, e)
    ensures var w' := Next(w, e); Tracks(w'.client, w'.nodes) && w'.nodes.Keys == w.nodes.Keys
  {
    hide Valid, Coherent, Follows, Process, IsFlush, DirtyOnes;
    match e
    case TextSet(id, text) => ObserversKeep(ElemOf(w.client, id), w.nodes[id], [], text);
    case AttrSet(id, key, value) => ObserversKeep(ElemOf(w.client, id), w.nodes[id], key, value);
    case StyleSet(id, key, value) => ObserversKeep(ElemOf(w.client, id), w.nodes[id], key, value);
    case Flushed(ids, msgs) => FlushAgrees(w.client, ids, w.nodes, msgs);
  }

  /** After any run of changes and flushes, every node not marked dirty agrees with the client. */
  lemma {:induction false} RunTracks(w: World, events: seq<Event>)
    requires Tracks(w.client, w.nodes) && PossibleAll(w, events)
    ensures var w' := Run(w, events);
            && Tracks(w'.client, w'.nodes) && w'.nodes.Keys == w.nodes.Keys
            && (forall id | id in w'.nodes && !w'.nodes[id].dirty ::
                  id in w'.client.nodes && Agrees(ElemOf(w'.client, id), w'.nodes[id]))
    decreases events
  {
    hide Next, Possible, Valid, Coherent, Follows, Agrees;
    if events == [] {
      forall id | id in w.nodes && !w.nodes[id].dirty ensures Agrees(ElemOf(w.client, id), w.nodes[id]) {
        UnmarkedAgrees(ElemOf(w.client, id), w.nodes[id]);
      }
    } else {
      NextTracks(w, events[0]);
      RunTracks(Next(w, events[0]), events[1..]);
    }
  }

  /** And after a run that ends in a flush, the whole page agrees. */
  lemma {:induction false} RunThenFlush(w: World, events: seq<Event>, ids: seq<uint32>, msgs: seq<Msg>)
    requires Tracks(w.client, w.nodes) && PossibleAll(w, events)
    requires Possible(Run(w, events), Flushed(ids, msgs))
    ensures var w' := Next(Run(w, events), Flushed(ids, msgs));
            forall id | id in w'.nodes :: !w'.nodes[id].dirty && id in w'.client.nodes
                                          && Agrees(ElemOf(w'.client, id), w'.nodes[id])
  {
    RunTracks(w, events);
    FlushedAgrees(Run(w, events), ids, msgs);
  }

  lemma {:induction false} FlushedAgrees(w: World, ids: seq<uint32>, msgs: seq<Msg>)
    requires Tracks(w.client, w.nodes) && Possible(w, Flushed(ids, msgs))
    ensures var w' := Next(w, Flushed(ids, msgs));
            forall id | id in w'.nodes :: !w'.nodes[id].dirty && id in w'.client.nodes
                                          && Agrees(ElemOf(w'.client, id), w'.nodes[id])
  {
    hide Process, IsFlush, DirtyOnes, Tracks;
    FlushAgrees(w.client, ids, w.nodes, msgs);
  }
}
