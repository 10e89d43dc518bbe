module Effects {
  // Single instructions on the client's page (applyFrame in pkg/wasm/patch.go), said of
  // child lists, links and the registry.

  import opened Seqs
  import opened Wire
  import opened Dom
  import opened Client

  /** Apart from the nodes `rs`, the page is as it was. */
  ghost predicate OnlyAt(h: Heap, h': Heap, rs: set<Ref>) {
    forall r | r in h && r !in rs :: r in h' && h'[r] == h[r]
  }

  // ------------------------------------------------------------------------ text

  /** `r` has `text` as its only child, or no child without a text; what it had before hangs nowhere. */
  ghost predicate HasText(c: Client, c': Client, r: Ref, text: Str) {
    && c' == c.(heap := c'.heap, next := c'.next) && r in c.heap
    && r in c'.heap && c'.heap[r] == c.heap[r].(children := Kids(c'.heap, r))
    && (text == [] ==> Kids(c'.heap, r) == [])
    && (text != [] ==>
          && Kids(c'.heap, r) == [c.next] && c.next in c'.heap && c.next !in c.heap
          && c'.heap[c.next] == Elem([0x23, 0x74, 0x65, 0x78, 0x74], text, map[], map[], [], Some(r), None))
    && (forall x | x in Kids(c.heap, r) :: x in c.heap && x in c'.heap && c'.heap[x] == c.heap[x].(parent := None))
    && OnlyAt(c.heap, c'.heap, {r} + ToSet(Kids(c.heap, r)))
  }

  /** Text sent to an element becomes its only child, a new text node; with no text it has no children. */
  lemma {:induction false} ElementText(c: Client, id: uint32, text: Str)
    requires Valid(c) && id in c.nodes && At(c.heap, c.nodes[id]).tag != [0x23, 0x74, 0x65, 0x78, 0x74]
    requires ParentOf(c.heap, c.nodes[id]) != Some(c.nodes[id])
    ensures HasText(c, Apply(c, UpdateText(id, text)), c.nodes[id], text)
  {
    var r := c.nodes[id];
    var h := DetachAll(c.heap, r);
    assert !IsText(At(c.heap, r));
    NextUnseen(c);
    NodesInHeap(c);
    hide *;
    TextIs(c, id, text);
    Emptied(c, r);
    if text != [] {
      TextAdded(h, r, c.next, text);
      Filled(c, c.(heap := h), r, text, Append(h[c.next := NewText(text)], r, c.next));
    }
  }

  lemma {:induction false} Emptied(c: Client, r: Ref)
    requires Valid(c) && r in c.heap && ParentOf(c.heap, r) != Some(r)
    ensures r in DetachAll(c.heap, r) && Kids(DetachAll(c.heap, r), r) == [] && c.next !in DetachAll(c.heap, r)
    ensures HasText(c, c.(heap := DetachAll(c.heap, r)), r, [])
  {
    NotOwnChild(c, r);
    KidsThere(c, r);
    NextUnseen(c);
    ChildrenDetached(c, r);
    hide DetachAll, Valid;
  }

  lemma KidsThere(c: Client, r: Ref)
    requires Valid(c) && r in c.heap
    ensures forall x | x in Kids(c.heap, r) :: x in c.heap
  {
    assert NodeOk(c.heap, r);
  }

  lemma Filled(c: Client, c1: Client, r: Ref, text: Str, h: Heap)
    requires HasText(c, c1, r, []) && text != [] && c.next !in c.heap && r in c1.heap && c1.next == c.next
    requires c.next !in Kids(c.heap, r) && c.next != r
    requires h == c1.heap[r := c1.heap[r].(children := [c.next])]
                         [c.next := Elem([0x23, 0x74, 0x65, 0x78, 0x74], text, map[], map[], [], Some(r), None)]
    ensures HasText(c, c.(heap := h, next := c.next + 1), r, text)
  {
  }

  lemma TextAdded(h: Heap, r: Ref, n: Ref, text: Str)
    requires r in h && n !in h && Kids(h, r) == []
    ensures Append(h[n := NewText(text)], r, n)
            == h[r := h[r].(children := [n])]
                [n := Elem([0x23, 0x74, 0x65, 0x78, 0x74], text, map[], map[], [], Some(r), None)]
  {
    AppendLoose(h[n := NewText(text)], r, n);
    assert h[r].children + [n] == [n];
    hide Append;
  }

  lemma TextIs(c: Client, id: uint32, text: Str)
    requires id in c.nodes && !IsText(At(c.heap, c.nodes[id]))
    ensures var r, h := c.nodes[id], DetachAll(c.heap, c.nodes[id]);
            Apply(c, UpdateText(id, text))
            == if text == [] then c.(heap := h)
               else c.(heap := Append(h[c.next := NewText(text)], r, c.next), next := c.next + 1)
  {
    hide DetachAll, Append;
  }

  lemma NotOwnChild(c: Client, r: Ref)
    requires Valid(c) && r in c.heap && ParentOf(c.heap, r) != Some(r)
    ensures r !in Kids(c.heap, r)
  {
    assert NodeOk(c.heap, r);
  }

  /** Text sent to a text node replaces its characters. */
  lemma NodeText(c: Client, id: uint32, text: Str)
    requires Valid(c) && id in c.nodes && At(c.heap, c.nodes[id]).tag == [0x23, 0x74, 0x65, 0x78, 0x74]
    ensures var c' := Apply(c, UpdateText(id, text));
            && c' == c.(heap := c'.heap) && c.nodes[id] in c'.heap
            && c'.heap[c.nodes[id]] == c.heap[c.nodes[id]].(text := text)
            && OnlyAt(c.heap, c'.heap, {c.nodes[id]})
  {
    hide Forest, DetachAll, Append;
  }

  // ------------------------------------------------------------------- cleaning up

  /** `path` leads from `r` down child lists. */
  ghost predicate Leads(h: Heap, r: Ref, path: seq<Ref>) {
    && |path| >= 2 && path[0] == r
    && forall i | 0 < i < |path| :: path[i] in Kids(h, path[i - 1]) && path[i] in h
  }

  /** Some way down from `r` ends at another node that carries `id`. */
  ghost predicate Carried(h: Heap, r: Ref, id: uint32) {
    exists path :: Leads(h, r, path) && path[|path| - 1] != r && At(h, path[|path| - 1]).bwId == Some(id)
  }

  lemma {:induction false} LedInto(h: Heap, r: Ref, path: seq<Ref>, cl: set<Ref>)
    requires Leads(h, r, path) && r in cl && forall q, x | q in cl && x in Kids(h, q) && x in h :: x in cl
    ensures path[|path| - 1] in cl
  {
    for i := 1 to |path|
      invariant path[i - 1] in cl
    {
    }
  }

  /** Some way leads to `x`. */
  ghost predicate Led(h: Heap, r: Ref, x: Ref) {
    x == r || exists path :: Leads(h, r, path) && path[|path| - 1] == x
  }

  lemma {:induction false} ReachedIsLed(h: Heap, r: Ref)
    ensures forall x | x in Closure(h, {r}) :: Led(h, r, x)
  {
    var cl := Closure(h, {r});
    var t := set x | x in cl && Led(h, r, x);
    forall q, x | q in t && x in Kids(h, q) && x in h ensures x in t {
      if q == r {
        assert Leads(h, r, [r, x]);
      } else {
        var path :| Leads(h, r, path) && path[|path| - 1] == q;
        assert Leads(h, r, path + [x]);
      }
    }
    ClosureLeast(h, {r}, t);
  }

  /** What a cleanup below `r` forgets: the ids carried by nodes further down. */
  lemma {:induction false} BelowIff(h: Heap, r: Ref, id: uint32)
    ensures id in IdsBelow(h, r) <==> Carried(h, r, id)
  {
    var cl := Closure(h, {r});
    if id in IdsBelow(h, r) {
      var x :| x in cl - {r} && At(h, x).bwId.Some? && At(h, x).bwId.value == id;
      ReachedIsLed(h, r);
      var path :| Leads(h, r, path) && path[|path| - 1] == x;
    }
    if Carried(h, r, id) {
      var path :| Leads(h, r, path) && path[|path| - 1] != r && At(h, path[|path| - 1]).bwId == Some(id);
      LedInto(h, r, path, cl);
      assert path[|path| - 1] in cl - {r};
    }
  }

  /** A removal detaches the node and forgets its id and the ids carried further down; an unknown id changes nothing. */
  lemma {:induction false} Removal(c: Client, id: uint32)
    requires Valid(c)
    ensures id !in c.nodes ==> Apply(c, RemoveNode(id)) == c
    ensures id in c.nodes ==>
              var c', r := Apply(c, RemoveNode(id)), c.nodes[id];
              && c' == c.(heap := c'.heap, nodes := c'.nodes)
              && (forall k :: k in c'.nodes <==> k in c.nodes && k != id && !Carried(c.heap, r, k))
              && (forall k | k in c'.nodes :: c'.nodes[k] == c.nodes[k])
              && ParentOf(c'.heap, r) == None && (forall q :: r !in Kids(c'.heap, q))
              && OnlyAt(c.heap, c'.heap, {r} + if ParentOf(c.heap, r).Some? then {ParentOf(c.heap, r).value} else {})
  {
    if id in c.nodes {
      CarriedBelow(c.heap, c.nodes[id]);
      hide IdsBelow, Carried;
      DetachedNowhere(c, c.nodes[id]);
      hide Detach, Valid;
    }
  }

  lemma {:induction false} DetachedNowhere(c: Client, r: Ref)
    requires Valid(c) && r in c.heap
    ensures var h' := Detach(c.heap, r);
            && ParentOf(h', r) == None && (forall q :: r !in Kids(h', q))
            && OnlyAt(c.heap, h', {r} + if ParentOf(c.heap, r).Some? then {ParentOf(c.heap, r).value} else {})
  {
    var h' := Detach(c.heap, r);
    assert NodeOk(c.heap, r);
    forall q ensures r !in Kids(h', q) {
      if q in c.heap {
        assert NodeOk(c.heap, q);
      }
    }
  }

  /**
   Clearing leaves the node registered for the parent, or the root where there is
   none, without children, forgets the ids carried further down and nothing else.
   */
  lemma {:induction false} Clearing(c: Client, parent: uint32)
    requires Valid(c)
    ensures var c' := Apply(c, ClearChildren(parent));
            var p := if parent in c.nodes then c.nodes[parent] else 0;
            && c' == c.(heap := c'.heap, nodes := c'.nodes)
            && (forall k :: k in c'.nodes <==> k in c.nodes && !Carried(c.heap, p, k))
            && (forall k | k in c'.nodes :: c'.nodes[k] == c.nodes[k])
            && Kids(c'.heap, p) == []
            && (forall x | x in Kids(c.heap, p) :: ParentOf(c'.heap, x) == None)
            && OnlyAt(c.heap, c'.heap, {p} + ToSet(Kids(c.heap, p)))
  {
    var p := if parent in c.nodes then c.nodes[parent] else ROOT;
    NodesInHeap(c);
    hide *;
    ClearIs(c, parent);
    CarriedBelow(c.heap, p);
    ChildrenDetached(c, p);
  }

  lemma ClearIs(c: Client, parent: uint32)
    ensures var p := if parent in c.nodes then c.nodes[parent] else ROOT;
            Apply(c, ClearChildren(parent)) == c.(heap := DetachAll(c.heap, p), nodes := c.nodes - IdsBelow(c.heap, p))
  {
    hide DetachAll, IdsBelow;
  }

  lemma {:induction false} CarriedBelow(h: Heap, r: Ref)
    ensures forall k :: k in IdsBelow(h, r) <==> Carried(h, r, k)
  {
    forall k ensures k in IdsBelow(h, r) <==> Carried(h, r, k) {
      BelowIff(h, r, k);
    }
  }

  lemma {:induction false} ChildrenDetached(c: Client, p: Ref)
    requires Valid(c) && p in c.heap
    ensures var h' := DetachAll(c.heap, p);
            && Kids(h', p) == [] && OnlyAt(c.heap, h', {p} + ToSet(Kids(c.heap, p)))
            && (forall x | x in Kids(c.heap, p) :: x in h' && ParentOf(h', x) == None)
            && (p !in Kids(c.heap, p) ==> h'[p] == c.heap[p].(children := []))
            && (forall x | x in Kids(c.heap, p) && x != p :: h'[x] == c.heap[x].(parent := None))
            && h'.Keys == c.heap.Keys
  {
    assert NodeOk(c.heap, p);
  }

  // ---------------------------------------------------------------- inserting, moving

  /** The node a new one goes below: the registered one, or the root for 0. */
  function Below(c: Client, parent: uint32): Option<Ref> {
    if parent in c.nodes then Some(c.nodes[parent]) else if parent == 0 then Some(0) else None
  }

  /** A fresh element: its tag and attributes, no styles, and its id but for text nodes. */
  ghost predicate Fresh(e: Elem, id: uint32, tag: Str, attrs: map<Str, Str>, parent: Option<Ref>) {
    e == Elem(tag, [], attrs, map[], [], parent, if tag == [0x23, 0x74, 0x65, 0x78, 0x74] then None else Some(id))
  }

  function Joined(a: seq<Ref>, m: seq<Ref>, b: seq<Ref>): seq<Ref> {
    a + m + b
  }

  /** `xs` with `r` in front of the first `sib`. */
  ghost predicate PutIn(xs': seq<Ref>, xs: seq<Ref>, r: Ref, sib: Ref) {
    exists a, b :: xs == Joined(a, [sib], b) && sib !in a && xs' == Joined(a, [r, sib], b)
  }

  lemma {:induction false} PutBeforeIs(xs: seq<Ref>, r: Ref, sib: Ref)
    requires sib in xs
    ensures PutIn(PutBefore(xs, r, sib), xs, r, sib)
    decreases xs
  {
    if xs[0] == sib {
      assert xs == Joined([], [sib], xs[1..]) && PutBefore(xs, r, sib) == Joined([], [r, sib], xs[1..]);
    } else {
      PutBeforeIs(xs[1..], r, sib);
      var a, b :| xs[1..] == Joined(a, [sib], b) && sib !in a && PutBefore(xs[1..], r, sib) == Joined(a, [r, sib], b);
      JoinedCons(xs[0], a, [sib], b);
      JoinedCons(xs[0], a, [r, sib], b);
      assert xs == [xs[0]] + xs[1..];
      hide Joined;
      assert PutBefore(xs, r, sib) == Joined([xs[0]] + a, [r, sib], b);
    }
  }

  lemma JoinedCons(x: Ref, a: seq<Ref>, m: seq<Ref>, b: seq<Ref>)
    ensures [x] + Joined(a, m, b) == Joined([x] + a, m, b)
  {
    assert [x] + (a + m + b) == [x] + a + m + b;
  }

  /** A new node whose sibling is a child of its registered parent stands in front of it at once, in a batch or not. */
  lemma {:induction false} InsertedBefore(c: Client, id: uint32, parent: uint32, sibling: uint32, tag: Str,
                                          attrs: seq<(Str, Str)>)
    requires Valid(c) && id !in c.nodes && id != parent && id != sibling && sibling != 0
    requires parent in c.nodes && sibling in c.nodes && ParentOf(c.heap, c.nodes[sibling]) == Some(c.nodes[parent])
    ensures var c', p, r := Apply(c, InsertNode(id, parent, sibling, tag, attrs)), c.nodes[parent], c.next;
            && c' == c.(heap := c'.heap, next := c.next + 1, nodes := c.nodes[id := r])
            && r !in c.heap && r in c'.heap && p in c'.heap && Fresh(c'.heap[r], id, tag, FromPairs(attrs), Some(p))
            && PutIn(Kids(c'.heap, p), Kids(c.heap, p), r, c.nodes[sibling])
            && c'.heap[p] == c.heap[p].(children := Kids(c'.heap, p))
            && OnlyAt(c.heap, c'.heap, {p})
  {
    var p, r, s := c.nodes[parent], c.next, c.nodes[sibling];
    NextUnseen(c);
    NodesInHeap(c);
    SiblingListed(c, p, s);
    PutBeforeIs(Kids(c.heap, p), r, s);
    var e := NewElem(id, tag, FromPairs(attrs));
    PlacedBefore(c, id, parent, sibling, tag, attrs);
    InsertLoose(c.heap[r := e], p, r, s);
    hide FromPairs, PutBefore, Valid, PutIn, Apply, InsertBefore;
  }

  /** Without a known sibling a new node that is not put off stands at the end; below 0 it does so in any case. */
  lemma {:induction false} InsertedLast(c: Client, id: uint32, parent: uint32, sibling: uint32, tag: Str,
                                        attrs: seq<(Str, Str)>)
    requires Valid(c) && id !in c.nodes && id != parent && id != sibling && Below(c, parent).Some?
    requires parent in c.nodes ==> sibling == 0 || sibling !in c.nodes
    requires !(sibling == 0 && c.depth > 0 && parent in c.existing)
    ensures var c', p, r := Apply(c, InsertNode(id, parent, sibling, tag, attrs)), Below(c, parent).value, c.next;
            && c' == c.(heap := c'.heap, next := c.next + 1, nodes := c.nodes[id := r])
            && r !in c.heap && r in c'.heap && p in c'.heap && Fresh(c'.heap[r], id, tag, FromPairs(attrs), Some(p))
            && c'.heap[p] == c.heap[p].(children := Kids(c.heap, p) + [r])
            && OnlyAt(c.heap, c'.heap, {p})
  {
    var p, r := Below(c, parent).value, c.next;
    NextUnseen(c);
    NodesInHeap(c);
    var e := NewElem(id, tag, FromPairs(attrs));
    PlacedLast(c, id, parent, sibling, tag, attrs);
    AppendLoose(c.heap[r := e], p, r);
    hide FromPairs, Valid, Apply, Append;
  }

  lemma PlacedLast(c: Client, id: uint32, parent: uint32, sibling: uint32, tag: Str, attrs: seq<(Str, Str)>)
    requires id !in c.nodes && id != parent && id != sibling && Below(c, parent).Some?
    requires parent in c.nodes ==> sibling == 0 || sibling !in c.nodes
    requires !(sibling == 0 && c.depth > 0 && parent in c.existing)
    ensures var c1 := Create(c, id, NewElem(id, tag, FromPairs(attrs)));
            Apply(c, InsertNode(id, parent, sibling, tag, attrs))
            == c1.(heap := Append(c1.heap, Below(c, parent).value, c.next))
  {
    hide FromPairs, InsertBefore, Append, MoveNode;
  }

  lemma SiblingListed(c: Client, p: Ref, s: Ref)
    requires Valid(c) && s in c.heap && ParentOf(c.heap, s) == Some(p)
    ensures p in c.heap && s in Kids(c.heap, p)
  {
    assert NodeOk(c.heap, s);
  }

  lemma PlacedBefore(c: Client, id: uint32, parent: uint32, sibling: uint32, tag: Str, attrs: seq<(Str, Str)>)
    requires id !in c.nodes && id != parent && id != sibling && sibling != 0 && sibling in c.nodes && parent in c.nodes
    ensures var c1 := Create(c, id, NewElem(id, tag, FromPairs(attrs)));
            Apply(c, InsertNode(id, parent, sibling, tag, attrs))
            == c1.(heap := InsertBefore(c1.heap, c.nodes[parent], c.next, c.nodes[sibling]))
  {
    hide FromPairs, InsertBefore, Append, MoveNode;
  }

  lemma InsertLoose(h: Heap, p: Ref, r: Ref, s: Ref)
    requires p in h && r in h && s in h && p != r && s != r && h[r].parent.None? && h[s].parent == Some(p)
    ensures InsertBefore(h, p, r, s)
            == h[p := h[p].(children := PutBefore(h[p].children, r, s))][r := h[r].(parent := Some(p))]
  {
    hide PutBefore;
  }

  /** A new node below an id that is neither registered nor 0 is registered but hangs nowhere, unless it waits. */
  lemma {:induction false} InsertedNowhere(c: Client, id: uint32, parent: uint32, sibling: uint32, tag: Str,
                                           attrs: seq<(Str, Str)>)
    requires Valid(c) && id !in c.nodes && id != parent && Below(c, parent) == None
    ensures var c', r := Apply(c, InsertNode(id, parent, sibling, tag, attrs)), c.next;
            && c'.nodes == c.nodes[id := r] && c'.next == c.next + 1
            && r !in c.heap && r in c'.heap && Fresh(c'.heap[r], id, tag, FromPairs(attrs), None)
            && OnlyAt(c.heap, c'.heap, {}) && (forall q | q in c.heap :: r !in Kids(c'.heap, q))
            && c'.deferred == c.deferred + if sibling == 0 && c.depth > 0 && parent in c.existing
                                           then [Deferred(id, parent)] else []
  {
    NextUnseen(c);
    PlacedNowhere(c, id, parent, sibling, tag, attrs);
    hide Valid, Apply, FromPairs;
  }

  lemma PlacedNowhere(c: Client, id: uint32, parent: uint32, sibling: uint32, tag: Str, attrs: seq<(Str, Str)>)
    requires id !in c.nodes && id != parent && Below(c, parent) == None
    ensures var c1 := Create(c, id, NewElem(id, tag, FromPairs(attrs)));
            Apply(c, InsertNode(id, parent, sibling, tag, attrs))
            == c1.(deferred := c.deferred + if sibling == 0 && c.depth > 0 && parent in c.existing
                                            then [Deferred(id, parent)] else [])
  {
    hide FromPairs, Append, InsertBefore, MoveNode;
  }

  /** A registered node goes to the end of its new parent, the root where that is unknown, batch or not. */
  lemma {:induction false} MovedLast(c: Client, id: uint32, parent: uint32, tag: Str, attrs: seq<(Str, Str)>)
    requires Valid(c) && id in c.nodes
    requires c.nodes[id] != (if parent in c.nodes then c.nodes[parent] else 0)
    ensures var c', r := Apply(c, InsertNode(id, parent, 0, tag, attrs)), c.nodes[id];
            var p := if parent in c.nodes then c.nodes[parent] else 0;
            && c' == c.(heap := c'.heap)
            && Kids(c'.heap, p) == Without(Kids(c.heap, p), r) + [r] && ParentOf(c'.heap, r) == Some(p)
            && (forall q | q in c.heap && q != p :: Kids(c'.heap, q) == Without(Kids(c.heap, q), r))
            && c'.heap.Keys == c.heap.Keys && c'.heap[r] == c.heap[r].(children := Kids(c'.heap, r), parent := Some(p))
  {
    var r := c.nodes[id];
    var p := if parent in c.nodes then c.nodes[parent] else ROOT;
    DetachedLists(c, r);
    MovesToEnd(c, id, parent, tag, attrs);
    NodesInHeap(c);
    hide *;
    AppendedLists(Detach(c.heap, r), p, r);
  }

  lemma AppendedLists(h: Heap, p: Ref, r: Ref)
    requires r in h && p in h && p != r && ParentOf(h, r) == None
    ensures var h' := Append(h, p, r);
            && h'.Keys == h.Keys && Kids(h', p) == Kids(h, p) + [r] && ParentOf(h', r) == Some(p)
            && (forall q | q in h && q != p :: Kids(h', q) == Kids(h, q))
            && h'[r] == h[r].(parent := Some(p))
  {
    AppendLoose(h, p, r);
    hide Append;
  }

  lemma MovesToEnd(c: Client, id: uint32, parent: uint32, tag: Str, attrs: seq<(Str, Str)>)
    requires id in c.nodes
    ensures Apply(c, InsertNode(id, parent, 0, tag, attrs))
            == c.(heap := Append(Detach(c.heap, c.nodes[id]), if parent in c.nodes then c.nodes[parent] else ROOT,
                                 c.nodes[id]))
  {
    hide FromPairs, InsertBefore, Append, Detach, Place, Create;
  }

  lemma {:induction false} DetachedLists(c: Client, r: Ref)
    requires Valid(c) && r in c.heap && r != ROOT
    ensures var h' := Detach(c.heap, r);
            && h'.Keys == c.heap.Keys && ParentOf(h', r) == None
            && (forall q | q in c.heap :: Kids(h', q) == Without(Kids(c.heap, q), r))
            && h'[r] == c.heap[r].(children := Kids(h', r), parent := None)
  {
    if ParentOf(c.heap, r).Some? {
      ParentThere(c, r);
    }
    forall q | q in c.heap && Some(q) != ParentOf(c.heap, r) ensures Without(Kids(c.heap, q), r) == Kids(c.heap, q) {
      NotListed(c, q, r);
      WithoutAbsent(Kids(c.heap, q), r);
    }
    hide Valid, Without;
  }

  lemma ParentThere(c: Client, r: Ref)
    requires Valid(c) && r in c.heap && ParentOf(c.heap, r).Some?
    ensures ParentOf(c.heap, r).value in c.heap
  {
    assert NodeOk(c.heap, r);
  }

  lemma NotListed(c: Client, q: Ref, r: Ref)
    requires Valid(c) && q in c.heap && r in c.heap && Some(q) != ParentOf(c.heap, r)
    ensures r !in Kids(c.heap, q)
  {
    assert NodeOk(c.heap, q);
  }

  /** A waiting node whose parent has been forgotten in the meantime hangs nowhere when the batch ends. */
  lemma {:induction false} ParentForgotten(c: Client, node: uint32, parent: uint32)
    requires Valid(c) && node in c.nodes && parent !in c.nodes && parent != 0
    ensures var c', r := Settle(c, Deferred(node, parent)), c.nodes[node];
            && c' == c.(heap := c'.heap) && ParentOf(c'.heap, r) == None && (forall q :: r !in Kids(c'.heap, q))
            && OnlyAt(c.heap, c'.heap, {r} + if ParentOf(c.heap, r).Some? then {ParentOf(c.heap, r).value} else {})
  {
    NodesInHeap(c);
    DetachedNowhere(c, c.nodes[node]);
    hide Detach, Valid;
  }

  // ------------------------------------------------------------------------ labels

  /** Only the node registered under `id` has changed, and of it only attributes and styles. */
  ghost predicate OnlyLabels(c: Client, c': Client, id: uint32) {
    && id in c.nodes && c' == c.(heap := c'.heap) && c.nodes[id] in c'.heap && OnlyAt(c.heap, c'.heap, {c.nodes[id]})
    && c'.heap[c.nodes[id]]
       == At(c.heap, c.nodes[id]).(attrs := c'.heap[c.nodes[id]].attrs, styles := c'.heap[c.nodes[id]].styles)
  }

  /** One attribute or style, of one node: set, or taken away; a style set to nothing is taken away. */
  lemma {:induction false} Labelling(c: Client, id: uint32, key: Str, value: Str)
    ensures id !in c.nodes ==> Apply(c, SetAttr(id, key, value)) == Apply(c, RemoveAttr(id, key))
                               == Apply(c, SetStyle(id, key, value)) == c
    ensures id in c.nodes ==>
              var e, c' := At(c.heap, c.nodes[id]), Apply(c, SetAttr(id, key, value));
              var e' := At(c'.heap, c.nodes[id]);
              && OnlyLabels(c, c', id) && e'.styles == e.styles
              && (forall k :: k in e'.attrs <==> k in e.attrs || k == key)
              && (forall k | k in e'.attrs :: e'.attrs[k] == if k == key then value else e.attrs[k])
    ensures id in c.nodes ==>
              var e, c' := At(c.heap, c.nodes[id]), Apply(c, RemoveAttr(id, key));
              var e' := At(c'.heap, c.nodes[id]);
              && OnlyLabels(c, c', id) && e'.styles == e.styles
              && (forall k :: k in e'.attrs <==> k in e.attrs && k != key)
              && (forall k | k in e'.attrs :: e'.attrs[k] == e.attrs[k])
    ensures id in c.nodes ==>
              var e, c' := At(c.heap, c.nodes[id]), Apply(c, SetStyle(id, key, value));
              var e' := At(c'.heap, c.nodes[id]);
              && OnlyLabels(c, c', id) && e'.attrs == e.attrs
              && (forall k :: k in e'.styles <==> (k in e.styles && k != key) || (k == key && value != []))
              && (forall k | k in e'.styles :: e'.styles[k] == if k == key then value else e.styles[k])
  {
  }
}
