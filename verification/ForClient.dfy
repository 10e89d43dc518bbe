/**
 A list container's queued operations on the client's page: each one does to
 the container's child list what the abstract line of nodes says, and leaves
 the rest of the page alone.
 */
module ForClient {
  import opened Seqs
  import opened Wire
  import opened Dom
  import opened Client
  import opened Trees
  import opened Emission
  import Swaps
  import opened Reconcile

  /** A container, the DOM node registered for it, and the nodes one update is about. */
  datatype Setting = Setting(
    container: uint32,
    ref: Ref,
    all: seq<VNode>,
    had: set<VNode>,       // children before the update
    bulk: set<VNode>)      // nodes sent by bulk inserts

  ghost predicate Fair(s: Setting) {
    ProperAll(s.all) && s.container !in IdsOf(s.all)
  }

  /** A node as the client gets to see it: single inserts leave out styles. */
  function Look(s: Setting, v: VNode): (r: VNode)
    ensures r.id == v.id && Ids(r) == Ids(v)
  {
    if v in s.had then v else if v in s.bulk then Mounted(v) else Unstyled(v)
  }

  function LookAll(s: Setting, vs: seq<VNode>): (r: seq<VNode>)
    ensures |r| == |vs| && forall i | 0 <= i < |vs| :: r[i] == Look(s, vs[i])
  {
    seq(|vs|, i requires 0 <= i < |vs| => Look(s, vs[i]))
  }

  lemma {:induction false} LookProper(s: Setting, v: VNode)
    requires Proper(v)
    ensures Proper(Look(s, v))
  {
    MountedProper(v);
    UnstyledProper(v);
  }

  // ------------------------------------------------------------------ members

  lemma {:induction false} MemberOf(vs: seq<VNode>, v: VNode)
    requires ProperAll(vs) && v in vs
    ensures Proper(v) && Ids(v) <= IdsOf(vs) && v.id in Ids(v) && 0 !in Ids(v)
    decreases vs
  {
    if vs[0] == v {
      ProperNonZero(v);
    } else {
      MemberOf(vs[1..], v);
    }
  }

  lemma {:induction false} Disjoint(vs: seq<VNode>, v: VNode, w: VNode)
    requires ProperAll(vs) && v in vs && w in vs && v != w
    ensures Ids(v) !! Ids(w) && v.id != w.id
    decreases vs
  {
    MemberOf(vs, v);
    MemberOf(vs, w);
    if vs[0] == v {
      MemberOf(vs[1..], w);
    } else if vs[0] == w {
      MemberOf(vs[1..], v);
    } else {
      Disjoint(vs[1..], v, w);
    }
  }

  lemma {:induction false} IdsOfMember(vs: seq<VNode>, id: uint32) returns (v: VNode)
    requires id in IdsOf(vs)
    ensures v in vs && id in Ids(v)
    decreases vs
  {
    if id in Ids(vs[0]) {
      v := vs[0];
    } else {
      v := IdsOfMember(vs[1..], id);
    }
  }

  // ---------------------------------------------------------------- the scene

  ghost predicate ShownAt(c: Client, v: VNode, parent: Option<Ref>) {
    Shows(c.heap, c.nodes, v) && At(c.heap, RefOf(c.nodes, v.id)).parent == parent
  }

  ghost predicate Holder(c: Client, s: Setting) {
    && Valid(c) && c.depth > 0
    && s.container in c.existing && s.container in c.nodes && c.nodes[s.container] == s.ref
  }

  /** The container's children are `live`. */
  ghost predicate Row(c: Client, s: Setting, live: seq<VNode>) {
    && Kids(c.heap, s.ref) == Refs(c.nodes, live)
    && forall v | v in live :: ShownAt(c, Look(s, v), Some(s.ref))
  }

  /** `waiting` are built but not attached. */
  ghost predicate PutOff(c: Client, s: Setting, waiting: seq<VNode>) {
    && c.deferred == DeferAll(waiting, s.container)
    && forall v | v in waiting :: ShownAt(c, Look(s, v), None)
  }

  /** Nodes that are neither old nor in line are unknown to the client. */
  ghost predicate Unsent(c: Client, s: Setting, l: Line) {
    forall v | v in s.all && v !in s.had && v !in l.live && v !in l.waiting :: Unseen(c, Ids(v))
  }

  ghost predicate Members(s: Setting, l: Line) {
    Distinct(l.live + l.waiting) && (forall v | v in l.live :: v in s.all) && (forall v | v in l.waiting :: v in s.all)
  }

  ghost predicate InLine(c: Client, s: Setting, l: Line) {
    Holder(c, s) && Row(c, s, l.live) && PutOff(c, s, l.waiting) && Unsent(c, s, l) && Members(s, l)
  }

  /** Nodes that do not belong to the update, and their registrations, are as before. */
  ghost predicate Elsewhere(c: Client, c': Client, s: Setting) {
    && c.next <= c'.next && c'.depth == c.depth && c'.existing == c.existing
    && (forall id | id in c.nodes && id !in IdsOf(s.all) :: id in c'.nodes)
    && (forall id | id in c'.nodes :: (id in c.nodes && c'.nodes[id] == c.nodes[id])
                                      || (id in IdsOf(s.all) && c.next <= c'.nodes[id]))
    && (forall r | r in c.heap && r < c.next && r != s.ref && !Owned(c, s, r) ::
          r in c'.heap && c'.heap[r] == c.heap[r])
  }

  ghost predicate Owned(c: Client, s: Setting, r: Ref) {
    exists id :: id in IdsOf(s.all) && id in c.nodes && c.nodes[id] == r
  }

  lemma {:induction false} ElsewhereThen(c: Client, c1: Client, c2: Client, s: Setting)
    requires Elsewhere(c, c1, s) && Elsewhere(c1, c2, s)
    ensures Elsewhere(c, c2, s)
  {
    forall r | r in c.heap && r < c.next && r != s.ref && !Owned(c, s, r)
      ensures r in c2.heap && c2.heap[r] == c.heap[r]
    {
      assert !Owned(c1, s, r);
    }
  }

  // ---------------------------------------------------------- what is queued

  /** What a queued operation makes of the client's state. A bulk insert adds its trees at once. */
  ghost predicate Does(c: Client, op: Op, s: Setting, c': Client) {
    match op
    case Remove(x) => c' == Apply(c, RemoveNode(x.id))
    case Clear => c' == Apply(c, ClearChildren(s.container))
    case Swap(a, b) => c' == Apply(c, SwapNodes(a.id, b.id))
    case Move(x) => exists tag, attrs :: c' == Apply(c, InsertNode(x.id, s.container, 0, tag, attrs))
    case Insert(x) => exists msgs :: IsInsertTree(msgs, x, s.container) && c' == ApplyAll(c, msgs)
    case Bulk(xs) => Built(c, c', MountedAll(xs), Below(s.ref))
  }

  /** The nodes an operation names are where it expects them. */
  ghost predicate Able(l: Line, op: Op, s: Setting) {
    match op
    case Remove(x) => x in l.live && x in s.had
    case Clear => forall v | v in l.live :: v in s.had
    case Swap(a, b) => a in l.live && b in l.live && a != b
    case Move(x) => x in l.live
    case Insert(x) => x in s.all && x !in s.had && x !in s.bulk && x !in l.live && x !in l.waiting
    case Bulk(xs) => Distinct(xs) && forall v | v in xs ::
                       v in s.all && v !in s.had && v in s.bulk && v !in l.live && v !in l.waiting
  }

  // ------------------------------------------------- trees that stay as they are

  /** A tree none of whose nodes changes stays shown. */
  lemma {:induction false} Undisturbed(c: Client, c': Client, v: VNode, parent: Option<Ref>)
    requires ShownAt(c, v, parent) && Proper(v)
    requires forall id | id in Ids(v) && id in c.nodes ::
               id in c'.nodes && c'.nodes[id] == c.nodes[id]
               && (c.nodes[id] in c.heap ==> c.nodes[id] in c'.heap && c'.heap[c.nodes[id]] == c.heap[c.nodes[id]])
    ensures ShownAt(c', v, parent) && RefOf(c'.nodes, v.id) == RefOf(c.nodes, v.id)
  {
    ShowsKept(c.heap, c.nodes, c'.heap, c'.nodes, v);
    assert v.id in Ids(v);
  }

  /** The registered DOM nodes of a tree. */
  function Nodes(c: Client, ids: set<uint32>): set<Ref> {
    set id | id in ids && id in c.nodes :: c.nodes[id]
  }

  lemma {:induction false} RefsSame(nodes: map<uint32, Ref>, nodes': map<uint32, Ref>, vs: seq<VNode>)
    requires forall v | v in vs :: RefOf(nodes', v.id) == RefOf(nodes, v.id)
    ensures Refs(nodes', vs) == Refs(nodes, vs)
  {
  }

  lemma {:induction false} RefsAppend(nodes: map<uint32, Ref>, a: seq<VNode>, b: seq<VNode>)
    ensures Refs(nodes, a + b) == Refs(nodes, a) + Refs(nodes, b)
  {
  }

  lemma {:induction false} RefsLook(nodes: map<uint32, Ref>, s: Setting, vs: seq<VNode>)
    ensures Refs(nodes, LookAll(s, vs)) == Refs(nodes, vs)
  {
  }

  /** Leaving out a node leaves out its reference. */
  lemma {:induction false} RefsWithout(nodes: map<uint32, Ref>, vs: seq<VNode>, x: VNode)
    requires forall v | v in vs && v != x :: RefOf(nodes, v.id) != RefOf(nodes, x.id)
    ensures Refs(nodes, Without(vs, x)) == Without(Refs(nodes, vs), RefOf(nodes, x.id))
    decreases vs
  {
    if vs != [] {
      RefsWithout(nodes, vs[1..], x);
      assert Refs(nodes, vs)[1..] == Refs(nodes, vs[1..]);
    }
  }

  lemma {:induction false} RefsExchange(nodes: map<uint32, Ref>, vs: seq<VNode>, a: VNode, b: VNode)
    requires forall v | v in vs && v != a :: RefOf(nodes, v.id) != RefOf(nodes, a.id)
    requires forall v | v in vs && v != b :: RefOf(nodes, v.id) != RefOf(nodes, b.id)
    ensures Refs(nodes, Exchange(vs, a, b)) == Exchange(Refs(nodes, vs), RefOf(nodes, a.id), RefOf(nodes, b.id))
  {
  }

  /** Different nodes of the update are different DOM nodes, and none is the container. */
  lemma {:induction false} ApartRefs(c: Client, s: Setting, v: VNode, w: VNode)
    requires Holder(c, s) && Fair(s) && v in s.all && w in s.all && v != w
    requires v.id in c.nodes && w.id in c.nodes
    ensures RefOf(c.nodes, v.id) != RefOf(c.nodes, w.id)
  {
    Disjoint(s.all, v, w);
  }

  lemma {:induction false} NotHolder(c: Client, s: Setting, v: VNode)
    requires Holder(c, s) && Fair(s) && v in s.all
    ensures s.ref !in Nodes(c, Ids(v)) && s.container !in Ids(v)
  {
    MemberOf(s.all, v);
  }

  lemma {:induction false} NodesApart(c: Client, s: Setting, v: VNode, w: VNode)
    requires Holder(c, s) && Fair(s) && v in s.all && w in s.all && v != w
    ensures Nodes(c, Ids(v)) !! Nodes(c, Ids(w))
  {
    Disjoint(s.all, v, w);
  }
}
