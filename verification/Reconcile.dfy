/**
 Keyed list reconciliation (the For observer of pkg/dom/reactive.go): which
 operations an update queues, and the order of children their replay leaves.
 */
module Reconcile {
  import opened Seqs
  import opened Lis
  import MoveScripts
  import opened Wire
  import opened Trees

  /** A queued operation of a list container. */
  datatype Op =
    | Remove(node: VNode)
    | Clear
    | Swap(a: VNode, b: VNode)
    | Move(moved: VNode)                // InsertNode of a node the client has
    | Insert(added: VNode)              // InsertNode of a new subtree
    | Bulk(nodes: seq<VNode>)           // InsertHTML of new subtrees

  const BULK_THRESHOLD := 20

  // --------------------------------------------------------- what is queued

  /** Elements of `s` that occur in `t`, in the order of `s`. */
  function Common(s: seq<VNode>, t: seq<VNode>): (r: seq<VNode>)
    ensures forall x | x in r :: x in s && x in t
    ensures forall x | x in s && x in t :: x in r
    ensures |r| <= |s|
  {
    if s == [] then []
    else (if s[0] in t then [s[0]] else []) + Common(s[1..], t)
  }

  /** flushBulkNew. */
  function FlushBulk(bulk: seq<VNode>): seq<Op> {
    if |bulk| >= BULK_THRESHOLD then [Bulk(bulk)]
    else seq(|bulk|, i requires 0 <= i < |bulk| => Insert(bulk[i]))
  }

  /** How one item of the new list is handled. */
  datatype Kind = Kept | Moved | New

  /** New nodes are new; the others are kept or moved as the marks say. */
  function Kinds(next: seq<VNode>, known: seq<VNode>, marks: seq<bool>): (r: seq<Kind>)
    requires |Common(next, known)| == |marks|
    ensures |r| == |next|
  {
    if next == [] then []
    else if next[0] in known then
      [if marks[0] then Kept else Moved] + Kinds(next[1..], known, marks[1..])
    else [New] + Kinds(next[1..], known, marks)
  }

  /** The rebuild loop: moves at once, runs of new nodes collected up to the next move or the end. */
  function Rebuild(next: seq<VNode>, kinds: seq<Kind>, bulk: seq<VNode>): seq<Op>
    requires |kinds| == |next|
    decreases next
  {
    if next == [] then FlushBulk(bulk)
    else match kinds[0]
      case Kept => Rebuild(next[1..], kinds[1..], bulk)
      case New => Rebuild(next[1..], kinds[1..], bulk + [next[0]])
      case Moved => FlushBulk(bulk) + [Move(next[0])] + Rebuild(next[1..], kinds[1..], [])
  }

  /** Positions carrying no mark, in order. */
  function Unmarked(marks: seq<bool>): (r: seq<nat>)
    ensures forall i | 0 <= i < |r| :: r[i] < |marks| && !marks[r[i]]
    ensures forall i, j | 0 <= i < j < |r| :: r[i] < r[j]
    ensures forall i: nat | i < |marks| && !marks[i] :: i in r
  {
    if marks == [] then []
    else
      var front := Unmarked(marks[..|marks| - 1]);
      if marks[|marks| - 1] then front else front + [|marks| - 1]
  }

  /** The fast path: no new node, and exactly two nodes outside the marks. */
  predicate TakesSwap(next: seq<VNode>, known: seq<VNode>, marks: seq<bool>) {
    |Common(next, known)| == |next| && |next| >= 2 && |Unmarked(marks)| == 2
  }

  /** What is queued behind the removals. */
  function Reorder(next: seq<VNode>, known: seq<VNode>, marks: seq<bool>): seq<Op>
    requires |Common(next, known)| == |marks|
  {
    if TakesSwap(next, known, marks) then
      var out := Unmarked(marks);
      [Swap(next[out[0]], next[out[1]])]
    else Rebuild(next, Kinds(next, known, marks), [])
  }

  /** Removals: everything at once when nothing is left, otherwise one by one in any order. */
  ghost predicate IsRemoval(ops: seq<Op>, old_: seq<VNode>, next: seq<VNode>) {
    if next == [] && old_ != [] then ops == [Clear]
    else
      exists gone: seq<VNode> ::
        Distinct(gone) && (forall x :: x in gone <==> x in old_ && x !in next)
        && ops == seq(|gone|, i requires 0 <= i < |gone| => Remove(gone[i]))
  }

  /** `ops` is what an update from the children `old_` to `next` may queue. */
  ghost predicate IsUpdate(ops: seq<Op>, old_: seq<VNode>, next: seq<VNode>, marks: seq<bool>, cut: nat) {
    var known := Common(old_, next);
    var survivors := Common(next, known);
    && cut <= |ops|
    && IsRemoval(ops[..cut], old_, next)
    && (forall x | x in survivors :: x in known)
    && IsLis(MoveScripts.Positions(known, survivors), marks)
    && ops[cut..] == Reorder(next, known, marks)
  }

  /** The marks keep the last of several candidates, as lisIndices does. */
  ghost predicate TieBroken(old_: seq<VNode>, next: seq<VNode>, marks: seq<bool>) {
    var known := Common(old_, next);
    Latest(MoveScripts.Positions(known, Common(next, known)), marks)
  }

  // ------------------------------------------------------------- its replay

  /** A container's children on the client: attached, and waiting for the end of the batch. */
  datatype Line = Line(live: seq<VNode>, waiting: seq<VNode>)

  function Step(l: Line, op: Op): Line {
    match op
    case Remove(x) => l.(live := Without(l.live, x))
    case Clear => l.(live := [])
    case Swap(a, b) => l.(live := Exchange(l.live, a, b))
    case Move(x) => l.(live := Without(l.live, x) + [x])
    case Insert(x) => l.(waiting := l.waiting + [x])
    case Bulk(xs) => l.(live := l.live + xs)
  }

  function Steps(l: Line, ops: seq<Op>): Line
    decreases ops
  {
    if ops == [] then l else Steps(Step(l, ops[0]), ops[1..])
  }

  /** The children when the batch ends. */
  function Replay(old_: seq<VNode>, ops: seq<Op>): seq<VNode> {
    var l := Steps(Line(old_, []), ops);
    l.live + l.waiting
  }

  // ------------------------------------------------- where each node ends up

  /** New items from `i` up to the next moved one. */
  function RunAhead(kinds: seq<Kind>, i: nat): nat
    requires i <= |kinds|
    decreases |kinds| - i
  {
    if i == |kinds| || kinds[i] == Moved then 0
    else (if kinds[i] == New then 1 else 0) + RunAhead(kinds, i + 1)
  }

  /** New items before `i` back to the last moved one. */
  function RunBehind(kinds: seq<Kind>, i: nat): nat
    requires i <= |kinds|
    decreases i
  {
    if i == 0 || kinds[i - 1] == Moved then 0
    else (if kinds[i - 1] == New then 1 else 0) + RunBehind(kinds, i - 1)
  }

  /**
   0 for nodes that stay, 1 for those appended during the batch (moved nodes and
   new nodes in runs of 20 or more), 2 for those appended at its end.
   */
  function Rank(kinds: seq<Kind>, i: nat): nat
    requires i < |kinds|
  {
    match kinds[i]
    case Kept => 0
    case Moved => 1
    case New => if RunBehind(kinds, i) + RunAhead(kinds, i) >= BULK_THRESHOLD then 1 else 2
  }

  function Ranks(kinds: seq<Kind>): (r: seq<nat>)
    ensures |r| == |kinds| && forall i | 0 <= i < |kinds| :: r[i] == Rank(kinds, i)
  {
    seq(|kinds|, i requires 0 <= i < |kinds| => Rank(kinds, i))
  }

  /** Elements of rank `k`, in order. */
  function OfRank<T>(s: seq<T>, ranks: seq<nat>, k: nat): seq<T>
    requires |ranks| == |s|
  {
    if s == [] then []
    else (if ranks[0] == k then [s[0]] else []) + OfRank(s[1..], ranks[1..], k)
  }

  /** Kept nodes, then those appended during the batch, then those appended at its end; each in the new order. */
  function Arranged<T>(s: seq<T>, ranks: seq<nat>): seq<T>
    requires |ranks| == |s|
  {
    OfRank(s, ranks, 0) + OfRank(s, ranks, 1) + OfRank(s, ranks, 2)
  }
}
