/**
 The browser's node tree as the client sees it: nodes with identity, ordered
 child lists and parent links, and the insertion and removal operations of the
 WHATWG DOM Standard, section 4.2.3 "Mutation algorithms".
 */
module Dom {
  import opened Seqs
  import opened Wire

  datatype Option<+T> = None | Some(value: T)

  /** Identity of a DOM node. */
  type Ref = nat

  /** The `#bw-root` element every patch hangs below. */
  const ROOT: Ref := 0

  /** The tag that stands for text nodes on the wire: "#text". */
  const TEXT_TAG: Str := [0x23, 0x74, 0x65, 0x78, 0x74]

  datatype Elem = Elem(
    tag: Str,
    text: Str,                   // character data of a text node
    attrs: map<Str, Str>,
    styles: map<Str, Str>,
    children: seq<Ref>,
    parent: Option<Ref>,
    bwId: Option<uint32>)        // the __bwId property

  const BLANK: Elem := Elem([], [], map[], map[], [], None, None)

  type Heap = map<Ref, Elem>

  function At(h: Heap, r: Ref): Elem {
    if r in h then h[r] else BLANK
  }

  function Kids(h: Heap, r: Ref): seq<Ref> {
    At(h, r).children
  }

  function ParentOf(h: Heap, r: Ref): Option<Ref> {
    At(h, r).parent
  }

  predicate IsText(e: Elem) {
    e.tag == TEXT_TAG
  }

  /** `r.parentNode.removeChild(r)`, if there is a parent. */
  function Detach(h: Heap, r: Ref): Heap {
    var e := At(h, r);
    if e.parent.None? then h
    else
      var p := e.parent.value;
      var h1 := h[p := At(h, p).(children := Without(Kids(h, p), r))];
      h1[r := At(h1, r).(parent := None)]
  }

  /** `p.appendChild(r)`: an attached node is removed first. */
  function Append(h: Heap, p: Ref, r: Ref): Heap {
    var h1 := Detach(h, r);
    var h2 := h1[p := At(h1, p).(children := Kids(h1, p) + [r])];
    h2[r := At(h2, r).(parent := Some(p))]
  }

  /** `cs` with `r` put in front of `sib`. */
  function PutBefore(cs: seq<Ref>, r: Ref, sib: Ref): seq<Ref> {
    if cs == [] then [r]
    else if cs[0] == sib then [r] + cs
    else [cs[0]] + PutBefore(cs[1..], r, sib)
  }

  /** `p.insertBefore(r, sib)`; without effect when `sib` is not a child of `p`. */
  function InsertBefore(h: Heap, p: Ref, r: Ref, sib: Ref): Heap {
    if At(h, sib).parent != Some(p) || sib == r then h
    else
      var h1 := Detach(h, r);
      var h2 := h1[p := At(h1, p).(children := PutBefore(Kids(h1, p), r, sib))];
      h2[r := At(h2, r).(parent := Some(p))]
  }

  /** `r.textContent = ""`. */
  function DetachAll(h: Heap, r: Ref): Heap {
    map x | x in h ::
      var e := if x in Kids(h, r) then h[x].(parent := None) else h[x];
      if x == r then e.(children := []) else e
  }

  /** The nodes reachable from `s` through child lists. */
  function Closure(h: Heap, s: set<Ref>): (c: set<Ref>)
    ensures s <= c
    ensures forall r, x | r in c && x in Kids(h, r) && x in h :: x in c
    decreases h.Keys - s
  {
    var next := s + set r, x | r in s && x in Kids(h, r) && x in h :: x;
    if next == s then s
    else assert exists x :: x in next && x !in s && x in h; Closure(h, next)
  }

  /** The closure is the least set that contains `s` and the children of its members. */
  lemma {:induction false} ClosureLeast(h: Heap, s: set<Ref>, t: set<Ref>)
    requires s <= t
    requires forall r, x | r in t && x in Kids(h, r) && x in h :: x in t
    ensures Closure(h, s) <= t
    decreases h.Keys - s
  {
    var next := s + set r, x | r in s && x in Kids(h, r) && x in h :: x;
    if next != s {
      assert exists x :: x in next && x !in s && x in h;
      ClosureLeast(h, next, t);
    }
  }

  /** Child lists and parent links of one node agree with its neighbours'. */
  ghost predicate NodeOk(h: Heap, p: Ref)
    requires p in h
  {
    && Distinct(h[p].children)
    && (forall x | x in h[p].children :: x in h && h[x].parent == Some(p))
    && (h[p].parent.Some? ==> h[p].parent.value in h && p in h[h[p].parent.value].children)
  }

  ghost predicate Forest(h: Heap) {
    && (forall p | p in h :: NodeOk(h, p))
    && ROOT in h && h[ROOT].parent.None?
  }

  lemma {:induction false} DetachForest(h: Heap, r: Ref)
    requires Forest(h) && r in h && r != ROOT
    ensures Forest(Detach(h, r)) && Detach(h, r).Keys == h.Keys
  {
    var e := h[r];
    if e.parent.Some? {
      var p := e.parent.value;
      assert NodeOk(h, r) && NodeOk(h, p);
      WithoutDistinct(h[p].children, r);
      var h' := Detach(h, r);
      forall q | q in h' ensures NodeOk(h', q) {
        assert NodeOk(h, q);
      }
    }
  }

  /** Attaching a detached node at the end of a child list. */
  lemma {:induction false} AttachForest(h: Heap, p: Ref, r: Ref)
    requires Forest(h) && r in h && p in h && r != ROOT && p != r
    requires h[r].parent.None?
    ensures Forest(Append(h, p, r)) && Append(h, p, r).Keys == h.Keys
  {
    var h' := Append(h, p, r);
    assert h' == h[p := h[p].(children := h[p].children + [r])][r := h[r].(parent := Some(p))];
    assert NodeOk(h, r) && NodeOk(h, p);
    hide Append;
    forall q | q in h' ensures NodeOk(h', q) {
      assert NodeOk(h, q);
      AttachOk(h, h', p, r, q);
    }
    hide NodeOk;
  }

  lemma AttachOk(h: Heap, h': Heap, p: Ref, r: Ref, q: Ref)
    requires p in h && r in h && q in h && p != r && h[r].parent.None? && NodeOk(h, q) && NodeOk(h, p) && NodeOk(h, r)
    requires h' == h[p := h[p].(children := h[p].children + [r])][r := h[r].(parent := Some(p))]
    ensures NodeOk(h', q)
  {
  }

  lemma {:induction false} AppendForest(h: Heap, p: Ref, r: Ref)
    requires Forest(h) && r in h && p in h && r != ROOT && p != r
    ensures Forest(Append(h, p, r)) && Append(h, p, r).Keys == h.Keys
  {
    DetachForest(h, r);
    AttachForest(Detach(h, r), p, r);
    assert Detach(Detach(h, r), r) == Detach(h, r);
  }

  /** `e'` is `e` up to text, attributes and styles. */
  ghost predicate SameShape(e: Elem, e': Elem) {
    e'.tag == e.tag && e'.bwId == e.bwId && e'.children == e.children && e'.parent == e.parent
  }

  lemma {:induction false} AlterForest(h: Heap, r: Ref, e: Elem)
    requires Forest(h) && r in h && SameShape(h[r], e)
    ensures Forest(h[r := e])
  {
    forall p | p in h ensures NodeOk(h[r := e], p) {
      assert NodeOk(h, p);
    }
  }

  /** Appending an unattached node changes two nodes only. */
  lemma {:induction false} AppendLoose(h: Heap, q: Ref, r: Ref)
    requires r in h && q in h && q != r && h[r].parent.None?
    ensures Append(h, q, r) == h[q := h[q].(children := h[q].children + [r])][r := h[r].(parent := Some(q))]
  {
  }
}
