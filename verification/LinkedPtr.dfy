/**
 linked_ptr: shared ownership through a circular doubly linked list of the owners.

 The links of all live pointers at one moment are a Graph. The rings in it are reasoned about on such values; the
 class changes the links in place, and each of its methods says which graph it leaves. Destroy says what the end of
 a pointer comes to, with the objects that go and the pointers in them.
 */
module LinkedPointers {

  /** Something that is owned and, in the end, deleted. */
  class Object {
    /** The pointers in it, in the order in which its destructor destroys them. */
    const members: seq<LinkedPtr>

    constructor (members: seq<LinkedPtr>)
      ensures this.members == members
    {
      this.members := members;
    }

    /** The destructor: one pointer after the other. */
    method Destruct(heap: Heap)
      requires heap.Valid() && Destroy(heap.graph, members).Done?
      modifies heap, heap.graph.Keys
      ensures heap.Valid() && heap.adopted == old(heap.adopted)
      ensures Destroyed(old(heap.graph), members, old(heap.deleted), heap.graph, heap.deleted)
      decreases |heap.graph|, 1
    {
      hide Linked, Balanced, Destroy, Heap.Mirrors, Left;
      ghost var g, before, gone := heap.graph, heap.deleted, [];
      ghost var end := Destroy(g, members);
      assert members[0..] == members && before + [] == before && [] + end.deleted == end.deleted;
      for i := 0 to |members|
        modifies heap, g.Keys
        invariant heap.Valid() && heap.adopted == old(heap.adopted) && heap.deleted == before + gone
        invariant heap.graph.Keys <= g.Keys && |heap.graph| <= |g|
        invariant end == Behind(gone, Destroy(heap.graph, members[i..]))
      {
        assert members[i..][0] == members[i] && members[i..][1..] == members[i + 1..];
        DestroyFirst(heap.graph, members[i..], gone, end);
        ghost var one := Destroy(heap.graph, [members[i]]);
        assert before + (gone + one.deleted) == before + gone + one.deleted;
        members[i].Release(heap);
        gone := gone + one.deleted;
      }
      assert members[|members|..] == [];
      DestroyNothing(heap.graph);
      assert gone + [] == gone;
    }
  }

  /** The fields of a live pointer, and the ring that it is in. */
  datatype Links = Links(ptr: Object?, next: LinkedPtr, prev: LinkedPtr, ring: seq<LinkedPtr>)

  type Graph = map<LinkedPtr, Links>

  // ---------------------------------------------------------------- rings

  function Succ(i: nat, n: nat): (j: nat)
    requires i < n
    ensures j < n
  {
    if i + 1 == n then 0 else i + 1
  }

  function Pred(i: nat, n: nat): (j: nat)
    requires i < n
    ensures j < n
  {
    if i == 0 then n - 1 else i - 1
  }

  ghost predicate Distinct(s: seq<LinkedPtr>) {
    forall i, j :: 0 <= i < j < |s| ==> s[i] != s[j]
  }

  /** Next and previous links are inverse to each other around `s`, and all of `s` hold the same object. */
  ghost predicate IsRing(g: Graph, s: seq<LinkedPtr>) {
    && s != [] && Distinct(s) && (forall p <- s :: p in g)
    && (forall i {:trigger g[s[i]].next} :: 0 <= i < |s| ==> g[s[i]].next == s[Succ(i, |s|)])
    && (forall i {:trigger g[s[i]].prev} :: 0 <= i < |s| ==> g[s[i]].prev == s[Pred(i, |s|)])
    && (forall p <- s :: g[p].ptr == g[s[0]].ptr)
  }

  /** Rings partition the pointers. */
  ghost predicate Partition(g: Graph) {
    && (forall p <- g :: p in g[p].ring)
    && (forall p <- g, q <- g :: q in g[p].ring ==> g[q].ring == g[p].ring)
    && (forall p <- g :: forall q <- g[p].ring :: q in g)
  }

  /** The live pointers partition into rings, exactly one for each object that is owned. */
  ghost predicate Linked(g: Graph) {
    && Partition(g)
    && (forall p <- g :: IsRing(g, g[p].ring))
    && (forall p <- g, q <- g :: g[p].ptr == g[q].ptr != null ==> g[p].ring == g[q].ring)
  }

  ghost function Position(s: seq<LinkedPtr>, p: LinkedPtr): (i: nat)
    requires p in s
    ensures i < |s| && s[i] == p
  {
    var i :| 0 <= i < |s| && s[i] == p;
    i
  }

  /** The ring, begun at `p`. */
  ghost function From(s: seq<LinkedPtr>, p: LinkedPtr): (t: seq<LinkedPtr>)
    requires p in s
    ensures |t| == |s| && t[0] == p && (forall q <- t :: q in s) && (forall q <- s :: q in t)
  {
    var i := Position(s, p);
    assert s == s[..i] + s[i..];
    s[i..] + s[..i]
  }

  /** Where an element of the begun ring is in the ring. */
  function Shift(k: nat, i: nat, n: nat): (j: nat)
    requires k < n && i < n
    ensures j < n
  {
    if k + i < n then k + i else k + i - n
  }

  lemma FromAt(s: seq<LinkedPtr>, p: LinkedPtr, k: nat)
    requires p in s && k < |s|
    ensures From(s, p)[k] == s[Shift(k, Position(s, p), |s|)]
  {
  }

  lemma FromDistinct(s: seq<LinkedPtr>, p: LinkedPtr)
    requires Distinct(s) && p in s
    ensures Distinct(From(s, p))
  {
    hide From;
    var t := From(s, p);
    forall j, k | 0 <= j < k < |s| ensures t[j] != t[k] {
      FromAt(s, p, j);
      FromAt(s, p, k);
    }
  }

  lemma FromLinks(g: Graph, s: seq<LinkedPtr>, p: LinkedPtr, k: nat)
    requires IsRing(g, s) && p in s && k < |s|
    ensures var t := From(s, p); t[k] in s && g[t[k]].next == t[Succ(k, |s|)] && g[t[k]].prev == t[Pred(k, |s|)]
  {
    hide From, Distinct;
    var n, i := |s|, Position(s, p);
    FromAt(s, p, k);
    FromAt(s, p, Succ(k, n));
    FromAt(s, p, Pred(k, n));
    var j := Shift(k, i, n);
    assert Shift(Succ(k, n), i, n) == Succ(j, n) && Shift(Pred(k, n), i, n) == Pred(j, n);
    assert s[j] in s && g[s[j]].next == s[Succ(j, n)] && g[s[j]].prev == s[Pred(j, n)];
  }

  /** A ring has no first element. */
  lemma FromIsRing(g: Graph, s: seq<LinkedPtr>, p: LinkedPtr)
    requires IsRing(g, s) && p in s
    ensures IsRing(g, From(s, p))
  {
    hide From, Distinct;
    FromDistinct(s, p);
    forall k | 0 <= k < |s|
      ensures var t := From(s, p); g[t[k]].next == t[Succ(k, |s|)] && g[t[k]].prev == t[Pred(k, |s|)]
    {
      FromLinks(g, s, p, k);
    }
  }

  lemma Neighbours(g: Graph, s: seq<LinkedPtr>, r: LinkedPtr)
    requires IsRing(g, s) && r in s
    ensures r in g && g[r].next in s && g[r].prev in s
    ensures (g[r].prev == r <==> s == [r]) && (g[r].next == r <==> s == [r])
  {
    var i := Position(s, r);
    assert g[r].next == s[Succ(i, |s|)] && g[r].prev == s[Pred(i, |s|)];
  }

  lemma RingMembers(g: Graph, r: LinkedPtr)
    requires Linked(g) && r in g
    ensures r in g[r].ring && IsRing(g, From(g[r].ring, r))
    ensures forall q <- g[r].ring :: q in g && g[q].ring == g[r].ring
    ensures g[r].next in g[r].ring && g[r].prev in g[r].ring
    ensures (g[r].prev == r <==> g[r].ring == [r]) && (g[r].next == r <==> g[r].ring == [r])
  {
    hide IsRing, From;
    assert IsRing(g, g[r].ring);
    FromIsRing(g, g[r].ring, r);
    Neighbours(g, g[r].ring, r);
  }

  /** The ring of a pointer is all pointers to its object. */
  lemma RingOwners(g: Graph, r: LinkedPtr)
    requires Linked(g) && r in g
    ensures forall q <- g[r].ring :: q in g && g[q].ptr == g[r].ptr
    ensures forall q <- g :: g[q].ptr == g[r].ptr != null ==> q in g[r].ring
  {
    assert IsRing(g, g[r].ring) && r in g[r].ring;
  }

  // ---------------------------------------------------------------- what the operations do to the graph

  ghost function Objects(g: Graph): set<Object> {
    set p | p in g && g[p].ptr != null :: g[p].ptr
  }

  ghost predicate OnlyOwner(g: Graph, p: LinkedPtr)
    requires p in g
  {
    g[p].ptr != null && forall q <- g :: g[q].ptr == g[p].ptr ==> q == p
  }

  function Alone(g: Graph, p: LinkedPtr, x: Object?): Graph {
    g[p := Links(x, p, p, [p])]
  }

  ghost function JoinedRing(g: Graph, p: LinkedPtr, r: LinkedPtr): seq<LinkedPtr>
    requires r in g && r in g[r].ring
  {
    From(g[r].ring, r)[1..] + [r, p]
  }

  /** `p` joins the ring of `r`, right behind it. */
  ghost function Joined(g: Graph, p: LinkedPtr, r: LinkedPtr): Graph
    requires r in g && r in g[r].ring
  {
    var t := JoinedRing(g, p, r);
    map q | q in g.Keys + {p} ::
      if q == p then Links(g[r].ptr, g[r].next, r, t)
      else
        Links(g[q].ptr, if q == r then p else g[q].next, if q == g[r].next then p else g[q].prev,
              if q in t then t else g[q].ring)
  }

  lemma JoinedFields(g: Graph, p: LinkedPtr, r: LinkedPtr)
    requires r in g && r in g[r].ring
    ensures Joined(g, p, r).Keys == g.Keys + {p}
    ensures forall q <- Joined(g, p, r) :: var links := Joined(g, p, r)[q];
      if q == p then links.ptr == g[r].ptr && links.next == g[r].next && links.prev == r
      else
        && links.ptr == g[q].ptr && links.next == (if q == r then p else g[q].next)
        && links.prev == if q == g[r].next then p else g[q].prev
  {
    hide JoinedRing;
  }

  ghost function LeftRing(g: Graph, p: LinkedPtr): seq<LinkedPtr>
    requires p in g && p in g[p].ring
  {
    From(g[p].ring, p)[1..]
  }

  /** `p` leaves its ring. */
  ghost function Left(g: Graph, p: LinkedPtr): Graph
    requires p in g && p in g[p].ring
  {
    var t := LeftRing(g, p);
    map q | q in g && q != p ::
      Links(g[q].ptr, if q == g[p].prev then g[p].next else g[q].next, if q == g[p].next then g[p].prev else g[q].prev,
            if q in t then t else g[q].ring)
  }

  lemma LeftFields(g: Graph, p: LinkedPtr)
    requires p in g && p in g[p].ring
    ensures Left(g, p).Keys == g.Keys - {p}
    ensures forall q <- Left(g, p) :: var links := Left(g, p)[q];
      && links.ptr == g[q].ptr && links.next == (if q == g[p].prev then g[p].next else g[q].next)
      && links.prev == if q == g[p].next then g[p].prev else g[q].prev
  {
    hide LeftRing;
  }

  // ---------------------------------------------------------------- a change to one ring

  /** The ring `s` of `g` has become `t` in `h`; either may be empty. No other owns what `t` owns. */
  ghost predicate OneRingChanged(g: Graph, h: Graph, s: seq<LinkedPtr>, t: seq<LinkedPtr>) {
    && (forall p <- s :: p in g && g[p].ring == s)
    && (forall p <- t :: p in h && h[p].ring == t)
    && (forall p <- t :: p in s || p !in g)
    && (forall p <- h :: p in t || (p !in s && p in g && h[p] == g[p]))
    && (forall p <- g :: p in s || (p in h && h[p] == g[p]))
    && (t == [] || IsRing(h, t))
    && (forall p <- g, q <- t :: p !in s && q in h && g[p].ptr == h[q].ptr ==> g[p].ptr == null)
  }

  lemma OtherRingSame(g: Graph, h: Graph, s: seq<LinkedPtr>, t: seq<LinkedPtr>, p: LinkedPtr)
    requires Linked(g) && OneRingChanged(g, h, s, t) && p in h && p !in t
    ensures p in g && p !in s && h[p] == g[p] && p in h[p].ring && IsRing(g, g[p].ring)
    ensures forall q <- g[p].ring :: q in g && q in h && q !in t && h[q] == g[q] && g[q].ring == g[p].ring
  {
    hide IsRing;
    assert p in g && p !in s && h[p] == g[p];
    forall q <- g[p].ring ensures q in g && q !in s && g[q].ring == g[p].ring {
      assert p in g[p].ring;
    }
  }

  lemma RingStays(g: Graph, h: Graph, s: seq<LinkedPtr>)
    requires IsRing(g, s) && forall q <- s :: q in h && h[q] == g[q]
    ensures IsRing(h, s)
  {
  }

  lemma LinkedAfterChange(g: Graph, h: Graph, s: seq<LinkedPtr>, t: seq<LinkedPtr>)
    requires Linked(g) && OneRingChanged(g, h, s, t)
    ensures Linked(h)
  {
    hide IsRing;
    forall p <- h ensures
      && p in h[p].ring && (forall q <- h[p].ring :: q in h && h[q].ring == h[p].ring) && IsRing(h, h[p].ring)
    {
      if p !in t {
        OtherRingSame(g, h, s, t, p);
        RingStays(g, h, g[p].ring);
      }
    }
    forall p <- h, q <- h | h[p].ptr == h[q].ptr != null ensures h[p].ring == h[q].ring {
    }
  }

  // ---------------------------------------------------------------- the operations keep the rings

  ghost predicate LinkedAt(g: Graph, s: seq<LinkedPtr>, i: nat, x: Object?)
    requires i < |s|
  {
    s[i] in g && g[s[i]].next == s[Succ(i, |s|)] && g[s[i]].prev == s[Pred(i, |s|)] && g[s[i]].ptr == x
  }

  lemma RingFromLinks(g: Graph, s: seq<LinkedPtr>, x: Object?)
    requires s != [] && Distinct(s) && forall i :: 0 <= i < |s| ==> LinkedAt(g, s, i, x)
    ensures IsRing(g, s)
  {
    hide Distinct, Succ, Pred;
    forall p <- s ensures p in g && g[p].ptr == x {
      var i :| 0 <= i < |s| && s[i] == p;
      assert LinkedAt(g, s, i, x);
    }
    assert LinkedAt(g, s, 0, x);
    forall i | 0 <= i < |s| ensures g[s[i]].next == s[Succ(i, |s|)] && g[s[i]].prev == s[Pred(i, |s|)] {
      assert LinkedAt(g, s, i, x);
    }
  }

  /** The links of `h` are those of the ring `u` with `p` inserted behind its first. */
  ghost predicate Inserted(g: Graph, h: Graph, u: seq<LinkedPtr>, p: LinkedPtr) {
    && IsRing(g, u) && p !in u && p in h
    && h[p].ptr == g[u[0]].ptr && h[p].next == g[u[0]].next && h[p].prev == u[0]
    && forall q <- u ::
         && q in h && h[q].ptr == g[q].ptr
         && h[q].next == (if q == u[0] then p else g[q].next)
         && h[q].prev == (if q == g[u[0]].next then p else g[q].prev)
  }

  lemma InsertedAt(g: Graph, h: Graph, u: seq<LinkedPtr>, p: LinkedPtr, i: nat)
    requires Inserted(g, h, u, p) && i <= |u|
    ensures LinkedAt(h, u[1..] + [u[0], p], i, h[p].ptr)
  {
    var k, t := |u|, u[1..] + [u[0], p];
    assert g[u[0]].next == u[Succ(0, k)];
    if i < k {
      var j := Succ(i, k);
      assert t[i] == u[j] && u[j] in u;
      assert g[u[j]].next == u[Succ(j, k)] && g[u[j]].prev == u[Pred(j, k)];
      assert u[j] == u[0] <==> j == 0;
      assert u[j] == u[Succ(0, k)] <==> i == 0;
    }
  }

  lemma InsertIntoRing(g: Graph, h: Graph, u: seq<LinkedPtr>, p: LinkedPtr)
    requires Inserted(g, h, u, p)
    ensures IsRing(h, u[1..] + [u[0], p])
  {
    hide LinkedAt, Distinct;
    var t := u[1..] + [u[0], p];
    InsertedDistinct(u, p);
    forall i | 0 <= i < |t| ensures LinkedAt(h, t, i, h[p].ptr) {
      InsertedAt(g, h, u, p, i);
    }
    RingFromLinks(h, t, h[p].ptr);
  }

  lemma InsertedDistinct(u: seq<LinkedPtr>, p: LinkedPtr)
    requires u != [] && Distinct(u) && p !in u
    ensures Distinct(u[1..] + [u[0], p])
  {
    var t := u[1..] + [u[0], p];
    assert forall i :: 0 <= i < |u| ==> t[i] == u[Succ(i, |u|)] && t[i] in u;
  }

  /** The links of `h` are those of the ring `u` without its first. */
  ghost predicate Removed(g: Graph, h: Graph, u: seq<LinkedPtr>) {
    && IsRing(g, u) && |u| > 1
    && forall q <- u[1..] ::
         && q in h && h[q].ptr == g[q].ptr
         && h[q].next == (if q == g[u[0]].prev then g[u[0]].next else g[q].next)
         && h[q].prev == (if q == g[u[0]].next then g[u[0]].prev else g[q].prev)
  }

  lemma RemovedAt(g: Graph, h: Graph, u: seq<LinkedPtr>, i: nat)
    requires Removed(g, h, u) && i < |u| - 1
    ensures u[0] in g && LinkedAt(h, u[1..], i, g[u[0]].ptr)
  {
    var k, t := |u|, u[1..];
    assert g[u[0]].next == u[Succ(0, k)] && g[u[0]].prev == u[Pred(0, k)];
    var j := i + 1;
    assert t[i] == u[j] && u[j] in t && u[j] in u;
    assert g[u[j]].next == u[Succ(j, k)] && g[u[j]].prev == u[Pred(j, k)];
    assert u[j] == u[1] <==> j == 1;
    assert u[j] == u[k - 1] <==> j == k - 1;
  }

  lemma RemoveFromRing(g: Graph, h: Graph, u: seq<LinkedPtr>)
    requires Removed(g, h, u)
    ensures IsRing(h, u[1..])
  {
    hide LinkedAt;
    var t := u[1..];
    assert Distinct(t) && t != [];
    assert u[0] in u;
    forall i | 0 <= i < |t| ensures LinkedAt(h, t, i, g[u[0]].ptr) {
      RemovedAt(g, h, u, i);
    }
    RingFromLinks(h, t, g[u[0]].ptr);
  }

  lemma AloneLinked(g: Graph, p: LinkedPtr, x: Object?)
    requires Linked(g) && p !in g && (x == null || x !in Objects(g))
    ensures Linked(Alone(g, p, x)) && Objects(Alone(g, p, x)) == Objects(g) + if x == null then {} else {x}
  {
    hide Linked;
    var h := Alone(g, p, x);
    assert forall q <- g :: h[q] == g[q] && (g[q].ptr != null ==> g[q].ptr in Objects(g));
    assert h[p].ptr == x;
    LinkedAfterChange(g, h, [], [p]);
  }

  lemma JoinedElements(g: Graph, p: LinkedPtr, r: LinkedPtr)
    requires Linked(g) && r in g
    ensures r in g[r].ring
    ensures forall q <- JoinedRing(g, p, r) :: q in g[r].ring || q == p
    ensures forall q <- g[r].ring + [p] :: q in JoinedRing(g, p, r)
  {
    hide Linked, From, IsRing;
    RingMembers(g, r);
    var u := From(g[r].ring, r);
    assert u == [u[0]] + u[1..];
  }

  lemma JoinedIsRing(g: Graph, p: LinkedPtr, r: LinkedPtr)
    requires Linked(g) && p !in g && r in g
    ensures r in g[r].ring && IsRing(Joined(g, p, r), JoinedRing(g, p, r))
  {
    hide Linked, From, IsRing;
    RingMembers(g, r);
    InsertIntoRing(g, Joined(g, p, r), From(g[r].ring, r), p);
  }

  lemma JoinedLinked(g: Graph, p: LinkedPtr, r: LinkedPtr)
    requires Linked(g) && p !in g && r in g
    ensures r in g[r].ring && Linked(Joined(g, p, r)) && g[r].next in g
  {
    hide Linked, From, IsRing, JoinedRing;
    RingMembers(g, r);
    JoinedElements(g, p, r);
    JoinedIsRing(g, p, r);
    RingOwners(g, r);
    LinkedAfterChange(g, Joined(g, p, r), g[r].ring, JoinedRing(g, p, r));
  }

  lemma JoinedObjects(g: Graph, p: LinkedPtr, r: LinkedPtr)
    requires p !in g && r in g && r in g[r].ring
    ensures Objects(Joined(g, p, r)) == Objects(g)
  {
    hide JoinedRing;
    var h := Joined(g, p, r);
    assert forall q <- g :: q in h && h[q].ptr == g[q].ptr;
    assert h[p].ptr == g[r].ptr;
  }

  lemma LeftElements(g: Graph, p: LinkedPtr)
    requires Linked(g) && p in g
    ensures p in g[p].ring && (g[p].prev == p <==> g[p].ring == [p])
    ensures forall q <- LeftRing(g, p) :: q in g[p].ring && q != p
    ensures forall q <- g[p].ring :: q in LeftRing(g, p) || q == p
  {
    hide Linked, From;
    RingMembers(g, p);
    var u := From(g[p].ring, p);
    assert u == [u[0]] + u[1..];
  }

  lemma LeftIsRing(g: Graph, p: LinkedPtr)
    requires Linked(g) && p in g
    ensures p in g[p].ring && (LeftRing(g, p) == [] || IsRing(Left(g, p), LeftRing(g, p)))
  {
    hide Linked, From, IsRing;
    RingMembers(g, p);
    LeftElements(g, p);
    if LeftRing(g, p) != [] {
      RemoveFromRing(g, Left(g, p), From(g[p].ring, p));
    }
  }

  lemma LeftLinked(g: Graph, p: LinkedPtr)
    requires Linked(g) && p in g
    ensures p in g[p].ring && Linked(Left(g, p)) && g[p].next in g && g[p].prev in g
    ensures g[p].prev == p <==> g[p].next == p
  {
    hide Linked, From, IsRing, LeftRing;
    RingMembers(g, p);
    LeftElements(g, p);
    LeftIsRing(g, p);
    RingOwners(g, p);
    LinkedAfterChange(g, Left(g, p), g[p].ring, LeftRing(g, p));
  }

  lemma LeftObjects(g: Graph, p: LinkedPtr)
    requires p in g && p in g[p].ring
    ensures Objects(Left(g, p)) == Objects(g) - if OnlyOwner(g, p) then {g[p].ptr} else {}
  {
    hide LeftRing;
    var h := Left(g, p);
    assert forall q <- h :: q in g && q != p && h[q].ptr == g[q].ptr;
    forall x <- Objects(g) ensures x in Objects(h) || (OnlyOwner(g, p) && x == g[p].ptr) {
      var q :| q in g && g[q].ptr == x;
      if g[p].ptr == x && !OnlyOwner(g, p) {
        var other :| other in g && g[other].ptr == g[p].ptr && other != p;
        assert h[other].ptr == x;
      } else if q != p {
        assert h[q].ptr == x;
      }
    }
  }

  /** A pointer is alone in its ring exactly when no other holds the same object. */
  lemma AloneIffOnlyOwner(g: Graph, p: LinkedPtr)
    requires Linked(g) && p in g
    ensures g[p].prev == p <==> g[p].ring == [p]
    ensures g[p].ptr != null ==> (g[p].prev == p <==> OnlyOwner(g, p))
  {
    hide Linked, IsRing;
    RingMembers(g, p);
    RingOwners(g, p);
    assert g[p].prev in g[p].ring;
  }

  // ---------------------------------------------------------------- the code

  predicate Mirror(g: Graph, p: LinkedPtr)
    requires p in g
    reads p
  {
    p.itsPtr == g[p].ptr && p.itsNext == g[p].next && p.itsPrev == g[p].prev
  }

  /** Every object ever handed over is either owned, or has been deleted exactly once. */
  ghost predicate Balanced(g: Graph, adopted: set<Object>, deleted: seq<Object>) {
    && adopted == Objects(g) + ObjectsIn(deleted) && Objects(g) !! ObjectsIn(deleted)
    && forall i, j :: 0 <= i < j < |deleted| ==> deleted[i] != deleted[j]
  }

  ghost function ObjectsIn(s: seq<Object>): set<Object> {
    set x | x in s
  }

  lemma BalancedAfterLeave(g: Graph, p: LinkedPtr, adopted: set<Object>, deleted: seq<Object>)
    requires p in g && p in g[p].ring && Balanced(g, adopted, deleted)
    ensures Balanced(Left(g, p), adopted, deleted + if OnlyOwner(g, p) then [g[p].ptr] else [])
  {
    LeftObjects(g, p);
    if OnlyOwner(g, p) {
      assert g[p].ptr in Objects(g);
      hide Left, Objects;
      assert ObjectsIn(deleted + [g[p].ptr]) == ObjectsIn(deleted) + {g[p].ptr};
      assert g[p].ptr !in ObjectsIn(deleted);
    } else {
      assert deleted + [] == deleted;
    }
  }

  // ---------------------------------------------------------------- destruction

  /** How it ends when pointers are destroyed: what is left, and the objects deleted; or one is destroyed twice. */
  datatype End = Done(graph: Graph, deleted: seq<Object>) | Twice(again: LinkedPtr)

  /** The object that goes with its only owner, if `p` is one. */
  ghost function Dropped(g: Graph, p: LinkedPtr): (s: seq<Object>)
    requires p in g
  {
    if OnlyOwner(g, p) then [g[p].ptr] else []
  }

  /** The pointers in these objects. */
  function Members(objects: seq<Object>): seq<LinkedPtr> {
    if objects == [] then [] else Members(objects[..|objects| - 1]) + objects[|objects| - 1].members
  }

  /** These objects have been deleted before. */
  function Behind(deleted: seq<Object>, end: End): End {
    if end.Twice? then end else Done(end.graph, deleted + end.deleted)
  }

  /** Pointers are destroyed one after the other, and in between, with each object that goes, those in it. */
  ghost function Destroy(g: Graph, todo: seq<LinkedPtr>): End
    decreases |g|, |todo|
  {
    if todo == [] then Done(g, [])
    else if todo[0] !in g || todo[0] !in g[todo[0]].ring then Twice(todo[0])
    else
      var p := todo[0];
      LeftSmaller(g, p);
      Behind(Dropped(g, p), Destroy(Left(g, p), Members(Dropped(g, p)) + todo[1..]))
  }

  lemma LeftSmaller(g: Graph, p: LinkedPtr)
    requires p in g && p in g[p].ring
    ensures |Left(g, p)| < |g|
  {
    LeftFields(g, p);
    hide Left;
    assert g.Keys == Left(g, p).Keys + {p};
    assert |Left(g, p).Keys| < |g.Keys|;
  }

  lemma FewerKeys(g: Graph, h: Graph)
    requires g.Keys <= h.Keys
    ensures |g| <= |h|
  {
    assert h.Keys == g.Keys + (h.Keys - g.Keys);
    assert |g.Keys| <= |h.Keys|;
  }

  lemma DestroyStep(g: Graph, todo: seq<LinkedPtr>)
    requires Linked(g) && todo != []
    ensures todo[0] !in g ==> Destroy(g, todo) == Twice(todo[0])
    ensures todo[0] in g ==>
      && todo[0] in g[todo[0]].ring && Linked(Left(g, todo[0])) && |Left(g, todo[0])| < |g|
      && var x := Dropped(g, todo[0]);
         Destroy(g, todo) == Behind(x, Destroy(Left(g, todo[0]), Members(x) + todo[1..]))
  {
    hide Linked, Left, OnlyOwner;
    if todo[0] in g {
      LeftLinked(g, todo[0]);
      LeftSmaller(g, todo[0]);
    }
  }

  lemma DestroyNothing(g: Graph)
    ensures Destroy(g, []) == Done(g, [])
  {
  }

  lemma DestroyFirst(g: Graph, todo: seq<LinkedPtr>, gone: seq<Object>, end: End)
    requires Linked(g) && todo != [] && end == Behind(gone, Destroy(g, todo)) && end.Done?
    ensures var one := Destroy(g, [todo[0]]);
      && todo[0] in g && one.Done? && Linked(one.graph) && one.graph.Keys <= g.Keys && |one.graph| <= |g|
      && end == Behind(gone + one.deleted, Destroy(one.graph, todo[1..]))
  {
    hide Linked, Destroy, Left, Dropped, Members, OnlyOwner;
    assert todo == [todo[0]] + todo[1..];
    DestroyConcat(g, [todo[0]], todo[1..]);
    DestroyStep(g, [todo[0]]);
    var one := Destroy(g, [todo[0]]);
    DestroyKeeps(g, [todo[0]]);
    FewerKeys(one.graph, g);
    var rest := Destroy(one.graph, todo[1..]);
    assert rest.Done? ==> gone + (one.deleted + rest.deleted) == gone + one.deleted + rest.deleted;
  }

  /** What is left is in rings and holds what it held. */
  lemma {:induction false} DestroyKeeps(g: Graph, todo: seq<LinkedPtr>)
    requires Linked(g) && Destroy(g, todo).Done?
    ensures var h := Destroy(g, todo).graph;
      && Linked(h) && h.Keys <= g.Keys && (forall q <- h :: h[q].ptr == g[q].ptr)
      && (forall q <- todo :: q !in h)
    decreases |g|, |todo|
  {
    hide Linked, Left, OnlyOwner, Destroy;
    if todo == [] {
      DestroyNothing(g);
    } else {
      DestroyStep(g, todo);
      LeftFields(g, todo[0]);
      DestroyKeeps(Left(g, todo[0]), Members(Dropped(g, todo[0])) + todo[1..]);
    }
  }

  /** What is left is in rings, every object that has gone has been deleted once, and nothing else has changed. */
  lemma {:induction false} DestroyBalanced(g: Graph, todo: seq<LinkedPtr>, adopted: set<Object>, deleted: seq<Object>)
    requires Linked(g) && Balanced(g, adopted, deleted) && Destroy(g, todo).Done?
    ensures var end := Destroy(g, todo);
      && Linked(end.graph) && Balanced(end.graph, adopted, deleted + end.deleted)
      && end.graph.Keys <= g.Keys && forall q <- end.graph :: end.graph[q].ptr == g[q].ptr
    decreases |g|, |todo|
  {
    hide Linked, Balanced, Left, OnlyOwner, Destroy;
    if todo == [] {
      DestroyNothing(g);
      assert deleted + [] == deleted;
    } else {
      var p := todo[0];
      DestroyStep(g, todo);
      BalancedAfterLeave(g, p, adopted, deleted);
      LeftFields(g, p);
      var rest := Members(Dropped(g, p)) + todo[1..];
      DestroyBalanced(Left(g, p), rest, adopted, deleted + Dropped(g, p));
      var end := Destroy(Left(g, p), rest);
      assert deleted + (Dropped(g, p) + end.deleted) == deleted + Dropped(g, p) + end.deleted;
    }
  }

  /** One list after another. */
  lemma {:induction false} DestroyConcat(g: Graph, first: seq<LinkedPtr>, second: seq<LinkedPtr>)
    requires Linked(g)
    ensures var end := Destroy(g, first);
      if end.Twice? then Destroy(g, first + second) == end
      else Linked(end.graph) && Destroy(g, first + second) == Behind(end.deleted, Destroy(end.graph, second))
    decreases |g|, |first|
  {
    hide Linked, Left, OnlyOwner, Destroy, Dropped;
    var all := first + second;
    if first == [] {
      DestroyNothing(g);
      assert all == second;
      var end := Destroy(g, second);
      assert end.Done? ==> [] + end.deleted == end.deleted;
    } else {
      DestroyStep(g, first);
      DestroyStep(g, all);
      if first[0] in g {
        var x := Dropped(g, first[0]);
        var rest := Members(x) + first[1..];
        assert Members(x) + all[1..] == rest + second;
        DestroyConcat(Left(g, first[0]), rest, second);
        var mid := Destroy(Left(g, first[0]), rest);
        if mid.Done? {
          var end := Destroy(mid.graph, second);
          assert end.Done? ==> x + (mid.deleted + end.deleted) == x + mid.deleted + end.deleted;
        }
      }
    }
  }

  // ---------------------------------------------------------------- what is destroyed with a pointer

  /** No pointer is in two places, and those in objects that are owned have not been destroyed. */
  ghost predicate Nested(g: Graph) {
    && (forall x <- Objects(g) :: Distinct(x.members) && forall q <- x.members :: q in g)
    && (forall x <- Objects(g), y <- Objects(g) :: x != y ==> forall q <- x.members :: q !in y.members)
  }

  /** Each of these objects has an owner other than `p`, and outside all objects or in one of these. */
  ghost predicate Supported(g: Graph, p: LinkedPtr, kept: set<Object>) {
    kept <= Objects(g) && forall y <- kept :: HasSupport(g, p, kept, y)
  }

  ghost predicate HasSupport(g: Graph, p: LinkedPtr, kept: set<Object>, y: Object) {
    exists q <- g :: q != p && g[q].ptr == y && forall x <- Objects(g) :: q in x.members ==> x in kept
  }

  /** Nothing that stays when `p` is destroyed keeps this object. */
  ghost predicate Doomed(g: Graph, p: LinkedPtr, y: Object) {
    y in Objects(g) && forall kept: set<Object> | kept <= Objects(g) :: Supported(g, p, kept) ==> y !in kept
  }

  /**
   On the way from `g0`: `history` has been destroyed, and `objects` have been deleted, all of them doomed. What has
   been destroyed and what is to be are `p` and what is in those objects.
   */
  ghost predicate OnTheWay(g0: Graph, p: LinkedPtr, g: Graph, history: seq<LinkedPtr>, todo: seq<LinkedPtr>,
                           objects: seq<Object>)
  {
    && g.Keys == g0.Keys - Elements(history) && (forall q <- g :: g[q].ptr == g0[q].ptr)
    && Distinct(history) && (forall q <- history :: q in g0)
    && multiset(history) + multiset(todo) == multiset{p} + multiset(Members(objects))
    && (forall i, j :: 0 <= i < j < |objects| ==> objects[i] != objects[j])
    && (forall x <- objects :: Doomed(g0, p, x))
    && Objects(g) == Objects(g0) - ObjectsIn(objects)
  }

  ghost function Elements(s: seq<LinkedPtr>): set<LinkedPtr> {
    set q | q in s
  }

  lemma MemberOf(objects: seq<Object>, q: LinkedPtr)
    ensures q in Members(objects) <==> exists x <- objects :: q in x.members
    decreases |objects|
  {
    if objects != [] {
      var front, last := objects[..|objects| - 1], objects[|objects| - 1];
      MemberOf(front, q);
      assert objects == front + [last] && last in objects;
      if x :| x in objects && q in x.members && q !in last.members {
        assert x in front;
      }
    }
  }

  lemma {:induction false} MembersOnce(g: Graph, objects: seq<Object>, q: LinkedPtr)
    requires Nested(g) && forall i, j :: 0 <= i < j < |objects| ==> objects[i] != objects[j]
    requires forall x <- objects :: x in Objects(g)
    ensures multiset(Members(objects))[q] <= 1
    decreases |objects|
  {
    hide Objects;
    if objects != [] {
      var front, last := objects[..|objects| - 1], objects[|objects| - 1];
      MembersOnce(g, front, q);
      assert last in objects && forall x <- front :: x in objects && x != last;
      MemberOf(front, q);
      OnceIn(last.members, q);
      if q in last.members {
        assert q !in Members(front);
      }
    }
  }

  lemma {:induction false} OnceIn(s: seq<LinkedPtr>, q: LinkedPtr)
    requires Distinct(s)
    ensures multiset(s)[q] <= 1
    decreases |s|
  {
    if s != [] {
      var front, last := s[..|s| - 1], s[|s| - 1];
      OnceIn(front, q);
      assert s == front + [last];
      assert last !in front;
    }
  }

  /** A sole owner on the way: its object is kept by nothing that stays. */
  lemma SoleIsDoomed(g0: Graph, p: LinkedPtr, g: Graph, history: seq<LinkedPtr>, todo: seq<LinkedPtr>,
                     objects: seq<Object>)
    requires OnTheWay(g0, p, g, history, todo, objects) && p in g0
    requires todo != [] && todo[0] in g && OnlyOwner(g, todo[0])
    ensures Doomed(g0, p, g[todo[0]].ptr)
  {
    hide Doomed;
    var y := g[todo[0]].ptr;
    assert y in Objects(g0);
    forall kept: set<Object> | kept <= Objects(g0) && Supported(g0, p, kept) ensures y !in kept {
      if y in kept {
        assert HasSupport(g0, p, kept, y);
        var q :| q in g0 && q != p && g0[q].ptr == y && forall x <- Objects(g0) :: q in x.members ==> x in kept;
        OwnerIsInside(g0, p, g, history, todo, objects, q);
        var x :| x in objects && q in x.members;
        DoomedIsNotKept(g0, p, x, kept);
        assert false;
      }
    }
    DoomedIf(g0, p, y);
  }

  lemma DoomedIsNotKept(g: Graph, p: LinkedPtr, x: Object, kept: set<Object>)
    requires Doomed(g, p, x) && Supported(g, p, kept)
    ensures x in Objects(g) && x !in kept
  {
  }

  lemma DoomedIf(g: Graph, p: LinkedPtr, y: Object)
    requires y in Objects(g)
    requires forall kept: set<Object> | kept <= Objects(g) && Supported(g, p, kept) :: y !in kept
    ensures Doomed(g, p, y)
  {
  }

  /** Every other owner of that object has been destroyed before, as part of an object. */
  lemma OwnerIsInside(g0: Graph, p: LinkedPtr, g: Graph, history: seq<LinkedPtr>, todo: seq<LinkedPtr>,
                      objects: seq<Object>, q: LinkedPtr)
    requires OnTheWay(g0, p, g, history, todo, objects)
    requires todo != [] && todo[0] in g && OnlyOwner(g, todo[0])
    requires q in g0 && q != p && g0[q].ptr == g[todo[0]].ptr
    ensures exists x <- objects :: q in x.members
  {
    hide Doomed, Objects;
    if q in g {
      assert q == todo[0] && q in todo;
    } else {
      assert q in history;
    }
    assert q in multiset(history) + multiset(todo);
    assert q in multiset(Members(objects));
    MemberOf(objects, q);
  }

  lemma CountStep(history: seq<LinkedPtr>, todo: seq<LinkedPtr>, inner: seq<LinkedPtr>, all: multiset<LinkedPtr>)
    requires todo != [] && multiset(history) + multiset(todo) == all
    ensures multiset(history + [todo[0]]) + multiset(inner + todo[1..]) == all + multiset(inner)
  {
    assert todo == [todo[0]] + todo[1..];
  }

  lemma KeysStep(g0: Graph, g: Graph, h: Graph, history: seq<LinkedPtr>, q: LinkedPtr)
    requires g.Keys == g0.Keys - Elements(history) && q in g && h.Keys == g.Keys - {q}
    requires Distinct(history) && forall r <- history :: r in g0
    ensures h.Keys == g0.Keys - Elements(history + [q])
    ensures Distinct(history + [q]) && forall r <- history + [q] :: r in g0
  {
    assert q !in history;
  }

  lemma ObjectsStep(g0: Graph, p: LinkedPtr, g: Graph, h: Graph, objects: seq<Object>, x: seq<Object>)
    requires forall i, j :: 0 <= i < j < |objects| ==> objects[i] != objects[j]
    requires forall y <- objects + x :: Doomed(g0, p, y)
    requires Objects(g) == Objects(g0) - ObjectsIn(objects) && Objects(h) == Objects(g) - ObjectsIn(x)
    requires |x| <= 1 && forall y <- x :: y in Objects(g)
    ensures var all := objects + x;
      && (forall i, j :: 0 <= i < j < |all| ==> all[i] != all[j]) && (forall y <- all :: Doomed(g0, p, y))
      && Objects(h) == Objects(g0) - ObjectsIn(all)
  {
    hide Doomed, Objects;
    assert ObjectsIn(objects + x) == ObjectsIn(objects) + ObjectsIn(x);
    forall i | 0 <= i < |objects| && x != [] ensures objects[i] != x[0] {
      assert objects[i] in ObjectsIn(objects) && x[0] in x;
    }
  }

  lemma DroppedFacts(g: Graph, q: LinkedPtr)
    requires q in g && q in g[q].ring
    ensures |Dropped(g, q)| <= 1 && Objects(Left(g, q)) == Objects(g) - ObjectsIn(Dropped(g, q))
    ensures forall y <- Dropped(g, q) :: OnlyOwner(g, q) && y == g[q].ptr && y in Objects(g)
  {
    LeftObjects(g, q);
  }

  /** A further pointer is destroyed. */
  lemma OneStep(g0: Graph, p: LinkedPtr, g: Graph, history: seq<LinkedPtr>, todo: seq<LinkedPtr>, objects: seq<Object>)
    requires OnTheWay(g0, p, g, history, todo, objects) && p in g0 && todo != [] && todo[0] in g
    requires todo[0] in g[todo[0]].ring
    ensures var q := todo[0];
      OnTheWay(g0, p, Left(g, q), history + [q], Members(Dropped(g, q)) + todo[1..], objects + Dropped(g, q))
  {
    hide Left, Doomed, Objects, OnlyOwner, Members, Distinct, Dropped;
    var q, x := todo[0], Dropped(g, todo[0]);
    var h := Left(g, q);
    LeftFields(g, q);
    DroppedFacts(g, q);
    if OnlyOwner(g, q) {
      SoleIsDoomed(g0, p, g, history, todo, objects);
    }
    MembersConcat(objects, x);
    CountStep(history, todo, Members(x), multiset{p} + multiset(Members(objects)));
    KeysStep(g0, g, h, history, q);
    ObjectsStep(g0, p, g, h, objects, x);
  }

  lemma MembersStep(objects: seq<Object>, x: Object)
    ensures Members(objects + [x]) == Members(objects) + x.members
  {
    assert (objects + [x])[..|objects|] == objects;
  }

  lemma {:induction false} MembersConcat(a: seq<Object>, b: seq<Object>)
    ensures Members(a + b) == Members(a) + Members(b)
    decreases |b|
  {
    hide Members;
    if b == [] {
      MembersOfNone();
      assert a + b == a && Members(a) + [] == Members(a);
    } else {
      var front, last := b[..|b| - 1], b[|b| - 1];
      assert b == front + [last] && a + b == a + front + [last];
      MembersConcat(a, front);
      MembersStep(front, last);
      MembersStep(a + front, last);
      assert Members(a) + (Members(front) + last.members) == Members(a) + Members(front) + last.members;
    }
  }

  /** A pointer can only be destroyed again if it is the first, and in an object that is doomed with it. */
  lemma AgainIsFirst(g0: Graph, p: LinkedPtr, g: Graph, history: seq<LinkedPtr>, todo: seq<LinkedPtr>,
                     objects: seq<Object>)
    requires OnTheWay(g0, p, g, history, todo, objects) && p in g0 && Nested(g0) && todo != [] && todo[0] !in g
    ensures todo[0] == p && exists x <- Objects(g0) :: p in x.members && Doomed(g0, p, x)
  {
    hide Doomed, Objects;
    var q := todo[0];
    forall x <- objects ensures x in Objects(g0) {
      DoomedIsObject(g0, p, x);
    }
    MembersOnce(g0, objects, q);
    MemberOf(objects, q);
    assert q in multiset(history) + multiset(todo) && q in multiset{p} + multiset(Members(objects));
    assert q in g0;
    assert q in history;
    assert (multiset(history) + multiset(todo))[q] >= 2;
    assert (multiset{p} + multiset(Members(objects)))[q] == multiset{p}[q] + multiset(Members(objects))[q];
    assert q == p && q in Members(objects);
  }

  lemma DoomedIsObject(g: Graph, p: LinkedPtr, x: Object)
    requires Doomed(g, p, x)
    ensures x in Objects(g)
  {
  }

  lemma {:induction false} Follow(g0: Graph, p: LinkedPtr, g: Graph, history: seq<LinkedPtr>, todo: seq<LinkedPtr>,
                                  objects: seq<Object>)
    returns (all: seq<LinkedPtr>)
    requires Linked(g) && Nested(g0) && OnTheWay(g0, p, g, history, todo, objects) && p in g0
    ensures var end := Destroy(g, todo);
      if end.Twice? then end.again == p && exists x <- Objects(g0) :: p in x.members && Doomed(g0, p, x)
      else OnTheWay(g0, p, end.graph, all, [], objects + end.deleted)
    decreases |g|, |todo|
  {
    hide Linked, Left, Destroy, Nested, OnTheWay, Doomed, Dropped, Objects;
    all := history;
    if todo == [] {
      DestroyNothing(g);
      assert objects + [] == objects;
    } else {
      DestroyStep(g, todo);
      if todo[0] in g {
        OneStep(g0, p, g, history, todo, objects);
        var q, x := todo[0], Dropped(g, todo[0]);
        all := Follow(g0, p, Left(g, q), history + [q], Members(x) + todo[1..], objects + x);
        var end := Destroy(Left(g, q), Members(x) + todo[1..]);
        assert end.Done? ==> objects + (x + end.deleted) == objects + x + end.deleted;
      } else {
        AgainIsFirst(g0, p, g, history, todo, objects);
      }
    }
  }

  lemma Begun(g: Graph, p: LinkedPtr)
    requires Linked(g) && p in g
    ensures OnTheWay(g, p, g, [], [p], [])
  {
    hide Linked, Objects;
    assert Elements([]) == {} && ObjectsIn([]) == {};
  }

  /** What is left at the end are the objects that something keeps. */
  lemma LeftIsSupported(g: Graph, p: LinkedPtr, h: Graph, all: seq<LinkedPtr>, deleted: seq<Object>)
    requires OnTheWay(g, p, h, all, [], deleted)
    ensures Supported(g, p, Objects(h))
  {
    hide Doomed;
    assert multiset(all) + multiset{} == multiset(all);
    assert p in multiset{p} + multiset(Members(deleted));
    assert p in all;
    forall y <- Objects(h) ensures HasSupport(g, p, Objects(h), y) {
      var q :| q in h && h[q].ptr == y;
      forall x <- Objects(g) | q in x.members ensures x in Objects(h) {
        MemberOf(deleted, q);
        assert q !in all && q !in multiset{p} + multiset(Members(deleted));
      }
    }
  }

  /** Exactly the doomed objects are deleted. */
  lemma DeletedIff(g: Graph, p: LinkedPtr, y: Object)
    requires Linked(g) && Nested(g) && p in g && Destroy(g, [p]).Done?
    ensures y in Destroy(g, [p]).deleted <==> Doomed(g, p, y)
  {
    hide Linked, Nested, Destroy, Doomed, Supported;
    Begun(g, p);
    var all := Follow(g, p, g, [], [p], []);
    var end := Destroy(g, [p]);
    assert [] + end.deleted == end.deleted;
    LeftIsSupported(g, p, end.graph, all, end.deleted);
    if Doomed(g, p, y) {
      DoomedIsNotKept(g, p, y, Objects(end.graph));
    }
  }

  /**
   Destroying a pointer deletes each object once, unless the pointer lies in one of them: then it is destroyed again
   while it is being destroyed.
   */
  lemma DestroyedTwiceIff(g: Graph, p: LinkedPtr)
    requires Linked(g) && Nested(g) && p in g
    ensures Destroy(g, [p]).Twice? <==> exists x <- Objects(g) :: p in x.members && Doomed(g, p, x)
  {
    hide Linked, Nested, Destroy, Doomed, Objects;
    Begun(g, p);
    var all := Follow(g, p, g, [], [p], []);
    var end := Destroy(g, [p]);
    if end.Done? {
      assert [] + end.deleted == end.deleted;
      forall x <- Objects(g) | p in x.members ensures !Doomed(g, p, x) {
        if Doomed(g, p, x) {
          DeletedIff(g, p, x);
          TwiceInAll(g, p, end.graph, all, end.deleted, x);
        }
      }
    }
  }

  lemma TwiceInAll(g: Graph, p: LinkedPtr, h: Graph, all: seq<LinkedPtr>, deleted: seq<Object>, x: Object)
    requires OnTheWay(g, p, h, all, [], deleted)
    ensures !(x in deleted && p in x.members)
  {
    hide Doomed, Objects;
    MemberOf(deleted, p);
    OnceIn(all, p);
    assert multiset(all) + multiset{} == multiset(all);
    assert (multiset{p} + multiset(Members(deleted)))[p] == 1 + multiset(Members(deleted))[p];
  }

  /** Exactly the pointer and those in the doomed objects are destroyed. */
  lemma DestroyedIff(g: Graph, p: LinkedPtr, q: LinkedPtr)
    requires Linked(g) && Nested(g) && p in g && q in g && Destroy(g, [p]).Done?
    ensures q !in Destroy(g, [p]).graph <==> q == p || exists x <- Objects(g) :: q in x.members && Doomed(g, p, x)
  {
    hide Linked, Nested, Destroy, Doomed, Objects, OnTheWay;
    Begun(g, p);
    var all := Follow(g, p, g, [], [p], []);
    var end := Destroy(g, [p]);
    assert [] + end.deleted == end.deleted;
    GoneIs(g, p, end.graph, all, end.deleted, q);
    if x :| x in end.deleted && q in x.members {
      DeletedIff(g, p, x);
      DoomedIsObject(g, p, x);
    }
    if x :| x in Objects(g) && q in x.members && Doomed(g, p, x) {
      DeletedIff(g, p, x);
    }
  }

  lemma GoneIs(g: Graph, p: LinkedPtr, h: Graph, all: seq<LinkedPtr>, deleted: seq<Object>, q: LinkedPtr)
    requires OnTheWay(g, p, h, all, [], deleted) && q in g
    ensures q !in h <==> q == p || exists x <- deleted :: q in x.members
  {
    hide Doomed, Objects, Members;
    assert multiset(all) + multiset{} == multiset(all);
    MemberOf(deleted, q);
    assert q in all <==> q in multiset{p} + multiset(Members(deleted));
    assert q in h <==> q !in Elements(all);
  }

  /** The assignment `p = r` does not read or change what has been destroyed. */
  ghost predicate Sound(g: Graph, p: LinkedPtr, r: LinkedPtr) {
    p == r || (Destroy(g, [p]).Done? && r in Destroy(g, [p]).graph)
  }

  /** And that exactly if neither of the two lies in an object that goes with the old value of `p`. */
  lemma AssignIsSoundIff(g: Graph, p: LinkedPtr, r: LinkedPtr)
    requires Linked(g) && Nested(g) && p in g && r in g && p != r
    ensures Sound(g, p, r) <==>
      forall x <- Objects(g) :: Doomed(g, p, x) ==> p !in x.members && r !in x.members
  {
    hide Linked, Nested, Destroy, Doomed, Objects;
    DestroyedTwiceIff(g, p);
    if Destroy(g, [p]).Done? {
      DestroyedIff(g, p, r);
    }
  }

  /** For instance `p = p->next`, where `p` is the only owner of a node: the pointer is destroyed before it is read. */
  lemma NextIsDestroyed(g: Graph, p: LinkedPtr, next: LinkedPtr)
    requires Linked(g) && Nested(g) && p in g && OnlyOwner(g, p) && next in g[p].ptr.members && p != next
    ensures next in g && !Sound(g, p, next)
  {
    hide Linked, Destroy;
    Begun(g, p);
    SoleIsDoomed(g, p, g, [], [p], []);
    assert g[p].ptr in Objects(g);
    AssignIsSoundIff(g, p, next);
  }

  /** These pointers have been destroyed, and what had to go with them. */
  ghost predicate Destroyed(g: Graph, todo: seq<LinkedPtr>, deleted: seq<Object>, h: Graph, now: seq<Object>) {
    var end := Destroy(g, todo);
    end.Done? && h == end.graph && now == deleted + end.deleted
  }

  lemma ReleaseIs(g: Graph, p: LinkedPtr)
    requires Linked(g) && p in g
    ensures p in g[p].ring && g[p].next in g && g[p].prev in g && (g[p].prev == p <==> g[p].next == p)
    ensures Linked(Left(g, p)) && |Left(g, p)| < |g| && Left(g, p).Keys == g.Keys - {p}
    ensures var x := Dropped(g, p);
      && Destroy(g, [p]) == Behind(x, Destroy(Left(g, p), Members(x)))
      && x == (if OnlyOwner(g, p) then [g[p].ptr] else [])
      && (OnlyOwner(g, p) ==> g[p].ptr != null && Members(x) == g[p].ptr.members)
      && (!OnlyOwner(g, p) ==> Destroy(Left(g, p), Members(x)) == Done(Left(g, p), []))
  {
    hide Linked, Left, Destroy, OnlyOwner, Members;
    LeftLinked(g, p);
    LeftFields(g, p);
    DestroyStep(g, [p]);
    var x := Dropped(g, p);
    assert [p][1..] == [] && Members(x) + [] == Members(x);
    if OnlyOwner(g, p) {
      OwnsSomething(g, p);
      MembersOfOne(g[p].ptr);
    } else {
      MembersOfNone();
      DestroyNothing(Left(g, p));
    }
  }

  lemma ReleaseEnds(g: Graph, p: LinkedPtr, before: seq<Object>, h: Graph, now: seq<Object>)
    requires Linked(g) && p in g && p in g[p].ring
    requires if OnlyOwner(g, p) then g[p].ptr != null
        && Destroyed(Left(g, p), g[p].ptr.members, before + Dropped(g, p), h, now)
      else h == Left(g, p) && now == before + Dropped(g, p)
    ensures Destroyed(g, [p], before, h, now) && p !in h
  {
    hide Linked, Left, Destroy, OnlyOwner, Dropped, Members;
    ReleaseIs(g, p);
    var x := Dropped(g, p);
    var end := Destroy(Left(g, p), Members(x));
    DestroyKeeps(Left(g, p), Members(x));
    assert before + (x + end.deleted) == before + x + end.deleted;
    assert x + [] == x;
  }

  lemma OwnsSomething(g: Graph, p: LinkedPtr)
    requires p in g && OnlyOwner(g, p)
    ensures g[p].ptr != null
  {
  }

  lemma MembersOfOne(x: Object)
    ensures Members([x]) == x.members
  {
    assert [x][..0] == [] && [] + x.members == x.members;
  }

  lemma MembersOfNone()
    ensures Members([]) == []
  {
  }

  /** The pointer has lost its value, with what had to go, and joined the ring of `r`; no other holds anything new. */
  ghost predicate Assigned(g: Graph, p: LinkedPtr, r: LinkedPtr, deleted: seq<Object>, h: Graph, now: seq<Object>) {
    && (if p == r then h == g && now == deleted
        else
          var end := Destroy(g, [p]);
          && end.Done? && now == deleted + end.deleted
          && r in end.graph && r in end.graph[r].ring && h == Joined(end.graph, p, r))
    && p in h && r in g && h[p].ptr == g[r].ptr && forall q <- h :: q != p ==> q in g && h[q].ptr == g[q].ptr
  }

  lemma SurvivorsAreNotDoomed(g: Graph, p: LinkedPtr, x: Object)
    requires Linked(g) && Nested(g) && p in g && Destroy(g, [p]).Done? && x in Objects(Destroy(g, [p]).graph)
    ensures x in Objects(g) && !Doomed(g, p, x)
  {
    hide Linked, Nested, Destroy, Doomed, Objects;
    Begun(g, p);
    var all := Follow(g, p, g, [], [p], []);
    var end := Destroy(g, [p]);
    assert [] + end.deleted == end.deleted;
    DeletedIff(g, p, x);
  }

  /** Through an assignment every pointer stays in one place, and those in objects that are owned stay alive. */
  lemma AssignKeepsNested(g: Graph, p: LinkedPtr, r: LinkedPtr, deleted: seq<Object>, h: Graph, now: seq<Object>)
    requires Linked(g) && Nested(g) && p in g && Assigned(g, p, r, deleted, h, now)
    ensures Nested(h)
  {
    hide Linked, Nested, Destroy, Doomed, Objects, Joined;
    if p != r {
      var end := Destroy(g, [p]);
      DestroyKeeps(g, [p]);
      assert p in [p];
      JoinedObjects(end.graph, p, r);
      JoinedFields(end.graph, p, r);
      forall x <- Objects(h) ensures x in Objects(g) && forall q <- x.members :: q in h {
        SurvivorsAreNotDoomed(g, p, x);
        forall q <- x.members ensures q in h {
          MemberSurvives(g, p, x, q);
        }
      }
      NestedFrom(g, h);
    }
  }

  lemma MemberSurvives(g: Graph, p: LinkedPtr, x: Object, q: LinkedPtr)
    requires Linked(g) && Nested(g) && p in g && Destroy(g, [p]).Done?
    requires x in Objects(Destroy(g, [p]).graph) && q in x.members
    ensures q == p || q in Destroy(g, [p]).graph
  {
    hide Linked, Destroy, Doomed, Objects;
    SurvivorsAreNotDoomed(g, p, x);
    DestroyedIff(g, p, q);
  }

  lemma NestedFrom(g: Graph, h: Graph)
    requires Nested(g) && forall x <- Objects(h) :: x in Objects(g) && forall q <- x.members :: q in h
    ensures Nested(h)
  {
    hide Objects, Distinct;
  }

  class Heap {
    /** The fields of all live pointers, objects ever handed to a pointer, and objects deleted, in order. */
    ghost var graph: Graph
    ghost var adopted: set<Object>
    ghost var deleted: seq<Object>

    constructor ()
      ensures Valid() && graph == map[] && adopted == {} && deleted == []
    {
      graph, adopted, deleted := map[], {}, [];
    }

    /** The graph is what the fields say. */
    ghost predicate Mirrors()
      reads this, graph.Keys
    {
      forall p <- graph :: Mirror(graph, p)
    }

    /** The live pointers are linked in rings, one for each object, and all objects are accounted for. */
    ghost predicate Valid()
      reads this, graph.Keys
    {
      Mirrors() && Linked(graph) && Balanced(graph, adopted, deleted)
    }
  }

  class LinkedPtr {
    var itsPtr: Object?
    var itsPrev: LinkedPtr?
    var itsNext: LinkedPtr?

    /** linked_ptr(p), for an object that no pointer has owned before. */
    constructor (heap: Heap, p: Object?)
      requires heap.Valid() && (p == null || p !in heap.adopted)
      modifies heap
      ensures heap.Valid() && this !in old(heap.graph) && heap.graph == Alone(old(heap.graph), this, p)
      ensures heap.deleted == old(heap.deleted)
      ensures heap.adopted == old(heap.adopted) + if p == null then {} else {p}
    {
      itsPtr, itsPrev, itsNext := p, this, this;
      new;
      hide Linked, Objects;
      ghost var g := heap.graph;
      AloneLinked(g, this, p);
      heap.graph := Alone(g, this, p);
      heap.adopted := heap.adopted + if p == null then {} else {p};
      assert heap.Mirrors();
    }

    /** The copy constructor. */
    constructor Copy(heap: Heap, r: LinkedPtr)
      requires heap.Valid() && r in heap.graph
      modifies heap, heap.graph.Keys
      ensures heap.Valid() && this !in old(heap.graph) && r in old(heap.graph[r].ring)
      ensures heap.graph == Joined(old(heap.graph), this, r)
      ensures heap.deleted == old(heap.deleted) && heap.adopted == old(heap.adopted)
    {
      itsPtr, itsPrev, itsNext := null, null, null;
      new;
      hide Linked, Objects, Joined;
      Acquire(heap, r);
    }

    /** Whether this pointer is alone; if it owns an object, that is to be its only owner. */
    method Unique(heap: Heap) returns (b: bool)
      requires heap.Valid() && this in heap.graph
      ensures b <==> heap.graph[this].ring == [this]
      ensures itsPtr != null ==> (b <==> OnlyOwner(heap.graph, this))
    {
      hide Linked, Objects;
      AloneIffOnlyOwner(heap.graph, this);
      assert Mirror(heap.graph, this);
      b := if itsPrev != null then itsPrev == this else true;
    }

    /** Inserts this pointer, which is in no ring, into the ring of `r`. */
    method Acquire(heap: Heap, r: LinkedPtr)
      requires heap.Valid() && this !in heap.graph && r in heap.graph
      modifies heap, heap.graph.Keys, this
      ensures heap.Valid() && r in old(heap.graph[r].ring) && heap.graph == Joined(old(heap.graph), this, r)
      ensures heap.deleted == old(heap.deleted) && heap.adopted == old(heap.adopted)
    {
      hide Linked, Objects, Joined;
      JoinedLinked(heap.graph, this, r);
      JoinedObjects(heap.graph, this, r);
      LinkBehind(heap, r);
    }

    /** The assignments of acquire(). */
    method SetLinks(r: LinkedPtr)
      requires this != r && r.itsNext != null && r.itsNext != this
      modifies this, r`itsNext, r.itsNext`itsPrev
      ensures itsPtr == r.itsPtr && itsNext == old(r.itsNext) && itsPrev == r && r.itsNext == this
      ensures old(r.itsNext).itsPrev == this
    {
      itsPtr := r.itsPtr;
      itsNext := r.itsNext;
      itsNext.itsPrev := this;
      itsPrev := r;
      r.itsNext := this;
    }

    method LinkBehind(heap: Heap, r: LinkedPtr)
      requires heap.Mirrors() && this !in heap.graph && r in heap.graph
      requires r in heap.graph[r].ring && heap.graph[r].next in heap.graph
      modifies heap`graph, heap.graph.Keys, this
      ensures heap.Mirrors() && heap.graph == Joined(old(heap.graph), this, r)
    {
      hide Joined, Linked, IsRing;
      ghost var g := heap.graph;
      assert Mirror(g, r) && Mirror(g, g[r].next);
      SetLinks(r);
      assert forall q <- g ::
        && old(Mirror(g, q)) && q.itsPtr == g[q].ptr && q.itsNext == (if q == r then this else g[q].next)
        && q.itsPrev == if q == g[r].next then this else g[q].prev;
      heap.graph := Joined(g, this, r);
      JoinedFields(g, this, r);
    }

    /**
     Takes this pointer out of its ring; the last owner, and only that, deletes the object, whose destructor releases
     the pointers in it. That must not come back to this pointer: see DestroyedTwiceIff.
     */
    method Release(heap: Heap)
      requires heap.Valid() && this in heap.graph && Destroy(heap.graph, [this]).Done?
      modifies heap, heap.graph.Keys
      ensures heap.Valid() && itsPtr == null && heap.adopted == old(heap.adopted)
      ensures Destroyed(old(heap.graph), [this], old(heap.deleted), heap.graph, heap.deleted)
      decreases |heap.graph|, 0
    {
      hide Linked, Left, Destroy, OnlyOwner, Dropped, Members, Destroyed, Heap.Valid;
      ghost var g, before := heap.graph, heap.deleted;
      ValidReads(heap);
      ReleaseIs(g, this);
      var last := Leave(heap);
      if last && itsPtr != null {
        itsPtr.Destruct(heap);
      }
      ReleaseEnds(g, this, before, heap.graph, heap.deleted);
      itsPtr := null;
    }

    /** Leaves the ring; whether it has been alone there. */
    method Leave(heap: Heap) returns (last: bool)
      requires heap.Valid() && this in heap.graph
      modifies heap, heap.graph.Keys
      ensures heap.Valid() && this in old(heap.graph[this].ring) && heap.graph == Left(old(heap.graph), this)
      ensures heap.adopted == old(heap.adopted) && heap.deleted == old(heap.deleted) + old(Dropped(heap.graph, this))
      ensures itsPtr == old(heap.graph[this].ptr) && (last && itsPtr != null <==> old(OnlyOwner(heap.graph, this)))
    {
      hide Linked, Balanced, Left;
      ghost var g := heap.graph;
      LeftLinked(g, this);
      AloneIffOnlyOwner(g, this);
      BalancedAfterLeave(g, this, heap.adopted, heap.deleted);
      assert Mirror(g, this) && heap.deleted + [] == heap.deleted;
      last := Unique(heap);
      heap.deleted := heap.deleted + Dropped(g, this);
      Unlink(heap, last);
    }

    /** The assignments of release(), for a pointer that is not alone. */
    method CutOut()
      requires itsPrev != null && itsNext != null && itsPrev != this && itsNext != this
      modifies this`itsPrev, this`itsNext, itsPrev`itsNext, itsNext`itsPrev
      ensures old(itsPrev).itsNext == old(itsNext) && old(itsNext).itsPrev == old(itsPrev)
    {
      itsPrev.itsNext := itsNext;
      itsNext.itsPrev := itsPrev;
      itsPrev, itsNext := null, null;
    }

    method Unlink(heap: Heap, last: bool)
      requires heap.Mirrors() && this in heap.graph && this in heap.graph[this].ring
      requires heap.graph[this].next in heap.graph && heap.graph[this].prev in heap.graph
      requires last <==> heap.graph[this].prev == this
      requires heap.graph[this].next == this <==> last
      modifies heap`graph, heap.graph.Keys
      ensures heap.Mirrors() && heap.graph == Left(old(heap.graph), this) && itsPtr == old(itsPtr)
    {
      hide Left;
      ghost var g := heap.graph;
      assert Mirror(g, this) && Mirror(g, g[this].next) && Mirror(g, g[this].prev);
      if !last {
        CutOut();
      }
      assert forall q <- g | q != this ::
        && old(Mirror(g, q)) && q.itsPtr == g[q].ptr
        && q.itsNext == (if q == g[this].prev then g[this].next else g[q].next)
        && q.itsPrev == if q == g[this].next then g[this].prev else g[q].prev;
      heap.graph := Left(g, this);
      LeftFields(g, this);
    }

    /**
     Assignment. The code relies on neither this pointer nor `r` being in an object that goes with the old value: see
     AssignIsSoundIff.
     */
    method Assign(heap: Heap, r: LinkedPtr)
      requires heap.Valid() && this in heap.graph && r in heap.graph && Sound(heap.graph, this, r)
      modifies heap, heap.graph.Keys
      ensures heap.Valid() && heap.adopted == old(heap.adopted) && itsPtr == old(r.itsPtr)
      ensures Assigned(old(heap.graph), this, r, old(heap.deleted), heap.graph, heap.deleted)
    {
      hide Linked, Destroy, Heap.Valid, Joined;
      ghost var g := heap.graph;
      ValidReads(heap);
      if this != r {
        DestroyKeeps(g, [this]);
        assert this in [this];
        Reassign(heap, r);
        AssignedLinks(g, Destroy(g, [this]).graph, this, r);
        ValidReads(heap);
      }
    }

    /** The body of operator=, for another pointer. */
    method Reassign(heap: Heap, r: LinkedPtr)
      requires heap.Valid() && this in heap.graph && r in heap.graph
      requires Destroy(heap.graph, [this]).Done? && r in Destroy(heap.graph, [this]).graph
      modifies heap, heap.graph.Keys
      ensures heap.Valid() && heap.adopted == old(heap.adopted)
      ensures var end := Destroy(old(heap.graph), [this]);
        && heap.deleted == old(heap.deleted) + end.deleted
        && r in end.graph[r].ring && heap.graph == Joined(end.graph, this, r)
    {
      hide Linked, Destroy, Heap.Valid, Joined;
      ValidReads(heap);
      DestroyKeeps(heap.graph, [this]);
      assert this in [this];
      Release(heap);
      Acquire(heap, r);
    }
  }

  lemma AssignedLinks(g: Graph, mid: Graph, p: LinkedPtr, r: LinkedPtr)
    requires r in mid && r in mid[r].ring && r in g && mid.Keys <= g.Keys && p !in mid
    requires forall q <- mid :: mid[q].ptr == g[q].ptr
    ensures var h := Joined(mid, p, r);
      && h.Keys == mid.Keys + {p} && h[p].ptr == g[r].ptr
      && forall q <- h :: q != p ==> q in g && h[q].ptr == g[q].ptr
  {
    hide Joined;
    JoinedFields(mid, p, r);
  }

  lemma ValidReads(heap: Heap)
    requires heap.Valid()
    ensures Linked(heap.graph) && forall q <- heap.graph :: q.itsPtr == heap.graph[q].ptr
  {
    hide Linked, Balanced;
    assert forall q <- heap.graph :: Mirror(heap.graph, q);
  }
}
