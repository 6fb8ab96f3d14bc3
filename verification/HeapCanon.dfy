/** The free list is a function of the live blocks: its blocks are the maximal runs of memory not in use. */
module HeapCanon {
  import opened HeapSpec

  /** Coalescing is complete: the bytes just below and just past a free block are not free. */
  lemma Maximal(ring: seq<int>, size: map<int, int>, live: seq<int>, top: int, i: nat)
    requires Loose(ring, size, live, top, 0, 0) && 1 <= i < |ring|
    ensures ring[i] - 1 !in Cells(ring, size) && End(size, ring[i]) !in Cells(ring, size)
  {
    var a, e := ring[i], End(size, ring[i]);
    forall m | 0 <= m < |ring| ensures !Holds(size, ring[m], a - 1) && !Holds(size, ring[m], e) {
      if m < i { assert InOrder(ring, size, 0, 0, m, i); }
      if m > i { assert InOrder(ring, size, 0, 0, i, m); }
    }
  }

  lemma FreeNotLive(ring: seq<int>, size: map<int, int>, live: seq<int>, top: int, x: int)
    requires Loose(ring, size, live, top, 0, 0) && x in Cells(ring, size)
    ensures x !in Cells(live, size)
  {
    var i :| 0 <= i < |ring| && Holds(size, ring[i], x);
    forall j | 0 <= j < |live| ensures !Holds(size, live[j], x) { assert Apart(size, live[j], ring[i]); }
  }

  /** Two heaps at rest with the same base, the same live blocks and the same memory. */
  ghost predicate Alike(a: seq<int>, sa: map<int, int>, b: seq<int>, sb: map<int, int>, live: seq<int>, top: int) {
    && Loose(a, sa, live, top, 0, 0) && Loose(b, sb, live, top, 0, 0) && a[0] == b[0]
    && (forall j :: 0 <= j < |live| ==> Word(sa, live[j]) == Word(sb, live[j]))
    && Bytes(a, sa, live) == Bytes(b, sb, live)
  }

  lemma SameFreeBytes(a: seq<int>, sa: map<int, int>, b: seq<int>, sb: map<int, int>, live: seq<int>, top: int, x: int)
    requires Alike(a, sa, b, sb, live, top)
    ensures x in Cells(a, sa) <==> x in Cells(b, sb)
  {
    CellsSame(live, sa, sb);
    if x in Cells(a, sa) { FreeNotLive(a, sa, live, top, x); }
    if x in Cells(b, sb) { FreeNotLive(b, sb, live, top, x); }
  }

  /** A free block of one heap is a free block of the other. */
  lemma SameBlock(a: seq<int>, sa: map<int, int>, b: seq<int>, sb: map<int, int>, live: seq<int>, top: int, i: nat)
    requires Alike(a, sa, b, sb, live, top) && i < |a|
    ensures a[i] in b && Word(sa, a[i]) == Word(sb, a[i])
  {
    if i > 0 {
      assert Holds(sa, a[i], a[i]);
      SameFreeBytes(a, sa, b, sb, live, top, a[i]);
      var j :| 0 <= j < |b| && Holds(sb, b[j], a[i]);
      assert j > 0;
      Maximal(a, sa, live, top, i);
      Maximal(b, sb, live, top, j);
      SameFreeBytes(a, sa, b, sb, live, top, a[i] - 1);
      SameFreeBytes(a, sa, b, sb, live, top, End(sa, a[i]));
      SameFreeBytes(a, sa, b, sb, live, top, End(sb, b[j]));
      hide Alike, Loose, Cells;
      SameEnds(a, sa, b, sb, i, j);
    }
  }

  lemma SameEnds(a: seq<int>, sa: map<int, int>, b: seq<int>, sb: map<int, int>, i: nat, j: nat)
    requires i < |a| && j < |b| && Holds(sa, a[i], a[i]) && Holds(sb, b[j], a[i])
    requires a[i] - 1 !in Cells(b, sb) && End(sa, a[i]) !in Cells(b, sb) && End(sb, b[j]) !in Cells(a, sa)
    ensures a[i] == b[j] && Word(sa, a[i]) == Word(sb, b[j])
  {
    assert !Holds(sb, b[j], a[i] - 1) && !Holds(sb, b[j], End(sa, a[i])) && !Holds(sa, a[i], End(sb, b[j]));
  }

  lemma {:induction false} SamePrefix(s: seq<int>, t: seq<int>, n: nat)
    requires Ascending(s) && Ascending(t) && n <= |s|
    requires (forall i :: 0 <= i < |s| ==> s[i] in t) && (forall i :: 0 <= i < |t| ==> t[i] in s)
    ensures n <= |t| && forall i :: 0 <= i < n ==> s[i] == t[i]
  {
    if n > 0 {
      var m := n - 1;
      SamePrefix(s, t, m);
      var k :| 0 <= k < |t| && t[k] == s[m];
      assert k >= m;
      var j :| 0 <= j < |s| && s[j] == t[m];
      assert j >= m;
    }
  }

  lemma SortedSame(s: seq<int>, t: seq<int>)
    requires Ascending(s) && Ascending(t)
    requires (forall i :: 0 <= i < |s| ==> s[i] in t) && (forall i :: 0 <= i < |t| ==> t[i] in s)
    ensures s == t
  {
    SamePrefix(s, t, |s|);
    SamePrefix(t, s, |t|);
  }

  /** The ring and the sizes in it depend on the live blocks and the memory only. */
  lemma FreeListIsCanonical(a: seq<int>, sa: map<int, int>, b: seq<int>, sb: map<int, int>, live: seq<int>, top: int)
    requires Alike(a, sa, b, sb, live, top)
    ensures a == b && forall i :: 0 <= i < |a| ==> Word(sa, a[i]) == Word(sb, a[i])
  {
    OrderAscends(a, sa, 0, 0);
    OrderAscends(b, sb, 0, 0);
    forall i | 0 <= i < |a|
      ensures a[i] in b && Word(sa, a[i]) == Word(sb, a[i])
    {
      SameBlock(a, sa, b, sb, live, top, i);
    }
    assert Alike(b, sb, a, sa, live, top);
    forall i | 0 <= i < |b| ensures b[i] in a { SameBlock(b, sb, a, sa, live, top, i); }
    hide Alike;
    SortedSame(a, b);
  }
}
