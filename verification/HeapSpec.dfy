/** user/umalloc.c as intervals of memory: free blocks in address order, live blocks, and the memory they tile. */
module HeapSpec {

  /** A memory word; memory is zeroed when it is obtained. */
  function Word(m: map<int, int>, a: int): int {
    if a in m then m[a] else 0
  }

  /** Just past the block at a; sizes count headers of 8 bytes. */
  function End(size: map<int, int>, a: int): int {
    a + 8 * Word(size, a)
  }

  predicate Holds(size: map<int, int>, a: int, x: int) {
    a <= x < End(size, a)
  }

  predicate Apart(size: map<int, int>, a: int, b: int) {
    End(size, a) <= b || End(size, b) <= a
  }

  // ----- sequences of blocks

  /** Ascending, disjoint; neighbours touch only at the positions lo..hi. */
  ghost predicate Order(s: seq<int>, size: map<int, int>, lo: int, hi: int) {
    forall i, j :: 0 <= i < j < |s| ==> InOrder(s, size, lo, hi, i, j)
  }

  ghost predicate InOrder(s: seq<int>, size: map<int, int>, lo: int, hi: int, i: int, j: int)
    requires 0 <= i < j < |s|
  {
    s[i] < s[j] && End(size, s[i]) <= s[j] && (End(size, s[i]) == s[j] ==> j == i + 1 && lo <= i < hi)
  }

  /** Every block but the first (the zero-sized base) is non-empty and below top. */
  ghost predicate Solid(s: seq<int>, size: map<int, int>, from: nat, top: int) {
    forall i :: from <= i < |s| ==> 1 <= Word(size, s[i]) && End(size, s[i]) <= top
  }

  ghost predicate Disjoint(s: seq<int>, size: map<int, int>) {
    forall i, j :: 0 <= i < j < |s| ==> Apart(size, s[i], s[j])
  }

  ghost predicate Separate(s: seq<int>, t: seq<int>, size: map<int, int>) {
    forall i, j :: 0 <= i < |s| && 0 <= j < |t| ==> Apart(size, s[i], t[j])
  }

  function Without(s: seq<int>, k: nat): (r: seq<int>)
    requires k < |s|
    ensures |r| == |s| - 1 && forall i :: 0 <= i < |r| ==> r[i] == s[if i < k then i else i + 1]
  {
    s[..k] + s[k + 1..]
  }

  function Insert(s: seq<int>, k: nat, b: int): (r: seq<int>)
    requires k <= |s|
    ensures |r| == |s| + 1 && r[k] == b
    ensures forall i {:trigger r[i]} :: 0 <= i < |r| ==> r[i] == if i < k then s[i] else if i == k then b else s[i - 1]
  {
    s[..k] + [b] + s[k..]
  }

  lemma InsertWithout(s: seq<int>, k: nat, b: int)
    requires k <= |s|
    ensures Without(Insert(s, k, b), k) == s
  {
  }

  /** Total size of the first n blocks. */
  function Sum(s: seq<int>, size: map<int, int>, n: nat): int
    requires n <= |s|
  {
    if n == 0 then 0 else Sum(s, size, n - 1) + Word(size, s[n - 1])
  }

  lemma {:induction false} SumWithout(s: seq<int>, size: map<int, int>, k: nat, n: nat)
    requires k < |s| && n <= |s|
    ensures n > k ==> Sum(Without(s, k), size, n - 1) == Sum(s, size, n) - Word(size, s[k])
    ensures n <= k ==> Sum(Without(s, k), size, n) == Sum(s, size, n)
  {
    if n > 0 { SumWithout(s, size, k, n - 1); }
  }

  /** Changing one size changes the sum by the difference, if the block occurs at k and nowhere else (k < n),
      or not at all (otherwise). */
  lemma {:induction false} SumChange(s: seq<int>, size: map<int, int>, a: int, v: int, k: nat, n: nat)
    requires n <= |s| && forall i :: 0 <= i < n ==> (s[i] == a <==> i == k)
    ensures Sum(s, size[a := v], n) == Sum(s, size, n) + if k < n then v - Word(size, a) else 0
  {
    if n > 0 { SumChange(s, size, a, v, k, n - 1); }
  }

  /** The bytes the blocks cover. */
  ghost function Cells(s: seq<int>, size: map<int, int>): iset<int> {
    iset x, i | 0 <= i < |s| && Holds(size, s[i], x) :: x
  }

  ghost function Cell(size: map<int, int>, a: int): iset<int> {
    iset x | Holds(size, a, x)
  }

  lemma CellsWithout(s: seq<int>, size: map<int, int>, k: nat)
    requires k < |s|
    ensures Cells(s, size) == Cells(Without(s, k), size) + Cell(size, s[k])
  {
    var r := Without(s, k);
    forall x | x in Cells(s, size) ensures x in Cells(r, size) || x in Cell(size, s[k]) {
      var i :| 0 <= i < |s| && Holds(size, s[i], x);
      if i != k { assert r[if i < k then i else i - 1] == s[i]; }
    }
    forall x | x in Cells(r, size) ensures x in Cells(s, size) {
      var i :| 0 <= i < |r| && Holds(size, r[i], x);
      assert r[i] == s[if i < k then i else i + 1];
    }
  }

  lemma CellsSame(s: seq<int>, size: map<int, int>, size': map<int, int>)
    requires forall i :: 0 <= i < |s| ==> Word(size, s[i]) == Word(size', s[i])
    ensures Cells(s, size) == Cells(s, size')
  {
    forall x | x in Cells(s, size) ensures x in Cells(s, size') {
      var i :| 0 <= i < |s| && Holds(size, s[i], x);
      assert Holds(size', s[i], x);
    }
    forall x | x in Cells(s, size') ensures x in Cells(s, size) {
      var i :| 0 <= i < |s| && Holds(size', s[i], x);
      assert Holds(size, s[i], x);
    }
  }

  // ----- inserting and coalescing

  lemma InsertOrder(s: seq<int>, size: map<int, int>, k: nat, b: int)
    requires Order(s, size, 0, 0) && k < |s| && s[k] < b && End(size, s[k]) <= b && 1 <= Word(size, b)
    requires k + 1 < |s| ==> End(size, b) <= s[k + 1]
    ensures Order(Insert(s, k + 1, b), size, k, k + 2)
  {
    var r, hi := Insert(s, k + 1, b), k + 2;
    forall i, j | 0 <= i < j < |r| ensures InOrder(r, size, k, hi, i, j) {
      InsertPair(s, size, k, b, r, i, j);
    }
  }

  lemma InsertPair(s: seq<int>, size: map<int, int>, k: nat, b: int, r: seq<int>, i: nat, j: nat)
    requires Order(s, size, 0, 0) && k < |s| && s[k] < b && End(size, s[k]) <= b && 1 <= Word(size, b)
    requires k + 1 < |s| ==> End(size, b) <= s[k + 1]
    requires r == Insert(s, k + 1, b) && i < j < |r|
    ensures InOrder(r, size, k, k + 2, i, j)
  {
    hide Insert;
    if j == k + 1 {
      assert i < k ==> InOrder(s, size, 0, 0, i, k);
    } else if i == k + 1 {
      assert j > k + 2 ==> InOrder(s, size, 0, 0, k + 1, j - 1);
    } else {
      assert InOrder(s, size, 0, 0, if i <= k then i else i - 1, if j <= k then j else j - 1);
    }
  }

  /** Block k swallows its upper neighbour. */
  function Grown(s: seq<int>, size: map<int, int>, k: nat): map<int, int>
    requires k + 1 < |s|
  {
    size[s[k] := Word(size, s[k]) + Word(size, s[k + 1])]
  }

  lemma GrownElsewhere(s: seq<int>, size: map<int, int>, k: nat, lo: int, hi: int, i: nat)
    requires k + 1 < |s| && Order(s, size, lo, hi) && i < |s| && i != k
    ensures s[i] != s[k] && Word(Grown(s, size, k), s[i]) == Word(size, s[i])
  {
    assert if i < k then InOrder(s, size, lo, hi, i, k) else InOrder(s, size, lo, hi, k, i);
  }

  lemma FuseOrder(s: seq<int>, size: map<int, int>, k: nat, lo: int, top: int)
    requires k + 1 < |s| && Order(s, size, lo, k + 1) && End(size, s[k]) == s[k + 1] && Solid(s, size, 1, top)
    ensures Order(Without(s, k + 1), Grown(s, size, k), lo, k) && Solid(Without(s, k + 1), Grown(s, size, k), 1, top)
  {
    var r, g := Without(s, k + 1), Grown(s, size, k);
    hide Grown, Without;
    forall i, j | 0 <= i < j < |r| ensures InOrder(r, g, lo, k, i, j) {
      FusePair(s, size, k, lo, i, j);
    }
    forall i | 1 <= i < |r| ensures 1 <= Word(g, r[i]) && End(g, r[i]) <= top {
      FuseOne(s, size, k, lo, top, i);
    }
  }

  lemma FusePair(s: seq<int>, size: map<int, int>, k: nat, lo: int, i: nat, j: nat)
    requires k + 1 < |s| && Order(s, size, lo, k + 1) && End(size, s[k]) == s[k + 1] && i < j < |s| - 1
    ensures InOrder(Without(s, k + 1), Grown(s, size, k), lo, k, i, j)
  {
    hide Without;
    var i', j' := if i < k + 1 then i else i + 1, if j < k + 1 then j else j + 1;
    assert InOrder(s, size, lo, k + 1, i', j');
    if i == k {
      assert InOrder(s, size, lo, k + 1, k + 1, j');
    } else {
      GrownElsewhere(s, size, k, lo, k + 1, i');
    }
  }

  lemma FuseOne(s: seq<int>, size: map<int, int>, k: nat, lo: int, top: int, i: nat)
    requires k + 1 < |s| && Order(s, size, lo, k + 1) && End(size, s[k]) == s[k + 1] && Solid(s, size, 1, top)
    requires 1 <= i < |s| - 1
    ensures var r, g := Without(s, k + 1), Grown(s, size, k); 1 <= Word(g, r[i]) && End(g, r[i]) <= top
  {
    hide Without;
    if i != k { GrownElsewhere(s, size, k, lo, k + 1, if i < k + 1 then i else i + 1); }
  }

  // ----- the heap as a whole

  /** The address-sorted ring of free blocks, starting at the base header, and the live blocks. Free neighbours
      touch only at positions lo..hi; in a heap at rest, nowhere. */
  ghost predicate Loose(ring: seq<int>, size: map<int, int>, live: seq<int>, top: int, lo: int, hi: int) {
    && ring != [] && Word(size, ring[0]) == 0
    && Order(ring, size, lo, hi) && Solid(ring, size, 1, top)
    && Solid(live, size, 0, top) && Disjoint(live, size) && Separate(live, ring, size)
    && forall j :: 0 <= j < |live| ==> ring[0] < live[j]
  }

  ghost function Units(ring: seq<int>, size: map<int, int>, live: seq<int>): int {
    Sum(ring, size, |ring|) + Sum(live, size, |live|)
  }

  ghost function Bytes(ring: seq<int>, size: map<int, int>, live: seq<int>): iset<int> {
    Cells(ring, size) + Cells(live, size)
  }

  ghost predicate Conserved(ring: seq<int>, size: map<int, int>, live: seq<int>, ring': seq<int>, size': map<int, int>,
                            live': seq<int>) {
    Units(ring, size, live) == Units(ring', size', live') && Bytes(ring, size, live) == Bytes(ring', size', live')
  }

  lemma ConservedTrans(ring: seq<int>, size: map<int, int>, live: seq<int>, ring': seq<int>, size': map<int, int>,
                       live': seq<int>,
                       ring'': seq<int>, size'': map<int, int>, live'': seq<int>)
    requires Conserved(ring, size, live, ring', size', live') && Conserved(ring', size', live', ring'', size'', live'')
    ensures Conserved(ring, size, live, ring'', size'', live'')
  {
  }

  /** Where b goes: after the last free block below it. */
  predicate Spot(ring: seq<int>, b: int, k: nat) {
    k < |ring| && ring[k] < b && (k + 1 < |ring| ==> b < ring[k + 1])
  }

  /** A live block becomes a free one, not yet coalesced. */
  lemma Release(ring: seq<int>, size: map<int, int>, live: seq<int>, top: int, j: nat, k: nat)
    requires Loose(ring, size, live, top, 0, 0) && j < |live| && Spot(ring, live[j], k)
    ensures Loose(Insert(ring, k + 1, live[j]), size, Without(live, j), top, k, k + 2)
    ensures Conserved(ring, size, live, Insert(ring, k + 1, live[j]), size, Without(live, j))
  {
    ReleaseOrder(ring, size, live, top, j, k);
    ReleaseApart(ring, size, live, j, k + 1);
    ReleaseConserved(ring, size, live, j, k + 1);
    hide Without, Insert, Order, Disjoint, Separate, Conserved, Solid, Apart, Units, Bytes, InOrder;
  }

  lemma ReleaseOrder(ring: seq<int>, size: map<int, int>, live: seq<int>, top: int, j: nat, k: nat)
    requires Loose(ring, size, live, top, 0, 0) && j < |live| && Spot(ring, live[j], k)
    ensures Order(Insert(ring, k + 1, live[j]), size, k, k + 2) && Solid(Insert(ring, k + 1, live[j]), size, 1, top)
    ensures Solid(Without(live, j), size, 0, top) && forall i :: 0 <= i < |live| - 1 ==> ring[0] < Without(live, j)[i]
  {
    hide Without, Insert, Order, Disjoint;
    assert Apart(size, live[j], ring[k]) && (k + 1 < |ring| ==> Apart(size, live[j], ring[k + 1]));
    InsertOrder(ring, size, k, live[j]);
    var r := Insert(ring, k + 1, live[j]);
    forall i | 1 <= i < |r| ensures 1 <= Word(size, r[i]) && End(size, r[i]) <= top {
      assert r[i] == if i < k + 1 then ring[i] else if i == k + 1 then live[j] else ring[i - 1];
    }
  }

  lemma ReleaseApart(ring: seq<int>, size: map<int, int>, live: seq<int>, j: nat, k: nat)
    requires Disjoint(live, size) && Separate(live, ring, size) && j < |live| && k <= |ring|
    ensures Disjoint(Without(live, j), size) && Separate(Without(live, j), Insert(ring, k, live[j]), size)
  {
    hide Without, Insert, Apart;
    var l, r := Without(live, j), Insert(ring, k, live[j]);
    forall i, m | 0 <= i < m < |l| ensures Apart(size, l[i], l[m]) {
      assert Apart(size, live[if i < j then i else i + 1], live[if m < j then m else m + 1]);
    }
    forall i, m | 0 <= i < |l| && 0 <= m < |r| ensures Apart(size, l[i], r[m]) {
      var i' := if i < j then i else i + 1;
      if m == k { ApartPair(live, size, i', j); }
      else { assert Apart(size, live[i'], ring[if m < k then m else m - 1]); }
    }
  }

  lemma ApartPair(s: seq<int>, size: map<int, int>, i: nat, j: nat)
    requires Disjoint(s, size) && i < |s| && j < |s| && i != j
    ensures Apart(size, s[i], s[j])
  {
    assert if i < j then Apart(size, s[i], s[j]) else Apart(size, s[j], s[i]);
  }

  lemma ReleaseConserved(ring: seq<int>, size: map<int, int>, live: seq<int>, j: nat, k: nat)
    requires j < |live| && k <= |ring|
    ensures Conserved(ring, size, live, Insert(ring, k, live[j]), size, Without(live, j))
  {
    ReleaseUnits(ring, size, live, j, k);
    var r := Insert(ring, k, live[j]);
    InsertWithout(ring, k, live[j]);
    hide Cells, Without, Insert, Units;
    CellsWithout(live, size, j);
    CellsWithout(r, size, k);
  }

  lemma ReleaseUnits(ring: seq<int>, size: map<int, int>, live: seq<int>, j: nat, k: nat)
    requires j < |live| && k <= |ring|
    ensures Units(ring, size, live) == Units(Insert(ring, k, live[j]), size, Without(live, j))
  {
    hide Without, Insert, Sum;
    SumWithout(live, size, j, |live|);
    InsertUnits(ring, size, k, live[j]);
  }

  lemma InsertUnits(s: seq<int>, size: map<int, int>, k: nat, b: int)
    requires k <= |s|
    ensures Sum(Insert(s, k, b), size, |s| + 1) == Sum(s, size, |s|) + Word(size, b)
  {
    hide Without, Insert, Sum;
    InsertWithout(s, k, b);
    SumWithout(Insert(s, k, b), size, k, |s| + 1);
  }

  /** Coalesce block k with its upper neighbour if they touch. */
  function FusedRing(ring: seq<int>, size: map<int, int>, k: nat): seq<int> {
    if k + 1 < |ring| && End(size, ring[k]) == ring[k + 1] then Without(ring, k + 1) else ring
  }

  function FusedSize(ring: seq<int>, size: map<int, int>, k: nat): map<int, int> {
    if k + 1 < |ring| && End(size, ring[k]) == ring[k + 1] then Grown(ring, size, k) else size
  }

  /** A live block is never the one that grows. */
  lemma LiveNotFree(ring: seq<int>, size: map<int, int>, live: seq<int>, top: int, lo: int, hi: int, j: nat, k: nat)
    requires Loose(ring, size, live, top, lo, hi) && j < |live| && 1 <= k < |ring|
    ensures live[j] != ring[k]
  {
    hide Order, Disjoint;
    assert Apart(size, live[j], ring[k]);
  }

  lemma FuseLive(ring: seq<int>, size: map<int, int>, live: seq<int>, top: int, k: nat, lo: int, j: nat)
    requires Loose(ring, size, live, top, lo, k + 1) && 1 <= k < |ring| - 1 && j < |live|
    ensures live[j] != ring[k] && Word(Grown(ring, size, k), live[j]) == Word(size, live[j])
  {
    LiveNotFree(ring, size, live, top, lo, k + 1, j, k);
    hide Loose;
  }

  lemma FuseApart(ring: seq<int>, size: map<int, int>, live: seq<int>, top: int, k: nat, lo: int)
    requires Loose(ring, size, live, top, lo, k + 1) && 1 <= k < |ring| - 1 && End(size, ring[k]) == ring[k + 1]
    ensures var g := Grown(ring, size, k);
            Solid(live, g, 0, top) && Disjoint(live, g) && Separate(live, Without(ring, k + 1), g)
  {
    var r, g := Without(ring, k + 1), Grown(ring, size, k);
    forall j | 0 <= j < |live|
      ensures Word(g, live[j]) == Word(size, live[j])
    {
      FuseLive(ring, size, live, top, k, lo, j);
    }
    forall i | 0 <= i < |ring| && i != k
      ensures Word(g, ring[i]) == Word(size, ring[i])
    {
      GrownElsewhere(ring, size, k, lo, k + 1, i);
    }
    hide Order, Without;
    forall i, j | 0 <= i < j < |live| ensures Apart(g, live[i], live[j]) { assert Apart(size, live[i], live[j]); }
    forall j, i | 0 <= j < |live| && 0 <= i < |r| ensures Apart(g, live[j], r[i]) {
      assert Apart(size, live[j], ring[if i < k + 1 then i else i + 1]);
      if i == k { assert Apart(size, live[j], ring[k + 1]); }
    }
  }

  lemma FuseCells(ring: seq<int>, size: map<int, int>, k: nat, lo: int, hi: int)
    requires Order(ring, size, lo, hi) && k < |ring| - 1 && End(size, ring[k]) == ring[k + 1]
    requires 0 <= Word(size, ring[k]) && 0 <= Word(size, ring[k + 1])
    ensures var r, g := Without(ring, k + 1), Grown(ring, size, k);
            Cells(r, g) == Cells(ring, size)
  {
    var r, g := Without(ring, k + 1), Grown(ring, size, k);
    forall i | 0 <= i < |ring| && i != k ensures ring[i] != ring[k] && Word(g, ring[i]) == Word(size, ring[i]) {
      GrownElsewhere(ring, size, k, lo, hi, i);
    }
    hide Order, Without, Cells;
    CellsWithout(ring, size, k + 1);
    CellsWithout(r, size, k);
    CellsWithout(r, g, k);
    CellsSame(Without(r, k), size, g);
    assert Cell(g, ring[k]) == Cell(size, ring[k]) + Cell(size, ring[k + 1]);
  }

  lemma FuseSum(ring: seq<int>, size: map<int, int>, k: nat, lo: int, hi: int)
    requires Order(ring, size, lo, hi) && k < |ring| - 1
    ensures var r, g := Without(ring, k + 1), Grown(ring, size, k); Sum(r, g, |r|) == Sum(ring, size, |ring|)
  {
    var r := Without(ring, k + 1);
    forall i | 0 <= i < |ring| && i != k ensures ring[i] != ring[k] {
      GrownElsewhere(ring, size, k, lo, hi, i);
    }
    hide Order, Without;
    SumWithout(ring, size, k + 1, |ring|);
    SumChange(r, size, ring[k], Word(size, ring[k]) + Word(size, ring[k + 1]), k, |r|);
  }

  lemma FuseConserved(ring: seq<int>, size: map<int, int>, live: seq<int>, top: int, k: nat, lo: int)
    requires Loose(ring, size, live, top, lo, k + 1) && 1 <= k < |ring| - 1 && End(size, ring[k]) == ring[k + 1]
    ensures Conserved(ring, size, live, Without(ring, k + 1), Grown(ring, size, k), live)
  {
    FuseCells(ring, size, k, lo, k + 1);
    FuseSum(ring, size, k, lo, k + 1);
    forall j | 0 <= j < |live|
      ensures live[j] != ring[k] && Word(Grown(ring, size, k), live[j]) == Word(size, live[j])
    {
      FuseLive(ring, size, live, top, k, lo, j);
    }
    hide Loose, Without, Cells;
    CellsSame(live, size, Grown(ring, size, k));
    SumChange(live, size, ring[k], Word(size, ring[k]) + Word(size, ring[k + 1]), |live|, |live|);
  }

  lemma Fuse(ring: seq<int>, size: map<int, int>, live: seq<int>, top: int, k: nat, lo: int)
    requires Loose(ring, size, live, top, lo, k + 1) && k < |ring|
    requires k == 0 && 1 < |ring| ==> End(size, ring[0]) != ring[1]
    ensures Loose(FusedRing(ring, size, k), FusedSize(ring, size, k), live, top, lo, k)
    ensures Conserved(ring, size, live, FusedRing(ring, size, k), FusedSize(ring, size, k), live)
    ensures forall j :: 0 <= j < |live| ==> Word(FusedSize(ring, size, k), live[j]) == Word(size, live[j])
  {
    if k + 1 < |ring| && End(size, ring[k]) == ring[k + 1] {
      FuseOrder(ring, size, k, lo, top);
      FuseApart(ring, size, live, top, k, lo);
      FuseConserved(ring, size, live, top, k, lo);
      GrownElsewhere(ring, size, k, lo, k + 1, 0);
      forall j | 0 <= j < |live| ensures Word(Grown(ring, size, k), live[j]) == Word(size, live[j]) {
        FuseLive(ring, size, live, top, k, lo, j);
      }
      hide Order, Disjoint, Separate, Conserved, Grown;
    } else {
      forall i, j | 0 <= i < j < |ring| ensures InOrder(ring, size, lo, k, i, j) {
        assert InOrder(ring, size, lo, k + 1, i, j);
      }
    }
  }

  /** malloc takes a whole free block. */
  lemma TakeWhole(ring: seq<int>, size: map<int, int>, live: seq<int>, top: int, i: nat)
    requires Loose(ring, size, live, top, 0, 0) && 1 <= i < |ring|
    ensures Loose(Without(ring, i), size, live + [ring[i]], top, 0, 0)
    ensures Conserved(ring, size, live, Without(ring, i), size, live + [ring[i]])
  {
    TakeOrder(ring, size, i);
    TakeApart(ring, size, live, i);
    ReleaseConserved(live, size, ring, i, |live|);
    assert Insert(live, |live|, ring[i]) == live + [ring[i]];
    assert InOrder(ring, size, 0, 0, 0, i);
    hide Order, Disjoint, Separate, Cells, Sum;
  }

  lemma TakeOrder(ring: seq<int>, size: map<int, int>, i: nat)
    requires Order(ring, size, 0, 0) && i < |ring|
    ensures Order(Without(ring, i), size, 0, 0)
  {
    hide Without;
    var r := Without(ring, i);
    forall a, b | 0 <= a < b < |r| ensures InOrder(r, size, 0, 0, a, b) {
      assert InOrder(ring, size, 0, 0, if a < i then a else a + 1, if b < i then b else b + 1);
    }
  }

  lemma TakeApart(ring: seq<int>, size: map<int, int>, live: seq<int>, i: nat)
    requires Order(ring, size, 0, 0) && i < |ring| && Disjoint(live, size) && Separate(live, ring, size)
    ensures Disjoint(live + [ring[i]], size) && Separate(live + [ring[i]], Without(ring, i), size)
  {
    hide Without;
    var l, r := live + [ring[i]], Without(ring, i);
    forall a, b | 0 <= a < b < |l| ensures Apart(size, l[a], l[b]) {
      assert if b < |live| then Apart(size, live[a], live[b]) else Apart(size, live[a], ring[i]);
    }
    forall a, b | 0 <= a < |l| && 0 <= b < |r| ensures Apart(size, l[a], r[b]) {
      var b' := if b < i then b else b + 1;
      if a < |live| { assert Apart(size, live[a], ring[b']); }
      else { assert if b < i then InOrder(ring, size, 0, 0, b', i) else InOrder(ring, size, 0, 0, i, b'); }
    }
  }

  /** malloc cuts the tail of n units off free block i. */
  function Cut(ring: seq<int>, size: map<int, int>, i: nat, n: int): int
    requires i < |ring|
  {
    ring[i] + 8 * (Word(size, ring[i]) - n)
  }

  function CutSize(ring: seq<int>, size: map<int, int>, i: nat, n: int): map<int, int>
    requires i < |ring|
  {
    size[ring[i] := Word(size, ring[i]) - n][Cut(ring, size, i, n) := n]
  }

  lemma CutElsewhere(ring: seq<int>, size: map<int, int>, live: seq<int>, top: int, i: nat, n: int)
    requires Loose(ring, size, live, top, 0, 0) && 1 <= i < |ring| && 1 <= n < Word(size, ring[i])
    ensures var g, q := CutSize(ring, size, i, n), Cut(ring, size, i, n);
            && (forall m :: 0 <= m < |ring| ==>
                  ring[m] != q && (m != i ==> ring[m] != ring[i] && Word(g, ring[m]) == Word(size, ring[m])))
            && (forall j :: 0 <= j < |live| ==>
                  live[j] != q && live[j] != ring[i] && Word(g, live[j]) == Word(size, live[j]))
  {
    var g, q := CutSize(ring, size, i, n), Cut(ring, size, i, n);
    forall m | 0 <= m < |ring| && m != i ensures ring[m] != q && ring[m] != ring[i] {
      assert if m < i then InOrder(ring, size, 0, 0, m, i) else InOrder(ring, size, 0, 0, i, m);
    }
    forall j | 0 <= j < |live| ensures live[j] != q && live[j] != ring[i] { assert Apart(size, live[j], ring[i]); }
  }

  lemma TakeTail(ring: seq<int>, size: map<int, int>, live: seq<int>, top: int, i: nat, n: int)
    requires Loose(ring, size, live, top, 0, 0) && 1 <= i < |ring| && 1 <= n < Word(size, ring[i])
    ensures var g, q := CutSize(ring, size, i, n), Cut(ring, size, i, n);
            && Loose(ring, g, live + [q], top, 0, 0) && Conserved(ring, size, live, ring, g, live + [q])
            && Word(g, q) == n && forall j :: 0 <= j < |live| ==> Word(g, live[j]) == Word(size, live[j])
  {
    CutElsewhere(ring, size, live, top, i, n);
    TailOrder(ring, size, live, top, i, n);
    TailApart(ring, size, live, top, i, n);
    TailUnits(ring, size, live, top, i, n);
    TailBytes(ring, size, live, top, i, n);
    assert InOrder(ring, size, 0, 0, 0, i);
    hide Order, Disjoint, Separate, Cells, Sum;
  }

  lemma TailOrder(ring: seq<int>, size: map<int, int>, live: seq<int>, top: int, i: nat, n: int)
    requires Loose(ring, size, live, top, 0, 0) && 1 <= i < |ring| && 1 <= n < Word(size, ring[i])
    ensures var g, q := CutSize(ring, size, i, n), Cut(ring, size, i, n);
            Order(ring, g, 0, 0) && Solid(ring, g, 1, top) && Solid(live + [q], g, 0, top)
  {
    var g, q := CutSize(ring, size, i, n), Cut(ring, size, i, n);
    CutElsewhere(ring, size, live, top, i, n);
    hide Disjoint, Separate;
    forall a, b | 0 <= a < b < |ring| ensures InOrder(ring, g, 0, 0, a, b) { assert InOrder(ring, size, 0, 0, a, b); }
  }

  lemma TailApart(ring: seq<int>, size: map<int, int>, live: seq<int>, top: int, i: nat, n: int)
    requires Loose(ring, size, live, top, 0, 0) && 1 <= i < |ring| && 1 <= n < Word(size, ring[i])
    ensures var g, q := CutSize(ring, size, i, n), Cut(ring, size, i, n);
            Disjoint(live + [q], g) && Separate(live + [q], ring, g)
  {
    var g, q := CutSize(ring, size, i, n), Cut(ring, size, i, n);
    CutElsewhere(ring, size, live, top, i, n);
    var l := live + [q];
    forall a, b | 0 <= a < b < |l| ensures Apart(g, l[a], l[b]) {
      assert if b < |live| then Apart(size, live[a], live[b]) else Apart(size, live[a], ring[i]);
    }
    forall a, b | 0 <= a < |l| && 0 <= b < |ring| ensures Apart(g, l[a], ring[b]) {
      if a < |live| { assert Apart(size, live[a], ring[b]); }
      else if b != i { assert if b < i then InOrder(ring, size, 0, 0, b, i) else InOrder(ring, size, 0, 0, i, b); }
    }
  }

  lemma TailUnits(ring: seq<int>, size: map<int, int>, live: seq<int>, top: int, i: nat, n: int)
    requires Loose(ring, size, live, top, 0, 0) && 1 <= i < |ring| && 1 <= n < Word(size, ring[i])
    ensures Units(ring, CutSize(ring, size, i, n), live + [Cut(ring, size, i, n)]) == Units(ring, size, live)
  {
    var q, v := Cut(ring, size, i, n), Word(size, ring[i]) - n;
    CutElsewhere(ring, size, live, top, i, n);
    var mid, l := size[ring[i] := v], live + [q];
    hide Loose;
    SumChange(ring, size, ring[i], v, i, |ring|);
    SumChange(ring, mid, q, n, |ring|, |ring|);
    SumChange(live, size, ring[i], v, |live|, |live|);
    SumChange(live, mid, q, n, |live|, |live|);
    SumWithout(l, mid[q := n], |live|, |l|);
    assert Without(l, |live|) == live;
  }

  lemma TailBytes(ring: seq<int>, size: map<int, int>, live: seq<int>, top: int, i: nat, n: int)
    requires Loose(ring, size, live, top, 0, 0) && 1 <= i < |ring| && 1 <= n < Word(size, ring[i])
    ensures Bytes(ring, CutSize(ring, size, i, n), live + [Cut(ring, size, i, n)]) == Bytes(ring, size, live)
  {
    var g, q := CutSize(ring, size, i, n), Cut(ring, size, i, n);
    CutElsewhere(ring, size, live, top, i, n);
    var l := live + [q];
    hide Loose, Cells, Without;
    CellsWithout(ring, size, i);
    CellsWithout(ring, g, i);
    CellsSame(Without(ring, i), size, g);
    CellsWithout(l, g, |live|);
    WithoutLast(live, q);
    CellsSame(live, size, g);
    assert Cell(size, ring[i]) == Cell(g, ring[i]) + Cell(g, q);
  }

  lemma WithoutLast(s: seq<int>, a: int)
    ensures Without(s + [a], |s|) == s
  {
  }

  /** morecore's new block, above everything so far, before it is freed into the ring. */
  lemma Obtain(ring: seq<int>, size: map<int, int>, live: seq<int>, top: int, brk: int, nu: int)
    requires Loose(ring, size, live, top, 0, 0) && ring[0] < top <= brk && 1 <= nu
    ensures var g, l := size[brk := nu], live + [brk];
            && Loose(ring, g, l, brk + 8 * nu, 0, 0) && Word(g, brk) == nu
            && Units(ring, g, l) == Units(ring, size, live) + nu
            && Bytes(ring, g, l) == Bytes(ring, size, live) + Cell(g, brk)
            && (forall i :: 0 <= i < |ring| ==> Word(g, ring[i]) == Word(size, ring[i]))
            && (forall j :: 0 <= j < |live| ==> Word(g, live[j]) == Word(size, live[j]))
  {
    var g, l := size[brk := nu], live + [brk];
    ObtainLoose(ring, size, live, top, brk, nu);
    assert forall i :: 0 <= i < |ring| ==> ring[i] != brk;
    assert forall j :: 0 <= j < |live| ==> live[j] != brk;
    hide Loose, Cells, Without;
    ObtainUnits(ring, size, live, brk, nu);
    hide Units;
    WithoutLast(live, brk);
    CellsWithout(l, g, |live|);
    CellsSame(live, size, g);
    CellsSame(ring, size, g);
  }

  lemma ObtainUnits(ring: seq<int>, size: map<int, int>, live: seq<int>, brk: int, nu: int)
    requires (forall i :: 0 <= i < |ring| ==> ring[i] != brk) && (forall j :: 0 <= j < |live| ==> live[j] != brk)
    ensures Units(ring, size[brk := nu], live + [brk]) == Units(ring, size, live) + nu
  {
    var g, l := size[brk := nu], live + [brk];
    hide Without;
    SumChange(ring, size, brk, nu, |ring|, |ring|);
    SumChange(live, size, brk, nu, |live|, |live|);
    SumWithout(l, g, |live|, |l|);
    WithoutLast(live, brk);
  }

  lemma ObtainLoose(ring: seq<int>, size: map<int, int>, live: seq<int>, top: int, brk: int, nu: int)
    requires Loose(ring, size, live, top, 0, 0) && ring[0] < top <= brk && 1 <= nu
    ensures Loose(ring, size[brk := nu], live + [brk], brk + 8 * nu, 0, 0)
  {
    var g, l := size[brk := nu], live + [brk];
    assert forall i :: 0 <= i < |ring| ==> ring[i] != brk && Word(g, ring[i]) == Word(size, ring[i]);
    assert forall j :: 0 <= j < |live| ==> live[j] != brk && Word(g, live[j]) == Word(size, live[j]);
    forall a, b | 0 <= a < b < |ring| ensures InOrder(ring, g, 0, 0, a, b) { assert InOrder(ring, size, 0, 0, a, b); }
    forall a, b | 0 <= a < b < |l| ensures Apart(g, l[a], l[b]) {
      assert b < |live| ==> Apart(size, live[a], live[b]);
    }
    forall a, b | 0 <= a < |l| && 0 <= b < |ring| ensures Apart(g, l[a], ring[b]) {
      assert a < |live| ==> Apart(size, live[a], ring[b]);
    }
  }

  // ----- the links

  function Succ(i: nat, n: nat): nat {
    if i + 1 < n then i + 1 else 0
  }

  predicate Points(ptr: map<int, int>, ring: seq<int>, i: int)
    requires 0 <= i < |ring|
  {
    Word(ptr, ring[i]) == ring[Succ(i, |ring|)]
  }

  /** Every header but the one at `gap` points to the next free block, the last one to the base. */
  ghost predicate LinkedBut(ptr: map<int, int>, ring: seq<int>, gap: int) {
    forall i :: 0 <= i < |ring| && i != gap ==> Points(ptr, ring, i)
  }

  ghost predicate Linked(ptr: map<int, int>, ring: seq<int>) {
    LinkedBut(ptr, ring, -1)
  }

  ghost predicate Ascending(s: seq<int>) {
    forall i, j :: 0 <= i < j < |s| ==> s[i] < s[j]
  }

  /** free's first half when bp does not touch its successor. */
  lemma LinkIn(ptr: map<int, int>, ring: seq<int>, k: nat, b: int)
    requires Linked(ptr, ring) && k < |ring| && b !in ring
    ensures LinkedBut(ptr[b := Word(ptr, ring[k])], Insert(ring, k + 1, b), k)
  {
    hide Insert;
    var p, r := ptr[b := Word(ptr, ring[k])], Insert(ring, k + 1, b);
    forall i | 0 <= i < |r| && i != k ensures Points(p, r, i) {
      var i' := if i <= k then i else i - 1;
      assert ring[i'] in ring && Points(ptr, ring, i');
    }
  }

  lemma InsertOver(s: seq<int>, k: nat, b: int)
    requires k + 1 < |s|
    ensures Without(Insert(s, k + 1, b), k + 2) == s[k + 1 := b]
  {
  }

  /** free's first half when bp swallows its successor. */
  lemma LinkOver(ptr: map<int, int>, ring: seq<int>, k: nat, b: int)
    requires Linked(ptr, ring) && k + 1 < |ring| && b !in ring
    ensures LinkedBut(ptr[b := Word(ptr, ring[k + 1])], Without(Insert(ring, k + 1, b), k + 2), k)
  {
    InsertOver(ring, k, b);
    LinkReplace(ptr, ring, k, b);
    hide Linked, LinkedBut, Insert, Without;
  }

  lemma LinkReplace(ptr: map<int, int>, ring: seq<int>, k: nat, b: int)
    requires Linked(ptr, ring) && k + 1 < |ring| && b !in ring
    ensures LinkedBut(ptr[b := Word(ptr, ring[k + 1])], ring[k + 1 := b], k)
  {
    var p, r := ptr[b := Word(ptr, ring[k + 1])], ring[k + 1 := b];
    forall i | 0 <= i < |r| && i != k ensures Points(p, r, i) {
      assert ring[i] in ring && Points(ptr, ring, i);
    }
  }

  /** free's second half when p does not touch bp. */
  lemma LinkClose(ptr: map<int, int>, r: seq<int>, k: nat)
    requires LinkedBut(ptr, r, k) && k + 1 < |r| && Ascending(r)
    ensures Linked(ptr[r[k] := r[k + 1]], r)
  {
    var p := ptr[r[k] := r[k + 1]];
    forall i | 0 <= i < |r| ensures Points(p, r, i) {
      assert i != k ==> r[i] != r[k] && Points(ptr, r, i);
    }
  }

  /** free's second half when p swallows bp; also malloc's removal of a whole block. */
  lemma LinkSkip(ptr: map<int, int>, r: seq<int>, k: nat)
    requires LinkedBut(ptr, r, k) && k + 1 < |r| && Ascending(r)
    ensures Linked(ptr[r[k] := Word(ptr, r[k + 1])], Without(r, k + 1))
  {
    hide Without;
    var p, w := ptr[r[k] := Word(ptr, r[k + 1])], Without(r, k + 1);
    forall i | 0 <= i < |w| ensures Points(p, w, i) {
      var i' := if i <= k then i else i + 1;
      assert i != k ==> r[i'] != r[k] && Points(ptr, r, i');
      assert Points(ptr, r, k + 1);
    }
  }

  lemma OrderAscends(s: seq<int>, size: map<int, int>, lo: int, hi: int)
    requires Order(s, size, lo, hi)
    ensures Ascending(s)
  {
    forall i, j | 0 <= i < j < |s| ensures s[i] < s[j] { assert InOrder(s, size, lo, hi, i, j); }
  }

  // ----- free, in the order the code does it

  predicate Fits(ring: seq<int>, size: map<int, int>, n: int) {
    exists i :: 0 <= i < |ring| && n <= Word(size, ring[i])
  }

  function UpRing(ring: seq<int>, size: map<int, int>, k: nat, b: int): seq<int>
    requires k < |ring|
  {
    FusedRing(Insert(ring, k + 1, b), size, k + 1)
  }

  function UpSize(ring: seq<int>, size: map<int, int>, k: nat, b: int): map<int, int>
    requires k < |ring|
  {
    FusedSize(Insert(ring, k + 1, b), size, k + 1)
  }

  /** bp joins its successor, or is put before it. */
  lemma JoinUp(ring: seq<int>, size: map<int, int>, live: seq<int>, top: int, j: nat, k: nat)
    requires Loose(ring, size, live, top, 0, 0) && j < |live| && Spot(ring, live[j], k)
    ensures var l, r, g := Without(live, j), UpRing(ring, size, k, live[j]), UpSize(ring, size, k, live[j]);
            && Loose(r, g, l, top, k, k + 1) && Conserved(ring, size, live, r, g, l)
            && forall i :: 0 <= i < |live| - 1 ==> Word(g, l[i]) == Word(size, l[i])
  {
    var r := Insert(ring, k + 1, live[j]);
    Release(ring, size, live, top, j, k);
    var l := Without(live, j);
    hide Insert, Without;
    Fuse(r, size, l, top, k + 1, k);
    hide Loose, Conserved, FusedRing, FusedSize;
    ConservedTrans(ring, size, live, r, size, l, FusedRing(r, size, k + 1), FusedSize(r, size, k + 1), l);
  }

  /** The code's assignments make those links. */
  lemma JoinUpLinks(ptr: map<int, int>, ring: seq<int>, size: map<int, int>, live: seq<int>, top: int, j: nat, k: nat)
    requires Loose(ring, size, live, top, 0, 0) && Linked(ptr, ring) && j < |live| && Spot(ring, live[j], k)
    ensures var b, r, g := live[j], UpRing(ring, size, k, live[j]), UpSize(ring, size, k, live[j]);
            && k + 1 < |r| && r[0] == ring[0] && r[k] == ring[k] && r[k + 1] == b && Word(size, b) <= Word(g, b)
            && (End(size, b) == Word(ptr, ring[k]) ==>
                  && k + 1 < |ring| && Word(ptr, ring[k]) == ring[k + 1]
                  && g == size[b := Word(size, b) + Word(size, ring[k + 1])]
                  && LinkedBut(ptr[b := Word(ptr, ring[k + 1])], r, k))
            && (End(size, b) != Word(ptr, ring[k]) ==> g == size && LinkedBut(ptr[b := Word(ptr, ring[k])], r, k))
  {
    LiveOutside(ring, size, live, top, j);
    UpLinks(ptr, ring, k, live[j]);
    UpTouches(ptr, ring, size, live, top, j, k);
    hide Loose, Linked, LinkedBut, Insert, Without, Spot;
  }

  lemma LiveOutside(ring: seq<int>, size: map<int, int>, live: seq<int>, top: int, j: nat)
    requires Loose(ring, size, live, top, 0, 0) && j < |live|
    ensures live[j] !in ring
  {
    forall k | 0 <= k < |ring|
      ensures ring[k] != live[j]
    {
      if k > 0 { LiveNotFree(ring, size, live, top, 0, 0, j, k); }
    }
  }

  lemma UpLinks(ptr: map<int, int>, ring: seq<int>, k: nat, b: int)
    requires Linked(ptr, ring) && k < |ring| && b !in ring
    ensures LinkedBut(ptr[b := Word(ptr, ring[k])], Insert(ring, k + 1, b), k)
    ensures k + 1 < |ring| ==> LinkedBut(ptr[b := Word(ptr, ring[k + 1])], Without(Insert(ring, k + 1, b), k + 2), k)
  {
    LinkIn(ptr, ring, k, b);
    if k + 1 < |ring| { LinkOver(ptr, ring, k, b); }
  }

  /** The code's test on bp and p->s.ptr is the test for touching the next free block. */
  lemma UpTouches(ptr: map<int, int>, ring: seq<int>, size: map<int, int>, live: seq<int>, top: int, j: nat, k: nat)
    requires Loose(ring, size, live, top, 0, 0) && Linked(ptr, ring) && j < |live| && k < |ring|
    ensures Word(ptr, ring[k]) == ring[Succ(k, |ring|)]
    ensures End(size, live[j]) == Word(ptr, ring[k]) <==> k + 1 < |ring| && End(size, live[j]) == ring[k + 1]
    ensures k + 1 < |ring| ==> 1 <= Word(size, ring[k + 1])
  {
    assert Points(ptr, ring, k);
  }

  /** p joins bp, or points to it; the heap is at rest again. */
  lemma JoinDown(r: seq<int>, g: map<int, int>, live: seq<int>, top: int, k: nat)
    requires Loose(r, g, live, top, k, k + 1) && k + 1 < |r|
    ensures var r', g' := FusedRing(r, g, k), FusedSize(r, g, k);
            && Loose(r', g', live, top, 0, 0) && Conserved(r, g, live, r', g', live)
            && forall i :: 0 <= i < |live| ==> Word(g', live[i]) == Word(g, live[i])
  {
    assert InOrder(r, g, k, k + 1, k, k + 1);
    Fuse(r, g, live, top, k, k);
    var r', g' := FusedRing(r, g, k), FusedSize(r, g, k);
    hide Conserved, FusedRing, FusedSize;
    forall i, j | 0 <= i < j < |r'| ensures InOrder(r', g', 0, 0, i, j) { assert InOrder(r', g', k, k, i, j); }
  }

  /** The code's assignments make those links and sizes; p is the last free block below bp, and some free block
      is as large as bp. */
  lemma JoinDownLinks(ptr: map<int, int>, r: seq<int>, g: map<int, int>, live: seq<int>, top: int, k: nat)
    requires Loose(r, g, live, top, k, k + 1) && LinkedBut(ptr, r, k) && k + 1 < |r|
    ensures var r', g' := FusedRing(r, g, k), FusedSize(r, g, k);
            && k < |r'| && r'[k] == r[k] && r'[0] == r[0]
            && Linked(if End(g, r[k]) == r[k + 1] then ptr[r[k] := Word(ptr, r[k + 1])] else ptr[r[k] := r[k + 1]], r')
            && g' == (if End(g, r[k]) == r[k + 1] then g[r[k] := Word(g, r[k]) + Word(g, r[k + 1])] else g)
            && Fits(r', g', Word(g, r[k + 1]))
            && forall i :: 0 <= i < |r'| && r'[i] < r[k + 1] ==> r'[i] <= r[k]
  {
    OrderAscends(r, g, k, k + 1);
    LinkClose(ptr, r, k);
    LinkSkip(ptr, r, k);
    assert 0 <= Word(g, r[k]);
    hide Linked, LinkedBut, Loose, Without;
    var r', g' := FusedRing(r, g, k), FusedSize(r, g, k);
    assert Word(g, r[k + 1]) <= Word(g', r'[if End(g, r[k]) == r[k + 1] then k else k + 1]);
    forall i | 0 <= i < |r'| && r'[i] < r[k + 1] ensures r'[i] <= r[k] {
      assert r'[i] == r[if r' != r && i > k then i + 1 else i];
    }
  }
}
