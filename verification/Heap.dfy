/** user/umalloc.c in place: headers in memory, the ring of free blocks threaded through them, and freep. */
module Heap {
  import opened MemLayout
  import opened HeapSpec
  import opened HeapCanon

  function NUnits(nbytes: nat): (n: nat)
    ensures 1 <= n && nbytes <= 8 * (n - 1) < nbytes + 8
  {
    (nbytes + 8 - 1) / 8 + 1
  }

  function CoreUnits(nu: nat): nat {
    if nu < 4096 then 4096 else nu
  }

  /** The bytes of nu units from a. */
  ghost function Region(a: int, nu: nat): iset<int> {
    Cell(map[a := nu], a)
  }

  /** The header before r and the nbytes from r on are memory of the heap and of no other live block. */
  ghost predicate OwnBytes(r: int, nbytes: nat, others: seq<int>, size: map<int, int>, mem: iset<int>) {
    && (forall x :: r - 8 <= x < r + nbytes ==> x in mem)
    && forall j :: 0 <= j < |others| ==>
         r + nbytes <= others[j] || others[j] + 8 * (if others[j] in size then size[others[j]] else 0) <= r - 8
  }

  lemma NewIsOwn(ring: seq<int>, size: map<int, int>, live: seq<int>, top: int, was: seq<int>, r: int, nbytes: nat)
    requires Loose(ring, size, live, top, 0, 0) && live == was + [r - 8] && nbytes <= 8 * (Word(size, r - 8) - 1)
    ensures OwnBytes(r, nbytes, was, size, Bytes(ring, size, live))
  {
    hide Order, Solid, Separate, Cells;
    var n := |was|;
    assert live[n] == r - 8;
    forall x | r - 8 <= x < r + nbytes ensures x in Bytes(ring, size, live) { InCells(live, size, n, x); }
    forall j | 0 <= j < n
      ensures r + nbytes <= was[j] || was[j] + 8 * (if was[j] in size then size[was[j]] else 0) <= r - 8
    {
      assert Apart(size, live[j], live[n]);
    }
  }

  lemma InCells(s: seq<int>, size: map<int, int>, i: nat, x: int)
    requires i < |s| && Holds(size, s[i], x)
    ensures x in Cells(s, size)
  {
  }

  lemma CoreBytes(nbytes: nat, brk: int)
    ensures var c := if nbytes <= 8 * 4095 then 4096 else (nbytes + 7) / 8 + 1;
            CoreUnits(NUnits(nbytes)) == c && forall x :: x in Region(brk, c) <==> brk <= x < brk + 8 * c
  {
  }

  /** Steps along a ring of n from position a to position b. */
  function Steps(a: nat, b: nat, n: nat): int {
    if a <= b then b - a else n - a + b
  }

  /** Positions after f, up to and including i, going round. */
  predicate Passed(f: nat, i: nat, m: nat) {
    if f <= i then f < m <= i else m > f || m <= i
  }

  /** Free block i is the first one after freep, going round, that has n units. */
  ghost predicate NextFit(ring: seq<int>, size: map<int, int>, freep: int, n: int, i: int) {
    && 0 < i < |ring| && n <= Word(size, ring[i])
    && exists f :: 0 <= f < |ring| && ring[f] == freep && NoneBetween(ring, size, f, i, n)
  }

  ghost predicate NoneBetween(ring: seq<int>, size: map<int, int>, f: nat, i: int, n: int) {
    forall m :: 0 <= m < |ring| && (if f < i then f < m < i else m > f || m < i) ==> Word(size, ring[m]) < n
  }

  lemma NextFitIs(ring: seq<int>, size: map<int, int>, f: nat, i: nat, n: int)
    requires f < |ring| && i + 1 < |ring| && n <= Word(size, ring[i + 1])
    requires forall m :: 0 <= m < |ring| && Passed(f, i, m) ==> Word(size, ring[m]) < n
    ensures NextFit(ring, size, ring[f], n, i + 1)
  {
    assert NoneBetween(ring, size, f, i + 1, n);
  }

  /** The last of the first n free blocks that lies below b. */
  function LastBelow(ring: seq<int>, b: int, n: nat): (k: nat)
    requires 1 <= n <= |ring| && ring[0] < b
    ensures k < n && ring[k] < b && (k + 1 < n ==> b <= ring[k + 1])
  {
    if n == 1 || ring[n - 1] < b then n - 1 else LastBelow(ring, b, n - 1)
  }

  /** free's loop stops exactly at the spot, and each step brings it nearer. */
  lemma SpotTest(ptr: map<int, int>, ring: seq<int>, b: int, i: nat, k: nat)
    requires Linked(ptr, ring) && Ascending(ring) && Spot(ring, b, k) && i < |ring| && b !in ring
    ensures var p, q := ring[i], Word(ptr, ring[i]);
            && q == ring[Succ(i, |ring|)]
            && ((b > p && b < q) || (p >= q && (b > p || b < q)) <==> i == k)
    ensures i != k ==> 0 <= Steps(Succ(i, |ring|), k, |ring|) < Steps(i, k, |ring|)
  {
    assert Points(ptr, ring, i);
    assert ring[i] in ring && ring[k] in ring;
    assert i < k ==> ring[i] < ring[k] && ring[i + 1] <= ring[k];
    assert k < i ==> ring[k + 1] <= ring[i] && ring[0] <= ring[k];
  }

  lemma SpotFacts(ring: seq<int>, size: map<int, int>, live: seq<int>, top: int, b: int)
    requires Loose(ring, size, live, top, 0, 0) && b in live
    ensures Ascending(ring) && b !in ring && ring[0] < b
    ensures var k := LastBelow(ring, b, |ring|); Spot(ring, b, k) && ring[0] <= ring[k] < b
  {
    OrderAscends(ring, size, 0, 0);
    var j :| 0 <= j < |live| && live[j] == b;
    LiveOutside(ring, size, live, top, j);
    hide Loose;
    var k := LastBelow(ring, b, |ring|);
    assert k + 1 < |ring| ==> ring[k + 1] in ring;
  }

  lemma ScanStart(ptr: map<int, int>, ring: seq<int>, f: nat)
    requires Linked(ptr, ring) && f < |ring|
    ensures Word(ptr, ring[f]) == ring[Succ(f, |ring|)] && forall m :: !Passed(f, f, m)
  {
    assert Points(ptr, ring, f);
  }

  /** One step of malloc's scan. */
  lemma ScanStep(ptr: map<int, int>, ring: seq<int>, f: nat, i: nat)
    requires Linked(ptr, ring) && f < |ring| && i < |ring|
    ensures var n, s := |ring|, Succ(i, |ring|);
            && s < n && Word(ptr, ring[s]) == ring[Succ(s, n)]
            && (s != f ==> 0 <= Steps(Succ(s, n), f, n) < Steps(s, f, n))
            && (forall m :: 0 <= m < n && s != f && Passed(f, s, m) ==> Passed(f, i, m) || m == s)
            && (s == f ==> forall m :: 0 <= m < n ==> Passed(f, i, m) || m == s)
  {
    assert Points(ptr, ring, Succ(i, |ring|));
  }

  /** After a whole turn without success, no free block is large enough. */
  lemma NothingFits(ptr: map<int, int>, ring: seq<int>, size: map<int, int>, live: seq<int>, top: int, n: int, f: nat,
                    i: nat)
    requires Loose(ring, size, live, top, 0, 0) && Linked(ptr, ring) && f < |ring| && i < |ring|
    requires ring[Succ(i, |ring|)] == ring[f]
    requires Word(size, ring[f]) < n && forall m :: 0 <= m < |ring| && Passed(f, i, m) ==> Word(size, ring[m]) < n
    ensures !Fits(ring, size, n)
  {
    OrderAscends(ring, size, 0, 0);
    ScanStep(ptr, ring, f, i);
    hide Loose, Linked, Passed;
    assert Succ(i, |ring|) == f;
  }

  lemma StartFacts(ptr: map<int, int>, size: map<int, int>, base: int, top: int)
    requires Word(ptr, base) == base && Word(size, base) == 0
    ensures Loose([base], size, [], top, 0, 0) && Linked(ptr, [base])
    ensures Units([base], size, []) == 0 && Bytes([base], size, []) == iset{}
  {
    assert Points(ptr, [base], 0);
    assert Sum([base], size, 1) == Sum([base], size, 0) + 0;
    assert Cells([base], size) == iset{};
  }

  lemma BaseIsEmpty(ring: seq<int>, size: map<int, int>, live: seq<int>, top: int)
    requires Loose(ring, size, live, top, 0, 0)
    ensures Word(size, ring[0]) == 0
  {
  }

  lemma FitsLess(ring: seq<int>, size: map<int, int>, m: int, n: int)
    requires Fits(ring, size, m) && n <= m
    ensures Fits(ring, size, n)
  {
    var i :| 0 <= i < |ring| && m <= Word(size, ring[i]);
    assert n <= Word(size, ring[i]);
  }

  /** What taking block i needs of the ring, and that its predecessor stays. */
  lemma TakeFacts(ptr: map<int, int>, ring: seq<int>, size: map<int, int>, live: seq<int>, top: int, i: nat)
    requires Loose(ring, size, live, top, 0, 0) && Linked(ptr, ring) && 1 <= i < |ring|
    ensures ring[0] <= ring[i - 1] < ring[i] && ring[i - 1] in Without(ring, i) && Without(ring, i)[0] == ring[0]
    ensures Linked(ptr[ring[i - 1] := Word(ptr, ring[i])], Without(ring, i))
  {
    OrderAscends(ring, size, 0, 0);
    hide Loose;
    LinkSkip(ptr, ring, i - 1);
    assert Without(ring, i)[i - 1] == ring[i - 1];
  }

  class Heap {
    const base: int
    var ptr: map<int, int>
    var size: map<int, int>
    var freep: int
    ghost var ring: seq<int>
    ghost var live: seq<int>
    ghost var top: int
    ghost var got: int
    ghost var mem: iset<int>
    ghost var cores: nat

    /** freep is null and nothing was allocated, or the heap is at rest: one ring through the free blocks, sorted
        by address with a single wrap; free neighbours never touch; live blocks are disjoint from each other and
        from the free ones; and all of them tile exactly the memory obtained from sbrk. */
    ghost predicate Valid()
      reads this
    {
      && 0 < base < top <= KERNBASE
      && if freep == 0 then ring == live == [] && got == 0 && mem == iset{} else
           && Loose(ring, size, live, top, 0, 0) && ring[0] == base && Linked(ptr, ring) && freep in ring
           && Units(ring, size, live) == got && Bytes(ring, size, live) == mem
    }

    constructor (base: int, top: int)
      requires 0 < base < top <= KERNBASE
      ensures Valid() && live == [] && got == 0 && this.base == base && this.top == top
    {
      this.base, ptr, size, freep := base, map[], map[], 0;
      ring, live, got, mem, this.top, cores := [], [], 0, iset{}, top, 0;
    }

    /** free's search. */
    method FindSpot(bp: int) returns (p: int, ghost k: nat)
      requires Valid() && bp in live
      ensures Spot(ring, bp, k) && k < |ring| && p == ring[k] && 0 < p < bp
    {
      hide Loose, Linked, Ascending, LastBelow, Steps, Units, Bytes, Spot;
      SpotFacts(ring, size, live, top, bp);
      k := LastBelow(ring, bp, |ring|);
      ghost var i :| 0 <= i < |ring| && ring[i] == freep;
      p := freep;
      SpotTest(ptr, ring, bp, i, k);
      while !(bp > p && bp < Word(ptr, p))
        invariant 0 <= i < |ring| && p == ring[i] && (bp > p && bp < Word(ptr, p) ==> i == k)
        decreases Steps(i, k, |ring|)
      {
        SpotTest(ptr, ring, bp, i, k);
        if p >= Word(ptr, p) && (bp > p || bp < Word(ptr, p)) { break; }
        p := Word(ptr, p);
        i := Succ(i, |ring|);
        SpotTest(ptr, ring, bp, i, k);
      }
    }

    method Free(ap: int, ghost j: nat)
      requires Valid() && j < |live| && live[j] == ap - 8
      modifies this
      ensures Valid() && live == Without(old(live), j)
      ensures forall i :: 0 <= i < |live| ==> Word(size, live[i]) == Word(old(size), live[i])
      ensures got == old(got) && mem == old(mem) && top == old(top) && cores == old(cores)
      ensures freep < ap - 8 && forall i :: 0 <= i < |ring| && ring[i] < ap - 8 ==> ring[i] <= freep
      ensures Fits(ring, size, Word(old(size), ap - 8)) && ring != []
    {
      hide Loose, Linked, LinkedBut, Insert, Without, UpRing, UpSize, FusedRing, FusedSize, Units, Bytes, Spot;
      var bp := ap - 8;
      var p, k := FindSpot(bp);
      JoinUp(ring, size, live, top, j, k);
      JoinUpLinks(ptr, ring, size, live, top, j, k);
      ghost var l, r, g := Without(live, j), UpRing(ring, size, k, bp), UpSize(ring, size, k, bp);
      if bp + 8 * Word(size, bp) == Word(ptr, p) {
        var next := Word(ptr, p);
        size := size[bp := Word(size, bp) + Word(size, next)];
        ptr := ptr[bp := Word(ptr, next)];
      } else {
        ptr := ptr[bp := Word(ptr, p)];
      }
      assert size == g;
      JoinDown(r, g, l, top, k);
      JoinDownLinks(ptr, r, g, l, top, k);
      if p + 8 * Word(size, p) == bp {
        size := size[p := Word(size, p) + Word(size, bp)];
        ptr := ptr[p := Word(ptr, bp)];
      } else {
        ptr := ptr[p := bp];
      }
      freep := p;
      ring, live := FusedRing(r, g, k), l;
    }

    /** morecore: the new block goes through free, so it is coalesced at once. */
    method Morecore(n: nat, brk: int) returns (p: int)
      requires Valid() && freep != 0 && 1 <= n
      requires brk == -1 || (top <= brk && brk + 8 * CoreUnits(n) <= KERNBASE)
      modifies this
      ensures Valid() && live == old(live) && cores == old(cores) + 1
      ensures forall i :: 0 <= i < |live| ==> Word(size, live[i]) == Word(old(size), live[i])
      ensures brk == -1 ==> p == 0 && freep == old(freep) && ring == old(ring) && got == old(got) && mem == old(mem)
      ensures brk != -1 ==> p == freep != 0 && Fits(ring, size, n) && got == old(got) + CoreUnits(n)
      ensures brk != -1 ==> mem == old(mem) + Region(brk, CoreUnits(n))
    {
      hide Loose, Linked, Units, Bytes, Fits;
      cores := cores + 1;
      var nu := if n < 4096 then 4096 else n;
      if brk == -1 { return 0; }
      Obtain(ring, size, live, top, brk, nu);
      size := size[brk := nu];
      live, top, got, mem := live + [brk], brk + 8 * nu, got + nu, mem + Cell(size, brk);
      WithoutLast(old(live), brk);
      Free(brk + 8, |live| - 1);
      FitsLess(ring, size, nu, n);
      return freep;
    }

    /** malloc's success branch. */
    method Take(prevp: int, block: int, nunits: nat, ghost i: nat) returns (r: int)
      requires Valid() && freep != 0 && 1 <= i < |ring| && block == ring[i] && prevp == ring[i - 1]
      requires 1 <= nunits <= Word(size, block)
      modifies this
      ensures Valid() && r != 0 && live == old(live) + [r - 8] && Word(size, r - 8) == nunits
      ensures forall j :: 0 <= j < |old(live)| ==> Word(size, live[j]) == Word(old(size), live[j])
      ensures got == old(got) && mem == old(mem) && cores == old(cores) && top == old(top)
      ensures freep == prevp && r == End(old(size), block) - 8 * nunits + 8
    {
      hide Loose, Linked, LinkedBut, Without, Units, Bytes;
      var p := block;
      TakeFacts(ptr, ring, size, live, top, i);
      if Word(size, p) == nunits {
        TakeWhole(ring, size, live, top, i);
        ptr := ptr[prevp := Word(ptr, p)];
        ring := Without(ring, i);
      } else {
        TakeTail(ring, size, live, top, i, nunits);
        size := size[p := Word(size, p) - nunits];
        p := p + 8 * Word(size, p);
        size := size[p := nunits];
      }
      freep := prevp;
      live := live + [p];
      return p + 8;
    }

    /** malloc returned the tail of the first block that fits after `was`, and left freep at the one before it. */
    ghost predicate TakenFrom(ring: seq<int>, size: map<int, int>, was: int, n: int, r: int, freep: int) {
      exists i :: NextFit(ring, size, was, n, i) && r == End(size, ring[i]) - 8 * n + 8 && freep == ring[i - 1]
    }

    /** malloc's loop: next fit, with one morecore after a full turn without success. */
    method Search(nunits: nat, brk: int) returns (r: int)
      requires Valid() && freep != 0 && 1 <= nunits
      requires brk == -1 || (top <= brk && brk + 8 * CoreUnits(nunits) <= KERNBASE)
      modifies this
      ensures Valid() && freep != 0 && (r == 0 <==> !Fits(old(ring), old(size), nunits) && brk == -1)
      ensures r == 0 ==> live == old(live)
      ensures r != 0 ==> live == old(live) + [r - 8] && Word(size, r - 8) == nunits
      ensures forall j :: 0 <= j < |old(live)| ==> Word(size, live[j]) == Word(old(size), live[j])
      ensures Fits(old(ring), old(size), nunits) ==>
                && cores == old(cores) && mem == old(mem) && got == old(got) && top == old(top)
                && TakenFrom(old(ring), old(size), old(freep), nunits, r, freep)
      ensures !Fits(old(ring), old(size), nunits) ==>
                && cores == old(cores) + 1
                && (if brk == -1 then mem == old(mem) && got == old(got)
                    else mem == old(mem) + Region(brk, CoreUnits(nunits)) && got == old(got) + CoreUnits(nunits))
    {
      hide Loose, Linked, Units, Bytes, Steps, Passed, Region, CoreUnits, Word, NextFit, End;
      ghost var f :| 0 <= f < |ring| && ring[f] == freep;
      ghost var i, grown := f, false;
      ghost var fits := Fits(ring, size, nunits);
      ScanStart(ptr, ring, f);
      var prevp := freep;
      var p := Word(ptr, prevp);
      while true
        invariant Valid() && freep != 0 && 0 <= f < |ring| && ring[f] == freep && 0 <= i < |ring| && prevp == ring[i]
        invariant p == ring[Succ(i, |ring|)]
        invariant forall m :: 0 <= m < |ring| && Passed(f, i, m) ==> Word(size, ring[m]) < nunits
        invariant if grown then Fits(ring, size, nunits) && !fits && brk != -1 else Fits(ring, size, nunits) == fits
        invariant !grown ==> ring == old(ring) && size == old(size) && freep == old(freep)
        invariant live == old(live) && forall j :: 0 <= j < |live| ==> Word(size, live[j]) == Word(old(size), live[j])
        invariant cores == old(cores) + (if grown then 1 else 0)
        invariant if grown then got == old(got) + CoreUnits(nunits) && mem == old(mem) + Region(brk, CoreUnits(nunits))
                  else got == old(got) && mem == old(mem) && top == old(top)
        decreases !grown, Steps(Succ(i, |ring|), f, |ring|)
      {
        ScanStep(ptr, ring, f, i);
        if Word(size, p) >= nunits {
          BaseIsEmpty(ring, size, live, top);
          NextFitIs(ring, size, f, i, nunits);
          r := Take(prevp, p, nunits, i + 1);
          return;
        }
        if p == freep {
          NothingFits(ptr, ring, size, live, top, nunits, f, i);
          p := Morecore(nunits, brk);
          if p == 0 { return 0; }
          grown := true;
          f :| 0 <= f < |ring| && ring[f] == freep;
          i := f;
          ScanStart(ptr, ring, f);
          prevp, p := p, Word(ptr, p);
        } else {
          i := Succ(i, |ring|);
          prevp, p := p, Word(ptr, p);
        }
      }
    }

    /** malloc; brk is what sbrk answers if it is asked (-1: refused). */
    method Malloc(nbytes: nat, brk: int) returns (r: int)
      requires Valid() && nbytes <= KERNBASE - 16
      requires brk == -1 || (top <= brk && brk + 8 * CoreUnits(NUnits(nbytes)) <= KERNBASE)
      modifies this
      ensures Valid() && freep != 0
      ensures r == 0 <==> !Fits(old(ring), old(size), NUnits(nbytes)) && brk == -1
      ensures r == 0 ==> live == old(live) && mem == old(mem)
      ensures r != 0 ==> live == old(live) + [r - 8] && nbytes <= 8 * (Word(size, r - 8) - 1) < nbytes + 8
      ensures forall j :: 0 <= j < |old(live)| ==> Word(size, live[j]) == Word(old(size), live[j])
      ensures Fits(old(ring), old(size), NUnits(nbytes)) ==>
                && cores == old(cores) && mem == old(mem) && got == old(got) && top == old(top)
                && TakenFrom(old(ring), old(size), old(freep), NUnits(nbytes), r, freep)
      ensures !Fits(old(ring), old(size), NUnits(nbytes)) ==>
                && cores == old(cores) + 1
                && (brk != -1 ==>
                      && got == old(got) + CoreUnits(NUnits(nbytes))
                      && mem == old(mem) + Region(brk, CoreUnits(NUnits(nbytes))))
      ensures !Fits(old(ring), old(size), NUnits(nbytes)) && brk != -1 ==>
                var c := if nbytes <= 8 * 4095 then 4096 else (nbytes + 7) / 8 + 1;
                got == old(got) + c && forall x :: x in mem <==> x in old(mem) || brk <= x < brk + 8 * c
      ensures r != 0 ==> OwnBytes(r, nbytes, old(live), size, mem)
    {
      hide Loose, Linked, Units, Bytes, Region, CoreUnits, NextFit, End, OwnBytes;
      var nunits := (nbytes + 8 - 1) / 8 + 1;
      if freep == 0 {
        var _ := Start();
      }
      ghost var was := live;
      r := Search(nunits, brk);
      CoreBytes(nbytes, brk);
      if r != 0 { NewIsOwn(ring, size, live, top, was, r, nbytes); }
    }

    /** The first call: the ring is the base header alone. */
    method Start() returns (p: int)
      requires Valid() && freep == 0
      modifies this
      ensures Valid() && p == freep == base && ring == [base] && Word(size, base) == 0
      ensures live == old(live) && got == old(got) && mem == old(mem) && top == old(top) && cores == old(cores)
    {
      ptr := ptr[base := base];
      freep, p := base, base;
      size := size[base := 0];
      ring := [base];
      StartFacts(ptr, size, base, top);
      hide Loose, Linked, Units, Bytes;
    }

    /** free undoes malloc: if memory sufficed, the ring and every size in it are as before. */
    method MallocThenFree(nbytes: nat)
      requires Valid() && freep != 0 && nbytes <= KERNBASE - 16 && Fits(ring, size, NUnits(nbytes))
      modifies this
      ensures Valid() && live == old(live) && mem == old(mem)
      ensures ring == old(ring) && forall i :: 0 <= i < |ring| ==> Word(size, ring[i]) == Word(old(size), ring[i])
    {
      hide Loose, Linked, Bytes, Units, Fits;
      var r := Malloc(nbytes, -1);
      WithoutLast(old(live), r - 8);
      Free(r, |live| - 1);
      FreeListIsCanonical(old(ring), old(size), ring, size, live, top);
    }
  }
}
