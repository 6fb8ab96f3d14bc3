/** vm.c and kalloc.c in place: one process's page table over the physical frames. */
module AddressSpace {
  import opened MemLayout
  import opened VmSpec
  import opened VmGrow

  function PgRoundUp(sz: nat): (r: nat)
    ensures sz <= r < sz + 4096 && r % 4096 == 0
  {
    (sz + 4096 - 1) / 4096 * 4096
  }

  /** Pages needed for sz bytes. */
  function Pages(sz: nat): (n: nat)
    ensures n * 4096 == PgRoundUp(sz)
  {
    (sz + 4096 - 1) / 4096
  }

  function Pdx(va: int): int { va / 0x40_0000 % 1024 }

  function Ptx(va: int): int { va / 4096 % 1024 }

  lemma PageIndex(v: int)
    requires IsPage(v)
    ensures Pdx(v * 4096) == DirOf(v) && Ptx(v * 4096) == SlotOf(v)
  {
  }

  /** Frame f lies wholly in the address range. */
  predicate Whole(vstart: int, vend: int, f: int) {
    vstart <= Kva(f) && Kva(f) + 4096 <= vend
  }

  datatype MapResult = MapsTo | NoTable | Remap

  class AddressSpace {
    const pd: int
    const first: int
    var mem: seq<Page>
    var head: int
    ghost var free: seq<int>
    ghost var own: seq<Owner>

    ghost function Value(): Vm
      reads this
    {
      Vm(mem, head, free, own, pd, first)
    }

    ghost predicate Valid()
      reads this
    {
      Inv(Value())
    }

    /** An empty directory at pd, no free frames yet. */
    constructor (pd: int, first: int)
      requires 1 <= first < FRAMES && 1 <= pd < FRAMES
      ensures Valid() && free == [] && Contiguous(Value(), 0) && mem == seq(FRAMES, _ => ZeroPage())
      ensures own == seq(FRAMES, _ => Other)[pd := Dir] && this.first == first && this.pd == pd
    {
      this.pd, this.first, head := pd, first, 0;
      mem := seq(FRAMES, _ => ZeroPage());
      free, own := [], seq(FRAMES, _ => Other)[pd := Dir];
      new;
      EmptySpace(Value());
    }

    /** freerange: the pages that lie wholly in vstart..vend go on the free list. */
    method Freerange(vstart: int, vend: int)
      requires Valid() && Kva(first) <= vstart && vend <= KERNBASE + 0xE00_0000
      requires forall f :: 0 <= f < FRAMES && Whole(vstart, vend, f) ==> own[f] == Other
      modifies this
      ensures Valid()
      ensures forall f :: 0 <= f < FRAMES ==> own[f] == if Whole(vstart, vend, f) then Free else old(own)[f]
      ensures forall f :: 0 <= f < FRAMES && own[f] != Free ==> mem[f] == old(mem)[f]
      ensures forall v :: IsPage(v) ==> Frame(Value(), v) == Frame(old(Value()), v)
    {
      hide Inv, FreeOk;
      ghost var s := Value();
      RangeStart(s);
      var p := KERNBASE + (vstart - KERNBASE + 4095) / 4096 * 4096;
      assert vstart <= p < vstart + 4096;
      ghost var lo := (p - KERNBASE) / 4096;
      ghost var i := lo;
      while p + 4096 <= vend
        invariant lo <= i && p == Kva(i) && (lo < i ==> p <= vend) && Added(s, Value(), lo, i)
        decreases vend - p
      {
        assert Whole(vstart, vend, i);
        AddedStep(s, Value(), lo, i);
        var ok := Kfree(p);
        assert ok;
        p, i := p + 4096, i + 1;
      }
      AddedDone(s, Value(), lo, i);
      assert forall f :: Whole(vstart, vend, f) <==> lo <= f < i;
    }

    method Kalloc() returns (r: int)
      requires Shaped(Value()) && FreeOk(Value())
      modifies this
      ensures r == 0 <==> old(free) == []
      ensures r == 0 ==> Value() == old(Value())
      ensures r != 0 ==> 0 <= old(free)[0] < FRAMES && r == Kva(old(free)[0]) && Value() == Popped(old(Value()))
      ensures r != 0 ==> r == 0x8000_0000 + old(free)[0] * 4096 && mem == old(mem) && head == mem[old(free)[0]][0]
    {
      if free != [] { assert FreeAt(Value(), 0); }
      r := head;
      if r != 0 {
        head := mem[(r - KERNBASE) / 4096][0];
        own := own[free[0] := Held];
        free := free[1..];
      }
    }

    method Kfree(v: int) returns (ok: bool)
      requires Shaped(Value()) && FreeOk(Value())
      modifies this
      ensures ok <==> v % 4096 == 0 && Kva(first) <= v < KERNBASE + 0xE00_0000
      ensures !ok ==> Value() == old(Value())
      ensures ok ==> 0 <= (v - KERNBASE) / 4096 < FRAMES && Value() == Pushed(old(Value()), (v - KERNBASE) / 4096)
      ensures ok ==> var f := (v - 0x8000_0000) / 4096;
                     && head == v && 0 <= f < 0xE000 && |mem| == 0xE000 && |mem[f]| == 1024 && mem[f][0] == old(head)
                     && forall i :: 1 <= i < 1024 ==> mem[f][i] == 0x0101_0101
    {
      if v % 4096 != 0 || v < Kva(first) || v - KERNBASE >= 0xE00_0000 { return false; }
      var f := (v - KERNBASE) / 4096;
      mem := mem[f := JunkPage(head)];
      head := v;
      free, own := [f] + free, own[f := Free];
      return true;
    }

    /** walkpgdir: the frame of the page table for va, or 0. */
    method Walk(va: int, alloc: bool) returns (t: int)
      requires Valid() && 0 <= va < 0x1_0000_0000
      modifies this
      ensures Present(Pde(old(Value()), Pdx(va))) ==>
                t == FrameOf(Pde(old(Value()), Pdx(va))) && Value() == old(Value())
      ensures !Present(Pde(old(Value()), Pdx(va))) && (!alloc || old(free) == []) ==> t == 0 && Value() == old(Value())
      ensures !Present(Pde(old(Value()), Pdx(va))) && alloc && old(free) != [] ==>
                0 <= old(free)[0] < FRAMES && t == old(free)[0] && Value() == Tabled(old(Value()), Pdx(va))
    {
      assert own[pd] == Dir && (free != [] ==> FreeAt(Value(), 0));
      hide Space, Present;
      var d := Pdx(va);
      var pde := mem[pd][d];
      if Present(pde) { return FrameOf(pde); }
      if !alloc { return 0; }
      var p := Kalloc();
      if p == 0 { return 0; }
      t := (p - KERNBASE) / 4096;
      mem := mem[t := ZeroPage()];
      mem := mem[pd := mem[pd][d := p - KERNBASE + 7]];
      own := own[t := Table(d)];
    }

    /** mappages as allocuvm calls it: one page at a, for the frame f. */
    method MapPage(a: int, f: int) returns (r: MapResult)
      requires Valid() && a % 4096 == 0 && IsPage(a / 4096) && IsFrame(Value(), f) && own[f] == Held
      modifies this
      ensures var v, s := a / 4096, old(Value());
              var u := TableFor(s, DirOf(v));
              && (r == NoTable <==> !HasTable(s, DirOf(v)) && s.free == []) && (r == NoTable ==> Value() == s)
              && (r == Remap <==> Frame(s, v) != -1) && (r == Remap ==> Value() == s)
              && (r == MapsTo ==> Shaped(u) && HasTable(u, DirOf(v)) && Value() == Paged(u, v, f))
    {
      hide FreeOk, Present, FrameOf, Pdx, Ptx, DirOf, SlotOf, PgRoundUp, ZeroPage;
      var v := a / 4096;
      ghost var s := Value();
      PageParts(v);
      PageIndex(v);
      assert DirAt(s, DirOf(v));
      MappedFrame(s, v);
      hide Space;
      if s.free != [] && !Present(Pde(s, DirOf(v))) {
        TableKeeps(s, DirOf(v));
        EntryParts(s.free[0]);
        MappedFrame(Tabled(s, DirOf(v)), v);
        assert Kept(s, Tabled(s, DirOf(v)), v);
      }
      var t := Walk(a, true);
      if t == 0 { return NoTable; }
      if Present(mem[t][Ptx(a)]) { return Remap; }
      mem := mem[t := mem[t][Ptx(a) := f * 4096 + 7]];
      own := own[f := User(DirOf(v), SlotOf(v))];
      return MapsTo;
    }

    /** The body of deallocuvm's loop: how far to skip because there is no table. */
    method DeallocPage(a: int, ghost v: int, ghost s: Vm, ghost lo: int, ghost hi: int,
                       ghost n: int) returns (skip: int)
      requires Valid() && IsPage(v) && lo <= v < hi <= UPAGES && a == v * 4096
      requires Shrunk(s, Value(), lo, v) && Contiguous(s, n)
      modifies this
      ensures Valid() && (skip == 0 || skip == 1023 * 4096)
      ensures var w := v + skip / 4096 + 1; Shrunk(s, Value(), lo, if w < hi then w else hi)
    {
      hide FreeOk, Present, FrameOf, Pdx, Ptx, DirOf, SlotOf, PgRoundUp, Shrunk, Contiguous, JunkPage, ZeroPage;
      ghost var r := Value();
      PageParts(v);
      PageIndex(v);
      assert DirAt(r, DirOf(v));
      hide Space;
      MappedFrame(r, v);
      if Frame(r, v) == -1 { NoTableNoMore(s, r, n, lo, v); }
      var t := Walk(a, false);
      if t == 0 {
        ShrinkSkip(s, r, lo, v, if v + ENTRIES < hi then v + ENTRIES else hi);
        return 1023 * 4096;
      }
      var pte := mem[t][Ptx(a)];
      if Present(pte) {
        UnmapOrder(r, v);
        ShrinkStep(s, r, lo, v);
        var pa := FrameOf(pte) * 4096;
        assert pa != 0;
        var ok := Kfree(KERNBASE + pa);
        assert ok;
        mem := mem[t := mem[t][Ptx(a) := 0]];
      } else {
        ShrinkSkip(s, r, lo, v, v + 1);
      }
      return 0;
    }

    /** deallocuvm on a contiguous image of n pages. */
    method Deallocuvm(oldsz: nat, newsz: nat, ghost n: int) returns (r: nat)
      requires Valid() && oldsz <= KERNBASE && Contiguous(Value(), n)
      modifies this
      ensures Valid() && r == if newsz >= oldsz then oldsz else newsz
      ensures newsz >= oldsz ==> Value() == old(Value())
      ensures newsz < oldsz ==> Shrunk(old(Value()), Value(), Pages(newsz), Pages(oldsz))
      ensures newsz < oldsz ==> MmuShrunk(old(Value()), Value(), (newsz + 4095) / 4096, (oldsz + 4095) / 4096)
    {
      if newsz >= oldsz { return oldsz; }
      ghost var s, lo, hi := Value(), Pages(newsz), Pages(oldsz);
      assert Shrunk(s, Value(), lo, lo);
      hide Space, FreeOk, Shrunk, Contiguous, Pages, MmuShrunk;
      var a := PgRoundUp(newsz);
      ghost var v := lo;
      while a < oldsz
        invariant Valid() && lo <= v && a == v * 4096 && Shrunk(s, Value(), lo, if v < hi then v else hi)
        decreases oldsz - a
      {
        var skip := DeallocPage(a, v, s, lo, hi, n);
        a := a + skip + 4096;
        v := v + skip / 4096 + 1;
      }
      ShrunkIsMmuShrunk(s, Value(), lo, hi);
      return newsz;
    }

    /** The body of allocuvm's loop once kalloc has succeeded; it leaks if there is no frame for a table. */
    method AllocPage(a: int, p: int, ghost v: int, ghost s: Vm, ghost r: Vm, ghost lo: int) returns (ghost leaked: bool)
      requires Growing(s, r, lo, v) && Contiguous(s, lo) && 0 <= lo <= v && IsPage(v) && a == v * 4096
      requires r.free != [] && 0 <= r.free[0] < FRAMES && p == Kva(r.free[0]) && Value() == Popped(r)
      modifies this
      ensures leaked <==> NeedsTable(s, lo, v) && |r.free| == 1
      ensures leaked ==> Leaked(s, Value(), lo, v)
      ensures !leaked ==> Growing(s, Value(), lo, v + 1) && |free| == |r.free| - if NeedsTable(s, lo, v) then 2 else 1
    {
      hide Growing, Inv, Contiguous, NeedsTable, HasTable, TableFor, Paged, DirOf, Frame, ZeroPage, Outlook;
      TurnBegun(s, r, lo, v);
      var f := (p - KERNBASE) / 4096;
      mem := mem[f := ZeroPage()];
      assert Value() == Granted(r);
      assert a / 4096 == v && f == r.free[0];
      hide Granted;
      var m := MapPage(a, f);
      leaked := m == NoTable;
      if leaked {
        LeakStep(s, r, lo, v);
        own := own[f := Lost];
      } else {
        TurnDone(s, r, lo, v);
      }
    }

    /** allocuvm on a contiguous image. */
    method Allocuvm(oldsz: nat, newsz: nat) returns (r: nat)
      requires Valid() && Contiguous(Value(), Pages(oldsz))
      modifies this
      ensures newsz >= KERNBASE ==> r == 0 && Value() == old(Value())
      ensures newsz < KERNBASE && newsz < oldsz ==> r == oldsz && Value() == old(Value())
      ensures oldsz <= newsz < KERNBASE ==>
                var lo, n := Pages(oldsz), Pages(newsz);
                var out := Outlook(old(Value()), lo, lo, n, |old(free)|);
                && Result(old(Value()), Value(), lo, n, out)
                && r == match out
                        case Maps => newsz
                        case RollsBack => 0
                        case Leaks(page) => if page == n - 1 then newsz else 0
      ensures oldsz <= newsz < 0x8000_0000 ==>
                var lo, n := (oldsz + 4095) / 4096, (newsz + 4095) / 4096;
                && Shaped(Value()) && MmuApart(Value())
                && MmuGrown(old(Value()), Value(), lo, Reached(lo, n, Outlook(old(Value()), lo, lo, n, |old(free)|)))
    {
      hide Inv, Growing, Leaked, FreeOk, Shaped, Contiguous, Pages, PgRoundUp, NeedsTable, Shrunk, Result;
      hide Popped, Outlook, MmuGrown, MmuApart, MmuShrunk, Reached;
      if newsz >= KERNBASE { return 0; }
      if newsz < oldsz { return oldsz; }
      ghost var s, lo, n := Value(), Pages(oldsz), Pages(newsz);
      ghost var v, lost := lo, false;
      assert n <= UPAGES;
      GrowStart(s, lo);
      var a := PgRoundUp(oldsz);
      while a < newsz
        invariant lo <= v && a == v * 4096 && (v <= n)
        invariant if lost then lo < v && Leaked(s, Value(), lo, v - 1) else Growing(s, Value(), lo, v)
        invariant Outlook(s, lo, lo, n, |s.free|) == if lost then Leaks(v - 1) else Outlook(s, lo, v, n, |free|)
        decreases newsz - a
      {
        ghost var t, m := Value(), if lost then v - 1 else v;
        LoopState(s, t, lo, m, lost);
        OutlookStep(s, lo, v, n, |free|);
        var p := Kalloc();
        if p == 0 {
          LoopContiguous(s, t, lo, m, lost);
          var _ := Deallocuvm(newsz, oldsz, m);
          LoopUndone(s, t, Value(), lo, m, n, lost);
          ResultIsMmuGrown(s, Value(), lo, n, Outlook(s, lo, lo, n, |s.free|));
          return 0;
        }
        lost := AllocPage(a, p, v, s, t, lo);
        a, v := a + 4096, v + 1;
      }
      LoopState(s, Value(), lo, if lost then v - 1 else v, lost);
      OutlookStep(s, lo, v, n, |free|);
      LoopDone(s, Value(), lo, n, lost);
      ResultIsMmuGrown(s, Value(), lo, n, Outlook(s, lo, lo, n, |s.free|));
      return newsz;
    }

    /** freevm: the address space of a contiguous image is taken apart. */
    method Freevm(ghost n: int)
      requires Valid() && Contiguous(Value(), n) && IsFrame(Value(), pd)
      modifies this
      ensures Released(old(Value()), Value())
    {
      hide Inv, FreeOk, Shaped, Contiguous, Shrunk, Dismantled, Released, Pages, Present, FrameOf, MmuShrunk;
      var _ := Deallocuvm(KERNBASE, 0, n);
      ghost var x := Value();
      DismantleStart(x);
      var i := 0;
      while i < ENTRIES
        invariant 0 <= i <= ENTRIES && Dismantled(x, Value(), i)
      {
        DismantleState(x, Value(), i);
        if Present(mem[pd][i]) {
          DismantleStep(x, Value(), i);
          var ok := Kfree(Kva(FrameOf(mem[pd][i])));
          assert ok;
        } else {
          DismantleSkip(x, Value(), i);
        }
        i := i + 1;
      }
      ReleaseDone(old(Value()), x, Value());
      DismantleState(x, Value(), i);
      var ok := Kfree(Kva(pd));
      assert ok;
    }
  }

  /** allocuvm reports success without the page: one free frame, and no table for page 0 yet. */
  method SuccessWithoutPage() returns (a: AddressSpace, r: nat)
    ensures r == 4096 && Shaped(a.Value()) && Frame(a.Value(), 0) == -1
    ensures exists f :: 0 <= f < FRAMES && a.own[f] == Lost
  {
    a := new AddressSpace(1, 2);
    assert a.mem[1] == ZeroPage();
    a.Freerange(Kva(2), Kva(3));
    ghost var s := a.Value();
    EntryParts(0);
    assert forall f :: Whole(Kva(2), Kva(3), f) <==> f == 2;
    OnlyFree(s, 2);
    assert Pde(s, 0) == 0 && !HasTable(s, 0) && NeedsTable(s, 0, 0);
    OutlookStep(s, 0, 0, 1, 1);
    assert Outlook(s, 0, 0, 1, 1) == Leaks(0);
    r := a.Allocuvm(0, 4096);
  }
}
