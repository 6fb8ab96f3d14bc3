/** vm.c and kalloc.c as values: physical frames, the free list threaded through them, and one two-level page table. */
module VmSpec {
  import opened MemLayout

  const ENTRIES := 1024
  /** Directory entries below KERNBASE. */
  const UDIRS := 512
  /** PHYSTOP / PGSIZE. */
  const FRAMES := 0xE000

  type Page = seq<int>

  /** What a frame is used for. Lost: allocated, but no longer reachable from anywhere. */
  datatype Owner = Other | Free | Held | Lost | Dir | Table(d: int) | User(d: int, t: int)

  datatype Vm = Vm(mem: seq<Page>, head: int, free: seq<int>, own: seq<Owner>, pd: int, first: int)

  // ----- words (section 4.3 of the Intel SDM, volume 3A: 32-bit paging)

  predicate Present(w: int) { w % 2 == 1 }

  function FrameOf(w: int): int { w / 4096 }

  /** A present, writable user entry. */
  function Entry(f: int): int { f * 4096 + 7 }

  lemma EntryParts(f: int)
    ensures Present(Entry(f)) && FrameOf(Entry(f)) == f && !Present(0) && Entry(f) % 8 == 7
  {
    WordParts(4096, f);
    WordParts(2, 2048 * f + 3);
    WordParts(8, 512 * f);
  }

  lemma WordParts(k: int, q: int)
    requires k == 2 || k == 8 || k == 4096
    ensures var w := k * q + if k == 2 then 1 else 7;
            w / k == q && w % k == if k == 2 then 1 else 7
  {
    if k == 2 { assert (2 * q + 1) / 2 == q; }
    else if k == 8 { assert (8 * q + 7) / 8 == q; }
    else { assert (4096 * q + 7) / 4096 == q; }
  }

  /** The kernel's address of a frame; 0 is null. */
  function Kva(f: int): int { KERNBASE + f * 4096 }

  function ZeroPage(): (p: Page)
    ensures |p| == ENTRIES
  {
    seq(ENTRIES, _ => 0)
  }

  /** A freed page: filled with ones, then the link to the next free page. */
  function JunkPage(next: int): (p: Page)
    ensures |p| == ENTRIES && p[0] == next
  {
    seq(ENTRIES, i => if i == 0 then next else 0x01010101)
  }

  // ----- the invariant

  predicate IsFrame(s: Vm, f: int) {
    1 <= s.first <= f < FRAMES
  }

  ghost predicate Shaped(s: Vm) {
    && |s.mem| == |s.own| == FRAMES && 1 <= s.first < FRAMES && 1 <= s.pd < FRAMES
    && forall f :: 0 <= f < FRAMES ==> |s.mem[f]| == ENTRIES
  }

  function Link(free: seq<int>, i: nat): int {
    if i < |free| then Kva(free[i]) else 0
  }

  ghost predicate FreeAt(s: Vm, i: int)
    requires Shaped(s) && 0 <= i < |s.free|
  {
    IsFrame(s, s.free[i]) && s.own[s.free[i]] == Free && s.mem[s.free[i]][0] == Link(s.free, i + 1)
  }

  /** The free list holds exactly the free frames, each once. */
  ghost predicate FreeOk(s: Vm)
    requires Shaped(s)
  {
    && s.head == Link(s.free, 0)
    && (forall i :: 0 <= i < |s.free| ==> FreeAt(s, i))
    && (forall i, j :: 0 <= i < j < |s.free| ==> s.free[i] != s.free[j])
    && (forall f :: 0 <= f < FRAMES && s.own[f] == Free ==> f in s.free)
  }

  function Pde(s: Vm, d: int): int
    requires Shaped(s) && 0 <= d < ENTRIES
  {
    s.mem[s.pd][d]
  }

  /** Entry d of the directory is empty or points to its own table, which nothing else uses; present, writable, user. */
  ghost predicate DirAt(s: Vm, d: int)
    requires Shaped(s) && 0 <= d < ENTRIES
  {
    Present(Pde(s, d)) ==>
      IsFrame(s, FrameOf(Pde(s, d))) && s.own[FrameOf(Pde(s, d))] == Table(d) && Pde(s, d) % 8 == 7
  }

  predicate HasTable(s: Vm, d: int)
    requires Shaped(s) && 0 <= d < ENTRIES
  {
    Present(Pde(s, d)) && IsFrame(s, FrameOf(Pde(s, d)))
  }

  /** The page-table entry of a page; 0 without a table. */
  function Pte(s: Vm, d: int, t: int): int
    requires Shaped(s) && 0 <= d < ENTRIES && 0 <= t < ENTRIES
  {
    if HasTable(s, d) then s.mem[FrameOf(Pde(s, d))][t] else 0
  }

  /** The frame a user page is mapped to, or -1. */
  function Lookup(s: Vm, d: int, t: int): int
    requires Shaped(s) && 0 <= d < ENTRIES && 0 <= t < ENTRIES
  {
    if Present(Pte(s, d, t)) then FrameOf(Pte(s, d, t)) else -1
  }

  predicate IsUser(d: int, t: int) {
    0 <= d < UDIRS && 0 <= t < ENTRIES
  }

  /** A mapped user page has a frame of its own. */
  ghost predicate UserAt(s: Vm, d: int, t: int)
    requires Shaped(s) && IsUser(d, t)
  {
    Present(Pte(s, d, t)) ==> IsFrame(s, Lookup(s, d, t)) && s.own[Lookup(s, d, t)] == User(d, t)
  }

  /** Every frame labelled as part of the address space is where its label says. */
  ghost predicate Placed(s: Vm, f: int)
    requires Shaped(s) && 0 <= f < FRAMES
  {
    match s.own[f]
    case Dir => f == s.pd
    case Table(d) => 0 <= d < ENTRIES && HasTable(s, d) && FrameOf(Pde(s, d)) == f
    case User(d, t) => IsUser(d, t) && Lookup(s, d, t) == f
    case _ => true
  }

  ghost predicate Inv(s: Vm) {
    Shaped(s) && FreeOk(s) && Space(s)
  }

  ghost predicate Space(s: Vm)
    requires Shaped(s)
  {
    && s.own[s.pd] == Dir
    && (forall d :: 0 <= d < ENTRIES ==> DirAt(s, d))
    && (forall d, t :: IsUser(d, t) ==> UserAt(s, d, t))
    && (forall f :: 0 <= f < FRAMES ==> Placed(s, f))
  }

  // ----- kalloc and kfree

  function Popped(s: Vm): Vm
    requires Shaped(s) && s.free != [] && 0 <= s.free[0] < FRAMES
  {
    s.(head := s.mem[s.free[0]][0], free := s.free[1..], own := s.own[s.free[0] := Held])
  }

  lemma PopKeeps(s: Vm)
    requires Shaped(s) && FreeOk(s) && s.free != []
    ensures IsFrame(s, s.free[0]) && Shaped(Popped(s)) && FreeOk(Popped(s))
  {
    assert FreeAt(s, 0);
    var f, r := s.free[0], Popped(s);
    forall i | 0 <= i < |r.free| ensures FreeAt(r, i) { assert FreeAt(s, i + 1) && s.free[0] != s.free[i + 1]; }
    forall i, j | 0 <= i < j < |r.free| ensures r.free[i] != r.free[j] { assert s.free[i + 1] != s.free[j + 1]; }
    forall g | 0 <= g < FRAMES && r.own[g] == Free ensures g in r.free { assert g in s.free && g != f; }
  }

  function Pushed(s: Vm, f: int): Vm
    requires Shaped(s) && 0 <= f < FRAMES
  {
    s.(mem := s.mem[f := JunkPage(s.head)], head := Kva(f), free := [f] + s.free, own := s.own[f := Free])
  }

  lemma PushKeeps(s: Vm, f: int)
    requires Shaped(s) && FreeOk(s) && IsFrame(s, f) && s.own[f] != Free
    ensures Shaped(Pushed(s, f)) && FreeOk(Pushed(s, f))
  {
    var r := Pushed(s, f);
    forall i | 0 <= i < |s.free| ensures s.free[i] != f { assert FreeAt(s, i); }
    forall i | 0 <= i < |r.free| ensures FreeAt(r, i) { assert i > 0 ==> FreeAt(s, i - 1); }
    forall i, j | 0 <= i < j < |r.free| ensures r.free[i] != r.free[j] {
      assert i > 0 ==> s.free[i - 1] != s.free[j - 1];
    }
    forall g | 0 <= g < FRAMES && r.own[g] == Free ensures g in r.free { if g != f { assert g in s.free; } }
  }

  // ----- the page table

  predicate InSpace(o: Owner) {
    o.Dir? || o.Table? || o.User?
  }

  /** The labels of the address space and the contents of its directory and tables are the same. */
  ghost predicate SameTables(s: Vm, r: Vm) {
    && Shaped(s) && Shaped(r) && r.pd == s.pd && r.first == s.first
    && forall f :: 0 <= f < FRAMES ==>
         && (InSpace(s.own[f]) || InSpace(r.own[f]) ==> r.own[f] == s.own[f])
         && (s.own[f].Dir? || s.own[f].Table? ==> r.mem[f] == s.mem[f])
  }

  lemma SameTablesKeeps(s: Vm, r: Vm)
    requires SameTables(s, r) && Space(s)
    ensures Space(r)
    ensures forall d :: 0 <= d < ENTRIES ==> Pde(r, d) == Pde(s, d)
    ensures forall d, t :: 0 <= d < ENTRIES && 0 <= t < ENTRIES ==> Pte(r, d, t) == Pte(s, d, t)
  {
    assert r.mem[s.pd] == s.mem[s.pd];
    forall d, t | 0 <= d < ENTRIES && 0 <= t < ENTRIES
      ensures Pde(r, d) == Pde(s, d) && Pte(r, d, t) == Pte(s, d, t)
    {
      assert DirAt(s, d);
    }
    forall d | 0 <= d < ENTRIES ensures DirAt(r, d) { assert DirAt(s, d); }
    forall d, t | IsUser(d, t) ensures UserAt(r, d, t) { assert UserAt(s, d, t); }
    forall f | 0 <= f < FRAMES ensures Placed(r, f) { assert Placed(s, f); }
  }

  /** walkpgdir's new table. */
  function WithTable(s: Vm, d: int, f: int): Vm
    requires Shaped(s) && 0 <= d < ENTRIES && 0 <= f < FRAMES
  {
    s.(mem := s.mem[f := ZeroPage()][s.pd := s.mem[s.pd][d := Entry(f)]], own := s.own[f := Table(d)])
  }

  lemma WithTableKeeps(s: Vm, d: int, f: int)
    requires Shaped(s) && Space(s) && 0 <= d < ENTRIES && !Present(Pde(s, d)) && IsFrame(s, f) && s.own[f] == Held
    ensures Shaped(WithTable(s, d, f)) && Space(WithTable(s, d, f)) && HasTable(WithTable(s, d, f), d)
    ensures forall e :: 0 <= e < ENTRIES && e != d ==> Pde(WithTable(s, d, f), e) == Pde(s, e)
    ensures forall e, t :: 0 <= e < ENTRIES && 0 <= t < ENTRIES ==> Pte(WithTable(s, d, f), e, t) == Pte(s, e, t)
  {
    var r := WithTable(s, d, f);
    EntryParts(f);
    assert Placed(s, f);
    hide FrameOf, Present, Entry;
    forall e, t | 0 <= e < ENTRIES && 0 <= t < ENTRIES ensures Pte(r, e, t) == Pte(s, e, t) { assert DirAt(s, e); }
    forall e | 0 <= e < ENTRIES ensures DirAt(r, e) { assert DirAt(s, e); }
    forall e, t | IsUser(e, t) ensures UserAt(r, e, t) { assert UserAt(s, e, t); }
    forall g | 0 <= g < FRAMES ensures Placed(r, g) { assert Placed(s, g); }
  }

  function SetPte(s: Vm, d: int, t: int, w: int): Vm
    requires Shaped(s) && 0 <= d < ENTRIES && 0 <= t < ENTRIES && HasTable(s, d)
  {
    var p := FrameOf(Pde(s, d));
    s.(mem := s.mem[p := s.mem[p][t := w]])
  }

  lemma SetPteEffect(s: Vm, d: int, t: int, w: int)
    requires Shaped(s) && Space(s) && 0 <= d < ENTRIES && 0 <= t < ENTRIES && HasTable(s, d)
    ensures Shaped(SetPte(s, d, t, w))
    ensures forall e :: 0 <= e < ENTRIES ==> Pde(SetPte(s, d, t, w), e) == Pde(s, e)
    ensures forall e, x :: 0 <= e < ENTRIES && 0 <= x < ENTRIES ==>
              Pte(SetPte(s, d, t, w), e, x) == if e == d && x == t then w else Pte(s, e, x)
  {
    hide FrameOf, Present;
    var r := SetPte(s, d, t, w);
    assert DirAt(s, d);
    forall e, x | 0 <= e < ENTRIES && 0 <= x < ENTRIES
      ensures Pte(r, e, x) == if e == d && x == t then w else Pte(s, e, x)
    {
      assert DirAt(s, e);
    }
  }

  /** mappages on one page. */
  function WithPage(s: Vm, d: int, t: int, f: int): Vm
    requires Shaped(s) && 0 <= d < ENTRIES && 0 <= t < ENTRIES && HasTable(s, d) && 0 <= f < FRAMES
  {
    SetPte(s, d, t, Entry(f)).(own := s.own[f := User(d, t)])
  }

  lemma WithPageKeeps(s: Vm, d: int, t: int, f: int)
    requires Shaped(s) && Space(s) && IsUser(d, t) && HasTable(s, d) && !Present(Pte(s, d, t)) && IsFrame(s, f)
    requires s.own[f] == Held
    ensures Shaped(WithPage(s, d, t, f)) && Space(WithPage(s, d, t, f))
    ensures forall e :: 0 <= e < ENTRIES ==> Pde(WithPage(s, d, t, f), e) == Pde(s, e)
    ensures forall e, x :: 0 <= e < ENTRIES && 0 <= x < ENTRIES ==>
              Pte(WithPage(s, d, t, f), e, x) == if e == d && x == t then Entry(f) else Pte(s, e, x)
    ensures Lookup(WithPage(s, d, t, f), d, t) == f && Entry(f) % 8 == 7
  {
    var u, r := SetPte(s, d, t, Entry(f)), WithPage(s, d, t, f);
    EntryParts(f);
    SetPteEffect(s, d, t, Entry(f));
    hide FrameOf, Present, Entry, SetPte;
    assert forall e, x :: 0 <= e < ENTRIES && 0 <= x < ENTRIES ==> Pte(r, e, x) == Pte(u, e, x);
    forall e | 0 <= e < ENTRIES ensures DirAt(r, e) { assert DirAt(s, e); }
    forall e, x | IsUser(e, x) ensures UserAt(r, e, x) { assert UserAt(s, e, x); }
    forall g | 0 <= g < FRAMES ensures Placed(r, g) { assert Placed(s, g); }
  }

  /** deallocuvm on one page, up to the label: its frame is in no table any more. */
  function WithoutPage(s: Vm, d: int, t: int): Vm
    requires Shaped(s) && 0 <= d < ENTRIES && 0 <= t < ENTRIES && HasTable(s, d) && 0 <= Lookup(s, d, t) < FRAMES
  {
    SetPte(s, d, t, 0).(own := s.own[Lookup(s, d, t) := Held])
  }

  lemma WithoutPageKeeps(s: Vm, d: int, t: int)
    requires Shaped(s) && Space(s) && IsUser(d, t) && HasTable(s, d) && Present(Pte(s, d, t))
    ensures IsFrame(s, Lookup(s, d, t)) && s.own[Lookup(s, d, t)] == User(d, t)
    ensures Shaped(WithoutPage(s, d, t)) && Space(WithoutPage(s, d, t))
    ensures forall e :: 0 <= e < ENTRIES ==> Pde(WithoutPage(s, d, t), e) == Pde(s, e)
    ensures forall e, x :: 0 <= e < ENTRIES && 0 <= x < ENTRIES ==>
              Pte(WithoutPage(s, d, t), e, x) == if e == d && x == t then 0 else Pte(s, e, x)
    ensures Lookup(WithoutPage(s, d, t), d, t) == -1
  {
    assert UserAt(s, d, t);
    var u, r := SetPte(s, d, t, 0), WithoutPage(s, d, t);
    EntryParts(0);
    SetPteEffect(s, d, t, 0);
    hide FrameOf, Present, Entry, SetPte;
    assert forall e, x :: 0 <= e < ENTRIES && 0 <= x < ENTRIES ==> Pte(r, e, x) == Pte(u, e, x);
    forall e | 0 <= e < ENTRIES ensures DirAt(r, e) { assert DirAt(s, e); }
    forall e, x | IsUser(e, x) ensures UserAt(r, e, x) { assert UserAt(s, e, x); }
    forall g | 0 <= g < FRAMES ensures Placed(r, g) { assert Placed(s, g); }
  }

  /** The free list is not disturbed by a change elsewhere. */
  lemma FreeFrame(s: Vm, r: Vm)
    requires Shaped(s) && Shaped(r) && FreeOk(s) && r.head == s.head && r.free == s.free && r.first == s.first
    requires forall f :: 0 <= f < FRAMES ==>
               (r.own[f] == Free <==> s.own[f] == Free) && (s.own[f] == Free ==> r.mem[f] == s.mem[f])
    ensures FreeOk(r)
  {
    forall i | 0 <= i < |r.free| ensures FreeAt(r, i) { assert FreeAt(s, i); }
  }

  // ----- user pages by number

  const UPAGES := 524288

  predicate IsPage(v: int) {
    0 <= v < UPAGES
  }

  function DirOf(v: int): int { v / 1024 }

  function SlotOf(v: int): int { v % 1024 }

  lemma PageParts(v: int)
    ensures IsPage(v) ==> IsUser(DirOf(v), SlotOf(v))
    ensures v == DirOf(v) * 1024 + SlotOf(v)
  {
  }

  /** The frame of page v, or -1. */
  function Frame(s: Vm, v: int): int
    requires Shaped(s) && IsPage(v)
  {
    PageParts(v);
    Lookup(s, DirOf(v), SlotOf(v))
  }

  /** The page-table entry of page v, flags included. */
  function Word(s: Vm, v: int): int
    requires Shaped(s) && IsPage(v)
  {
    PageParts(v);
    Pte(s, DirOf(v), SlotOf(v))
  }

  /** Page v, its entry with all flags, and its contents are as they were. */
  predicate Kept(s: Vm, r: Vm, v: int)
    requires Shaped(s) && Shaped(r) && IsPage(v)
  {
    && Frame(r, v) == Frame(s, v)
    && (Frame(s, v) != -1 ==> Word(r, v) == Word(s, v))
    && (0 <= Frame(s, v) < FRAMES ==> r.mem[Frame(s, v)] == s.mem[Frame(s, v)])
  }

  /** Exactly the first n user pages are mapped. */
  ghost predicate Contiguous(s: Vm, n: int)
    requires Shaped(s)
  {
    forall v :: IsPage(v) ==> (Frame(s, v) == -1 <==> v >= n)
  }

  /** Frames of the rest of the system are untouched. */
  ghost predicate OthersKept(s: Vm, r: Vm)
    requires Shaped(s) && Shaped(r)
  {
    forall f :: 0 <= f < FRAMES && (s.own[f] == Other || s.own[f] == Held || s.own[f] == Lost) ==>
      r.own[f] == s.own[f] && r.mem[f] == s.mem[f]
  }

  lemma MappedFrame(s: Vm, v: int)
    requires Shaped(s) && Space(s) && IsPage(v)
    ensures Frame(s, v) != -1 ==>
              && IsFrame(s, Frame(s, v)) && s.own[Frame(s, v)] == User(DirOf(v), SlotOf(v))
              && HasTable(s, DirOf(v)) && Present(Pte(s, DirOf(v), SlotOf(v)))
    ensures Frame(s, v) == -1 <==> !Present(Pte(s, DirOf(v), SlotOf(v)))
  {
    PageParts(v);
    EntryParts(0);
    assert UserAt(s, DirOf(v), SlotOf(v));
    hide FrameOf, Present;
  }

  lemma MappedDir(s: Vm, v: int)
    requires Inv(s) && IsPage(v) && Frame(s, v) != -1
    ensures Pde(s, v / 1024) % 8 == 7
  {
    MappedFrame(s, v);
    PageParts(v);
    assert DirAt(s, DirOf(v));
  }

  // ----- deallocuvm on one page

  function Unmapped(s: Vm, v: int): Vm
    requires Shaped(s) && IsPage(v) && HasTable(s, DirOf(v)) && 0 <= Frame(s, v) < FRAMES
  {
    PageParts(v);
    Pushed(WithoutPage(s, DirOf(v), SlotOf(v)), Frame(s, v))
  }

  lemma UnmapKeeps(s: Vm, v: int)
    requires Inv(s) && IsPage(v) && HasTable(s, DirOf(v)) && Frame(s, v) != -1
    ensures IsFrame(s, Frame(s, v)) && s.own[Frame(s, v)] == User(DirOf(v), SlotOf(v))
    ensures Inv(Unmapped(s, v)) && Frame(Unmapped(s, v), v) == -1 && OthersKept(s, Unmapped(s, v))
    ensures forall w :: IsPage(w) && w != v ==> Kept(s, Unmapped(s, v), w)
    ensures forall e :: 0 <= e < ENTRIES ==> Pde(Unmapped(s, v), e) == Pde(s, e)
  {
    PageParts(v);
    MappedFrame(s, v);
    var d, t, f := DirOf(v), SlotOf(v), Frame(s, v);
    WithoutPageKeeps(s, d, t);
    var u, r := WithoutPage(s, d, t), Unmapped(s, v);
    assert DirAt(s, d);
    FreeFrame(s, u);
    PushKeeps(u, f);
    assert SameTables(u, r);
    SameTablesKeeps(u, r);
    forall w | IsPage(w) && w != v ensures Kept(s, r, w) {
      PageParts(w);
      MappedFrame(s, w);
      assert Pte(u, DirOf(w), SlotOf(w)) == Pte(s, DirOf(w), SlotOf(w));
    }
  }
}
