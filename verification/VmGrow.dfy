/** allocuvm page by page: what a page needs from the free list, and what each outcome leaves behind. */
module VmGrow {
  import opened VmSpec

  /** kalloc and memset: a zeroed frame held by the caller. */
  function Granted(s: Vm): Vm
    requires Shaped(s) && s.free != [] && 0 <= s.free[0] < FRAMES
  {
    Popped(s).(mem := s.mem[s.free[0] := ZeroPage()])
  }

  lemma GrantKeeps(s: Vm)
    requires Inv(s) && s.free != []
    ensures IsFrame(s, s.free[0]) && s.own[s.free[0]] == Free && Inv(Granted(s)) && OthersKept(s, Granted(s))
    ensures forall d :: 0 <= d < ENTRIES ==> Pde(Granted(s), d) == Pde(s, d)
    ensures forall w :: IsPage(w) ==> Kept(s, Granted(s), w)
  {
    PopKeeps(s);
    assert FreeAt(s, 0);
    var u, r := Popped(s), Granted(s);
    FreeFrame(u, r);
    assert SameTables(s, r);
    SameTablesKeeps(s, r);
    forall w | IsPage(w) ensures Kept(s, r, w) { PageParts(w); MappedFrame(s, w); }
  }

  /** walkpgdir makes a table for directory entry d. */
  function Tabled(s: Vm, d: int): Vm
    requires Shaped(s) && s.free != [] && 0 <= s.free[0] < FRAMES && 0 <= d < ENTRIES
  {
    WithTable(Popped(s), d, s.free[0])
  }

  /** After walkpgdir with alloc set. */
  function TableFor(s: Vm, d: int): Vm
    requires Shaped(s) && 0 <= d < ENTRIES
  {
    if HasTable(s, d) || s.free == [] || !(0 <= s.free[0] < FRAMES) then s else Tabled(s, d)
  }

  lemma TableKeeps(s: Vm, d: int)
    requires Inv(s) && s.free != [] && 0 <= d < ENTRIES && !Present(Pde(s, d))
    ensures IsFrame(s, s.free[0]) && Inv(Tabled(s, d)) && HasTable(Tabled(s, d), d) && OthersKept(s, Tabled(s, d))
    ensures forall e :: 0 <= e < ENTRIES && e != d ==> Pde(Tabled(s, d), e) == Pde(s, e)
    ensures forall w :: IsPage(w) ==> Kept(s, Tabled(s, d), w)
  {
    PopKeeps(s);
    assert FreeAt(s, 0);
    var u, r, g := Popped(s), Tabled(s, d), s.free[0];
    assert SameTables(s, u);
    SameTablesKeeps(s, u);
    WithTableKeeps(u, d, g);
    FreeFrame(u, r);
    forall w | IsPage(w) ensures Kept(s, r, w) {
      PageParts(w);
      MappedFrame(s, w);
      assert Pte(r, DirOf(w), SlotOf(w)) == Pte(u, DirOf(w), SlotOf(w)) == Pte(s, DirOf(w), SlotOf(w));
    }
  }

  /** mappages puts the held frame f under page v. */
  function Paged(s: Vm, v: int, f: int): Vm
    requires Shaped(s) && IsPage(v) && HasTable(s, DirOf(v)) && 0 <= f < FRAMES
  {
    PageParts(v);
    WithPage(s, DirOf(v), SlotOf(v), f)
  }

  lemma PageKeeps(s: Vm, v: int, f: int)
    requires Inv(s) && IsPage(v) && HasTable(s, DirOf(v)) && Frame(s, v) == -1 && IsFrame(s, f) && s.own[f] == Held
    ensures Inv(Paged(s, v, f)) && Frame(Paged(s, v, f), v) == f && Paged(s, v, f).mem[f] == s.mem[f]
    ensures Word(Paged(s, v, f), v) % 8 == 7
    ensures forall d :: 0 <= d < ENTRIES ==> Pde(Paged(s, v, f), d) == Pde(s, d)
    ensures forall w :: IsPage(w) && w != v ==> Kept(s, Paged(s, v, f), w)
    ensures forall g :: 0 <= g < FRAMES && g != f && (s.own[g] == Other || s.own[g] == Held || s.own[g] == Lost) ==>
              Paged(s, v, f).own[g] == s.own[g] && Paged(s, v, f).mem[g] == s.mem[g]
  {
    PageParts(v);
    MappedFrame(s, v);
    var d, t, r := DirOf(v), SlotOf(v), Paged(s, v, f);
    WithPageKeeps(s, d, t, f);
    assert DirAt(s, d);
    FreeFrame(s, r);
    forall w | IsPage(w) && w != v ensures Kept(s, r, w) {
      PageParts(w);
      MappedFrame(s, w);
    }
  }

  // ----- the loop

  predicate Ours(o: Owner) {
    o.Free? || InSpace(o)
  }

  /** No frame is lost: what was free or part of the address space still is one of the two. */
  ghost predicate Accounted(s: Vm, r: Vm)
    requires Shaped(s) && Shaped(r)
  {
    forall f :: 0 <= f < FRAMES && Ours(s.own[f]) ==> Ours(r.own[f])
  }

  /** Page v is new: its own zeroed frame, taken from the free list, and present, writable and user in both entries. */
  predicate NewPage(s: Vm, r: Vm, v: int)
    requires Shaped(s) && Shaped(r) && IsPage(v)
  {
    && 0 <= Frame(r, v) < FRAMES && r.mem[Frame(r, v)] == ZeroPage() && s.own[Frame(r, v)] == Free
    && Word(r, v) % 8 == 7 && Pde(r, v / 1024) % 8 == 7
  }

  /** Pages lo..m are new, every other page is as it was. */
  ghost predicate Grown(s: Vm, r: Vm, lo: int, m: int)
    requires Shaped(s) && Shaped(r)
  {
    forall v :: IsPage(v) ==> if lo <= v < m then NewPage(s, r, v) else Kept(s, r, v)
  }

  /** Tables exist where they did, and for the pages lo..m. */
  ghost predicate TablesGrown(s: Vm, r: Vm, lo: int, m: int)
    requires Shaped(s) && Shaped(r)
  {
    forall d :: 0 <= d < ENTRIES ==> (HasTable(r, d) <==> HasTable(s, d) || (lo < m && DirOf(lo) <= d && d * 1024 < m))
  }

  predicate NeedsTable(s: Vm, lo: int, v: int)
    requires Shaped(s) && IsPage(v)
  {
    PageParts(v);
    !HasTable(s, DirOf(v)) && (v == lo || SlotOf(v) == 0)
  }

  datatype Outcome = Maps | RollsBack | Leaks(page: int)

  /** What growing from page v on comes to with k free frames: everything is mapped; or a user page finds no frame
      and all is undone; or the table for a page finds no frame, after the page has taken the last one. */
  function Outlook(s: Vm, lo: int, v: int, n: int, k: nat): Outcome
    requires Shaped(s) && 0 <= v && n <= UPAGES
    decreases n - v
  {
    if v >= n then Maps
    else if k == 0 then RollsBack
    else if !NeedsTable(s, lo, v) then Outlook(s, lo, v + 1, n, k - 1)
    else if k == 1 then Leaks(v)
    else Outlook(s, lo, v + 1, n, k - 2)
  }

  lemma OutlookStep(s: Vm, lo: int, v: int, n: int, k: nat)
    requires Shaped(s) && 0 <= v && n <= UPAGES
    ensures Outlook(s, lo, v, n, k) ==
            (if v >= n then Maps else if k == 0 then RollsBack
             else if !NeedsTable(s, lo, v) then Outlook(s, lo, v + 1, n, k - 1)
             else if k == 1 then Leaks(v) else Outlook(s, lo, v + 1, n, k - 2))
  {
  }

  /** The number of frames it takes to map pages v..n. */
  function Calls(s: Vm, lo: int, v: int, n: int): nat
    requires Shaped(s) && 0 <= v && n <= UPAGES
    decreases n - v
  {
    if v >= n then 0 else (if NeedsTable(s, lo, v) then 2 else 1) + Calls(s, lo, v + 1, n)
  }

  /** How many of the directory entries d..e have no table. */
  function Missing(s: Vm, d: int, e: int): nat
    requires Shaped(s) && 0 <= d && e <= 1024
    decreases e - d
  {
    if d >= e then 0 else (if s.mem[s.pd][d] % 2 == 1 then 0 else 1) + Missing(s, d + 1, e)
  }

  /** One frame for each page, and one for each directory entry on the way that has no table. */
  lemma {:induction false} CallsCount(s: Vm, lo: int, v: int, n: int)
    requires Inv(s) && 0 <= lo <= v <= n <= UPAGES
    ensures Calls(s, lo, v, n) ==
            n - v + if v == n then 0 else Missing(s, if v == lo then v / 1024 else (v + 1023) / 1024, (n + 1023) / 1024)
    decreases n - v
  {
    if v < n {
      CallsCount(s, lo, v + 1, n);
      MissingNow(s, v);
      hide Inv, NeedsTable;
      var d, e := if v == lo then v / 1024 else (v + 1023) / 1024, (n + 1023) / 1024;
      assert v + 1 == n && (v == lo || v % 1024 == 0) ==> d + 1 == e;
      assert v + 1 == n && v != lo && v % 1024 != 0 ==> d == e;
      assert v == lo || v % 1024 == 0 ==> (v + 1 + 1023) / 1024 == d + 1;
      assert v != lo && v % 1024 != 0 ==> (v + 1 + 1023) / 1024 == d;
    }
  }

  lemma MissingNow(s: Vm, v: int)
    requires Inv(s) && IsPage(v)
    ensures forall lo :: NeedsTable(s, lo, v) <==> (v == lo || v % 1024 == 0) && s.mem[s.pd][v / 1024] % 2 != 1
  {
    PageParts(v);
    assert DirAt(s, DirOf(v));
  }

  /** Growing succeeds exactly when there are enough frames for the pages and the missing tables. */
  lemma {:induction false} MapsIffEnough(s: Vm, lo: int, v: int, n: int, k: nat)
    requires Shaped(s) && 0 <= v && n <= UPAGES
    ensures Outlook(s, lo, v, n, k) == Maps <==> Calls(s, lo, v, n) <= k
    decreases n - v
  {
    if v < n && k > 0 {
      var c := if NeedsTable(s, lo, v) then 2 else 1;
      if k >= c { MapsIffEnough(s, lo, v + 1, n, k - c); }
    }
  }

  /** A frame leaks at page w exactly when the free list runs out between that page and the table for it. */
  lemma {:induction false} LeaksIffSplit(s: Vm, lo: int, v: int, n: int, k: nat, w: int)
    requires Shaped(s) && 0 <= v && n <= UPAGES
    ensures Outlook(s, lo, v, n, k) == Leaks(w) <==> v <= w < n && NeedsTable(s, lo, w) && k == Calls(s, lo, v, w) + 1
    decreases n - v
  {
    if v < n {
      assert Calls(s, lo, v, v) == 0;
      var c := if NeedsTable(s, lo, v) then 2 else 1;
      assert v < w < n ==> Calls(s, lo, v, w) == c + Calls(s, lo, v + 1, w);
      if k >= c { LeaksIffSplit(s, lo, v + 1, n, k - c, w); }
    }
  }

  lemma GrowTable(s: Vm, r: Vm, lo: int, v: int)
    requires Shaped(s) && Shaped(r) && TablesGrown(s, r, lo, v) && IsPage(v) && 0 <= lo <= v
    ensures 0 <= DirOf(v) < ENTRIES && (HasTable(r, DirOf(v)) <==> !NeedsTable(s, lo, v))
  {
    PageParts(v);
  }

  ghost predicate Growing(s: Vm, r: Vm, lo: int, m: int) {
    && Shaped(s) && Inv(r) && r.pd == s.pd && r.first == s.first && OthersKept(s, r)
    && Grown(s, r, lo, m) && TablesGrown(s, r, lo, m) && Accounted(s, r)
    && forall f :: 0 <= f < FRAMES && r.own[f] == Free ==> s.own[f] == Free
  }

  ghost predicate CanMap(r: Vm, v: int) {
    Inv(r) && IsPage(v) && r.free != [] && 0 <= DirOf(v) < ENTRIES && (HasTable(r, DirOf(v)) || |r.free| >= 2)
  }

  /** A frame for page v is held, and there is a table for it. */
  ghost function Ready(r: Vm, v: int): Vm
    requires CanMap(r, v)
  {
    GrantKeeps(r);
    if HasTable(r, DirOf(v)) then Granted(r) else
      GrantedNext(r);
      Tabled(Granted(r), DirOf(v))
  }

  lemma GrantedNext(r: Vm)
    requires Inv(r) && |r.free| >= 2
    ensures 0 <= r.free[0] < FRAMES && Shaped(Granted(r)) && Granted(r).free != [] && 0 <= Granted(r).free[0] < FRAMES
    ensures Granted(r).free[0] != r.free[0] && r.own[Granted(r).free[0]] == Free
  {
    GrantKeeps(r);
    assert FreeAt(r, 1) && r.free[0] != r.free[1];
  }

  lemma ReadyEffect(r: Vm, v: int)
    requires CanMap(r, v)
    ensures var u, f, d := Ready(r, v), r.free[0], DirOf(v);
            && Inv(u) && u.pd == r.pd && u.first == r.first && HasTable(u, d) && OthersKept(r, u)
            && IsFrame(r, f) && r.own[f] == Free && u.own[f] == Held && u.mem[f] == ZeroPage()
            && (forall w :: IsPage(w) ==> Kept(r, u, w))
            && (forall e :: 0 <= e < ENTRIES ==> (HasTable(u, e) <==> HasTable(r, e) || e == d))
            && (forall g :: 0 <= g < FRAMES && g != f && Ours(r.own[g]) ==> Ours(u.own[g]))
            && (forall g :: 0 <= g < FRAMES && u.own[g] == Free ==> r.own[g] == Free)
            && |u.free| == |r.free| - if HasTable(r, d) then 1 else 2
  {
    hide DirOf, SlotOf, FrameOf, Present, FreeOk, ZeroPage, Entry, Space, FreeOk;
    GrantKeeps(r);
    PageParts(v);
    var d, f := DirOf(v), r.free[0];
    var u := Granted(r);
    if !HasTable(r, d) {
      GrantedNext(r);
      NoEntry(u, d);
      TableKeeps(u, d);
      KeptTrans(r, u, Tabled(u, d));
    }
  }

  lemma NoEntry(s: Vm, d: int)
    requires Inv(s) && 0 <= d < ENTRIES && !HasTable(s, d)
    ensures !Present(Pde(s, d))
  {
    assert DirAt(s, d);
  }

  lemma KeptTrans(s: Vm, t: Vm, u: Vm)
    requires Shaped(s) && Shaped(t) && Shaped(u)
    requires forall w :: IsPage(w) ==> Kept(s, t, w)
    requires forall w :: IsPage(w) ==> Kept(t, u, w)
    ensures forall w :: IsPage(w) ==> Kept(s, u, w)
  {
    hide Frame;
    forall w | IsPage(w) ensures Kept(s, u, w) { assert Kept(s, t, w) && Kept(t, u, w); }
  }

  /** One turn of the loop that maps its page. */
  ghost function OneMore(r: Vm, v: int): Vm
    requires CanMap(r, v)
  {
    ReadyEffect(r, v);
    Paged(Ready(r, v), v, r.free[0])
  }

  lemma OneMoreEffect(r: Vm, v: int)
    requires CanMap(r, v) && Frame(r, v) == -1
    ensures var u, f := OneMore(r, v), r.free[0];
            && Inv(u) && u.pd == r.pd && u.first == r.first && OthersKept(r, u)
            && IsFrame(r, f) && r.own[f] == Free && Frame(u, v) == f && u.mem[f] == ZeroPage() && Word(u, v) % 8 == 7
            && (forall w :: IsPage(w) && w != v ==> Kept(r, u, w))
            && (forall e :: 0 <= e < ENTRIES ==> (HasTable(u, e) <==> HasTable(r, e) || e == DirOf(v)))
            && Accounted(r, u) && (forall g :: 0 <= g < FRAMES && u.own[g] == Free ==> r.own[g] == Free)
            && |u.free| == |r.free| - if HasTable(r, DirOf(v)) then 1 else 2
  {
    ReadyEffect(r, v);
    var u := Ready(r, v);
    hide DirOf, SlotOf, FrameOf, Present, FreeOk, Space, ZeroPage, Entry, Ready;
    assert Kept(r, u, v);
    PageKeeps(u, v, r.free[0]);
    hide Frame;
    forall w | IsPage(w) && w != v
      ensures Kept(r, OneMore(r, v), w)
    {
      assert Kept(r, u, w) && Kept(u, OneMore(r, v), w);
    }
  }

  // ----- deallocuvm

  /** Page v is unmapped, and the frame it was mapped to is free. */
  predicate Freed(s: Vm, r: Vm, v: int)
    requires Shaped(s) && Shaped(r) && IsPage(v)
  {
    Frame(r, v) == -1 && (0 <= Frame(s, v) < FRAMES ==> r.own[Frame(s, v)] == Free)
  }

  /** Pages lo..m are unmapped and their frames free; every other page is as it was, and so are the tables. */
  ghost predicate Shrunk(s: Vm, r: Vm, lo: int, m: int) {
    && Shaped(s) && Shaped(r) && OthersKept(s, r) && r.pd == s.pd && r.first == s.first
    && (forall d :: 0 <= d < ENTRIES ==> Pde(r, d) == Pde(s, d))
    && Accounted(s, r) && (forall f :: 0 <= f < FRAMES && s.own[f] == Free ==> r.own[f] == Free)
    && (forall v :: IsPage(v) ==> if lo <= v < m then Freed(s, r, v) else Kept(s, r, v))
  }

  /** The code frees the frame first and clears the entry afterwards. */
  lemma UnmapOrder(s: Vm, v: int)
    requires Inv(s) && IsPage(v) && HasTable(s, DirOf(v)) && Frame(s, v) != -1
    ensures IsFrame(s, Frame(s, v)) && s.own[Frame(s, v)].User?
    ensures var f, t, x := Frame(s, v), FrameOf(Pde(s, DirOf(v))), SlotOf(v);
            f != t && 0 <= x < ENTRIES && Shaped(Pushed(s, f))
            && Unmapped(s, v) == Pushed(s, f).(mem := s.mem[f := JunkPage(s.head)][t := s.mem[t][x := 0]])
  {
    PageParts(v);
    MappedFrame(s, v);
    UnmapKeeps(s, v);
    assert DirAt(s, DirOf(v));
    var f, t, x := Frame(s, v), FrameOf(Pde(s, DirOf(v))), SlotOf(v);
    hide Space, FreeOk, Present, FrameOf, DirOf, SlotOf, JunkPage;
    assert s.mem[f := JunkPage(s.head)][t := s.mem[t][x := 0]] == s.mem[t := s.mem[t][x := 0]][f := JunkPage(s.head)];
    assert s.own[f := Held][f := Free] == s.own[f := Free];
  }

  lemma ShrinkStep(s: Vm, r: Vm, lo: int, v: int)
    requires Shrunk(s, r, lo, v) && Inv(r) && IsPage(v) && lo <= v && HasTable(r, DirOf(v)) && Frame(r, v) != -1
    ensures IsFrame(r, Frame(r, v)) && Shrunk(s, Unmapped(r, v), lo, v + 1) && Inv(Unmapped(r, v))
  {
    UnmapKeeps(r, v);
    var u := Unmapped(r, v);
    hide Space, FreeOk;
    forall f | 0 <= f < FRAMES ensures u.own[f] == if f == Frame(r, v) then Free else r.own[f] { UnmapLabels(r, v, f); }
    UnmapLabels(r, v, Frame(r, v));
    forall w | IsPage(w)
      ensures if lo <= w < v + 1 then Freed(s, u, w) else Kept(s, u, w)
    {
      if w == v { assert Kept(s, r, v); } else {
        assert Kept(r, u, w);
        assert w < lo || w > v ==> Kept(s, r, w);
      }
    }
  }

  lemma UnmapLabels(s: Vm, v: int, f: int)
    requires Shaped(s) && IsPage(v) && HasTable(s, DirOf(v)) && 0 <= Frame(s, v) < FRAMES && 0 <= f < FRAMES
    requires Shaped(Unmapped(s, v))
    ensures Unmapped(s, v).own[f] == if f == Frame(s, v) then Free else s.own[f]
  {
    PageParts(v);
    hide DirOf, SlotOf, FrameOf, Present, JunkPage;
  }

  /** Skipping pages that were not mapped. */
  lemma ShrinkSkip(s: Vm, r: Vm, lo: int, v: int, m: int)
    requires Shrunk(s, r, lo, v) && lo <= v <= m && forall w :: IsPage(w) && v <= w < m ==> Frame(r, w) == -1
    ensures Shrunk(s, r, lo, m)
  {
    forall w | IsPage(w)
      ensures if lo <= w < m then Freed(s, r, w) else Kept(s, r, w)
    {
      assert !(lo <= w < v) ==> Kept(s, r, w);
    }
  }

  /** The 4 MB stride is safe: without a table for page v of a contiguous image, no page from v on is mapped. */
  lemma NoTableNoMore(s: Vm, r: Vm, n: int, lo: int, v: int)
    requires Shrunk(s, r, lo, v) && Space(r) && Contiguous(s, n) && IsPage(v) && lo <= v && Frame(r, v) == -1
    ensures forall w :: IsPage(w) && v <= w ==> Frame(r, w) == -1
  {
    assert Kept(s, r, v);
    forall w | IsPage(w) && v <= w ensures Frame(r, w) == -1 { assert Kept(s, r, w); }
  }

  // ----- allocuvm's outcomes

  lemma GrowStep(s: Vm, r: Vm, lo: int, v: int)
    requires Growing(s, r, lo, v) && CanMap(r, v) && 0 <= lo <= v && Contiguous(s, lo)
    ensures Frame(r, v) == -1 && Growing(s, OneMore(r, v), lo, v + 1)
    ensures |OneMore(r, v).free| == |r.free| - if HasTable(r, DirOf(v)) then 1 else 2
  {
    assert Kept(s, r, v);
    OneMoreEffect(r, v);
    var u := OneMore(r, v);
    hide OneMore, Inv, ZeroPage, FrameOf, Present;
    GrowTables(s, r, u, lo, v);
    forall w | IsPage(w) ensures if lo <= w < v + 1 then NewPage(s, u, w) else Kept(s, u, w) {
      if w != v { assert Kept(r, u, w) && (if lo <= w < v then NewPage(s, r, w) else Kept(s, r, w)); }
      if lo <= w < v + 1 { MappedDir(u, w); }
    }
  }

  lemma GrowTables(s: Vm, r: Vm, u: Vm, lo: int, v: int)
    requires Shaped(s) && Shaped(r) && Shaped(u) && TablesGrown(s, r, lo, v) && 0 <= lo <= v
    requires forall d :: 0 <= d < ENTRIES ==> (HasTable(u, d) <==> HasTable(r, d) || d == DirOf(v))
    ensures TablesGrown(s, u, lo, v + 1)
  {
    hide HasTable;
    PageParts(v);
    PageParts(lo);
  }

  /** Page m took the last frame and got no table; the pages before it are mapped. */
  ghost predicate Leaked(s: Vm, r: Vm, lo: int, m: int) {
    && Shaped(s) && Inv(r) && r.pd == s.pd && r.first == s.first && OthersKept(s, r) && Grown(s, r, lo, m)
    && r.free == [] && OneLost(s, r)
  }

  /** Exactly one frame is lost: it was free, and every other frame is accounted for. */
  ghost predicate OneLost(s: Vm, r: Vm)
    requires Shaped(s) && Shaped(r)
  {
    exists f :: 0 <= f < FRAMES && s.own[f] == Free && r.own[f] == Lost && AccountedBut(s, r, f)
  }

  ghost predicate AccountedBut(s: Vm, r: Vm, f: int)
    requires Shaped(s) && Shaped(r)
  {
    forall g :: 0 <= g < FRAMES && g != f && Ours(s.own[g]) ==> Ours(r.own[g])
  }

  lemma LeakStep(s: Vm, r: Vm, lo: int, v: int)
    requires Growing(s, r, lo, v) && |r.free| == 1
    ensures IsFrame(r, r.free[0]) && Shaped(Granted(r))
    ensures Leaked(s, Granted(r).(own := Granted(r).own[r.free[0] := Lost]), lo, v)
  {
    GrantKeeps(r);
    var u, f := Granted(r), r.free[0];
    var x := u.(own := u.own[f := Lost]);
    hide FrameOf, Present, ZeroPage;
    FreeFrame(u, x);
    assert SameTables(u, x);
    SameTablesKeeps(u, x);
    hide Space, FreeOk;
    forall w | IsPage(w) ensures Kept(u, x, w) { PageParts(w); }
    assert s.own[f] == Free && x.own[f] == Lost && AccountedBut(s, x, f);
    KeptTrans(r, u, x);
    GrownKept(s, r, x, lo, v);
  }

  lemma GrownKept(s: Vm, r: Vm, x: Vm, lo: int, v: int)
    requires Shaped(s) && Shaped(r) && Inv(x) && Grown(s, r, lo, v) && forall w :: IsPage(w) ==> Kept(r, x, w)
    ensures Grown(s, x, lo, v)
  {
    hide Frame, ZeroPage, Space, FreeOk;
    forall w | IsPage(w) ensures if lo <= w < v then NewPage(s, x, w) else Kept(s, x, w) {
      assert Kept(r, x, w) && (if lo <= w < v then NewPage(s, r, w) else Kept(s, r, w));
      if lo <= w < v { MappedDir(x, w); }
    }
  }

  lemma GrownContiguous(s: Vm, r: Vm, lo: int, m: int)
    requires Shaped(s) && Shaped(r) && Grown(s, r, lo, m) && Contiguous(s, lo) && lo <= m
    ensures Contiguous(r, m)
  {
    hide Frame, ZeroPage;
    forall v | IsPage(v) ensures Frame(r, v) == -1 <==> v >= m {
      assert if lo <= v < m then NewPage(s, r, v) else Kept(s, r, v);
    }
  }

  /** After the rollback every page is as it was before the call. */
  lemma RolledBack(s: Vm, r: Vm, x: Vm, lo: int, m: int, n: int)
    requires Shaped(s) && Shaped(r) && OthersKept(s, r) && Grown(s, r, lo, m) && Contiguous(s, lo) && lo <= m <= n
    requires Shrunk(r, x, lo, n)
    ensures (forall v :: IsPage(v) ==> Kept(s, x, v)) && OthersKept(s, x)
    ensures Accounted(s, r) ==> Accounted(s, x)
    ensures OneLost(s, r) ==> OneLost(s, x)
  {
    hide Frame, ZeroPage, Pde;
    if f :| 0 <= f < FRAMES && s.own[f] == Free && r.own[f] == Lost && AccountedBut(s, r, f) {
      assert x.own[f] == Lost && AccountedBut(s, x, f);
    }
    forall v | IsPage(v) ensures Kept(s, x, v) {
      assert if lo <= v < m then NewPage(s, r, v) else Kept(s, r, v);
    }
  }

  lemma GrowStart(s: Vm, lo: int)
    requires Inv(s)
    ensures Growing(s, s, lo, lo)
  {
  }

  /** A turn of the loop has its frame, and its page is not mapped yet. */
  lemma TurnBegun(s: Vm, r: Vm, lo: int, v: int)
    requires Growing(s, r, lo, v) && Contiguous(s, lo) && 0 <= lo <= v && IsPage(v) && r.free != []
    ensures Shaped(r) && IsFrame(r, r.free[0]) && 0 <= DirOf(v) < ENTRIES
    ensures Shaped(Granted(r)) && Inv(Granted(r)) && Granted(r).own[r.free[0]] == Held && Frame(Granted(r), v) == -1
    ensures (HasTable(Granted(r), DirOf(v)) <==> !NeedsTable(s, lo, v)) && |Granted(r).free| == |r.free| - 1
  {
    PageParts(v);
    GrantKeeps(r);
    GrowTable(s, r, lo, v);
    assert Kept(s, r, v) && Kept(r, Granted(r), v);
    hide Space, FreeOk, Grown, TablesGrown, OthersKept, Accounted, FrameOf, Present, DirOf, SlotOf, ZeroPage;
  }

  /** The turn ends with its page mapped. */
  lemma TurnDone(s: Vm, r: Vm, lo: int, v: int)
    requires Growing(s, r, lo, v) && Contiguous(s, lo) && 0 <= lo <= v && IsPage(v) && r.free != []
    requires !NeedsTable(s, lo, v) || |r.free| >= 2
    ensures IsFrame(r, r.free[0]) && 0 <= DirOf(v) < ENTRIES && Shaped(Granted(r))
    ensures var u := TableFor(Granted(r), DirOf(v));
            && Shaped(u) && HasTable(u, DirOf(v)) && Growing(s, Paged(u, v, r.free[0]), lo, v + 1)
            && |Paged(u, v, r.free[0]).free| == |r.free| - if NeedsTable(s, lo, v) then 2 else 1
  {
    TurnBegun(s, r, lo, v);
    GrowTable(s, r, lo, v);
    assert CanMap(r, v);
    if |r.free| >= 2 { GrantedNext(r); }
    GrowStep(s, r, lo, v);
    ReadyEffect(r, v);
    hide Growing, Inv, FrameOf, Present, DirOf, SlotOf, ZeroPage, Entry, Paged, Contiguous;
  }

  /** What allocuvm leaves behind, by outcome. A leak at the last page leaves that page missing; a leak before it
      is followed by the rollback. Either way exactly one frame is lost. */
  ghost predicate Result(s: Vm, r: Vm, lo: int, n: int, out: Outcome) {
    && Shaped(s) && Inv(r) && OthersKept(s, r)
    && match out
       case Maps => Grown(s, r, lo, n) && Accounted(s, r)
       case RollsBack => (forall v :: IsPage(v) ==> Kept(s, r, v)) && Accounted(s, r)
       case Leaks(page) =>
         && 0 <= lo <= page < n <= UPAGES && OneLost(s, r)
         && (if page == n - 1 then Grown(s, r, lo, n - 1) && Frame(r, n - 1) == -1
             else forall v :: IsPage(v) ==> Kept(s, r, v))
  }

  lemma LoopDone(s: Vm, r: Vm, lo: int, n: int, lost: bool)
    requires if lost then 0 <= lo < n <= UPAGES && Leaked(s, r, lo, n - 1) && Contiguous(s, lo)
             else Growing(s, r, lo, n)
    ensures Result(s, r, lo, n, if lost then Leaks(n - 1) else Maps)
  {
    if lost { assert Kept(s, r, n - 1); }
  }

  lemma LoopUndone(s: Vm, r: Vm, x: Vm, lo: int, m: int, n: int, lost: bool)
    requires if lost then Leaked(s, r, lo, m) else Growing(s, r, lo, m)
    requires 0 <= lo <= m <= n <= UPAGES && (lost ==> m < n - 1) && Contiguous(s, lo) && Shrunk(r, x, lo, n) && Inv(x)
    ensures Result(s, x, lo, n, if lost then Leaks(m) else RollsBack)
  {
    RolledBack(s, r, x, lo, m, n);
  }

  lemma LoopContiguous(s: Vm, r: Vm, lo: int, m: int, lost: bool)
    requires if lost then Leaked(s, r, lo, m) else Growing(s, r, lo, m)
    requires Contiguous(s, lo) && lo <= m
    ensures Contiguous(r, m)
  {
    GrownContiguous(s, r, lo, m);
  }

  lemma LoopState(s: Vm, r: Vm, lo: int, m: int, lost: bool)
    requires if lost then Leaked(s, r, lo, m) else Growing(s, r, lo, m)
    ensures Shaped(s) && Shaped(r) && FreeOk(r) && Inv(r) && (lost ==> r.free == [])
    ensures r.free != [] ==> 0 <= r.free[0] < FRAMES
  {
    if r.free != [] { assert FreeAt(r, 0); }
  }

  // ----- freevm

  /** The tables of directory entries below i are free, nothing else has changed its owner, and the directory
      and the rest of the system are as they were. */
  ghost predicate Dismantled(s: Vm, r: Vm, i: int) {
    && Shaped(s) && Shaped(r) && FreeOk(r) && r.pd == s.pd && r.first == s.first && r.mem[s.pd] == s.mem[s.pd]
    && forall f :: 0 <= f < FRAMES ==>
         && r.own[f] == (if s.own[f].Table? && s.own[f].d < i then Free else s.own[f])
         && (!Ours(s.own[f]) ==> r.mem[f] == s.mem[f])
  }

  lemma DismantleStart(s: Vm)
    requires Inv(s)
    ensures Dismantled(s, s, 0)
  {
    forall f | 0 <= f < FRAMES ensures !(s.own[f].Table? && s.own[f].d < 0) { assert Placed(s, f); }
  }

  lemma DismantleState(s: Vm, r: Vm, i: int)
    requires Dismantled(s, r, i)
    ensures Shaped(s) && Shaped(r) && FreeOk(r) && r.mem[r.pd] == s.mem[s.pd]
  {
  }

  lemma DismantleStep(s: Vm, r: Vm, i: int)
    requires Inv(s) && Dismantled(s, r, i) && 0 <= i < ENTRIES && Present(Pde(s, i))
    ensures IsFrame(s, FrameOf(Pde(s, i))) && Dismantled(s, Pushed(r, FrameOf(Pde(s, i))), i + 1)
  {
    var t := FrameOf(Pde(s, i));
    assert DirAt(s, i);
    hide FrameOf, Present, JunkPage, FreeOk;
    PushKeeps(r, t);
    var u := Pushed(r, t);
    forall f | 0 <= f < FRAMES
      ensures u.own[f] == if s.own[f].Table? && s.own[f].d < i + 1 then Free else s.own[f]
    {
      assert Placed(s, f);
    }
  }

  lemma DismantleSkip(s: Vm, r: Vm, i: int)
    requires Inv(s) && Dismantled(s, r, i) && 0 <= i < ENTRIES && !Present(Pde(s, i))
    ensures Dismantled(s, r, i + 1)
  {
    hide FrameOf, Present, FreeOk;
    forall f | 0 <= f < FRAMES
      ensures r.own[f] == if s.own[f].Table? && s.own[f].d < i + 1 then Free else s.own[f]
    {
      assert Placed(s, f);
    }
  }

  /** Without mapped pages there are no user frames. */
  lemma NoUserFrames(s: Vm, f: int)
    requires Inv(s) && Contiguous(s, 0) && 0 <= f < FRAMES
    ensures !s.own[f].User?
  {
    if s.own[f].User? { var v := UserPage(s, f); }
  }

  lemma UserPage(s: Vm, f: int) returns (v: int)
    requires Inv(s) && 0 <= f < FRAMES && s.own[f].User?
    ensures IsPage(v) && Frame(s, v) == f
  {
    assert Placed(s, f);
    v := s.own[f].d * 1024 + s.own[f].t;
    PageParts(v);
  }

  /** Every frame of the address space is free; the rest of the system is untouched. */
  ghost predicate Released(s: Vm, r: Vm) {
    && Shaped(s) && Shaped(r) && FreeOk(r) && OthersKept(s, r)
    && forall f :: 0 <= f < FRAMES ==> r.own[f] == if Ours(s.own[f]) then Free else s.own[f]
  }

  lemma ReleaseDone(s: Vm, x: Vm, r: Vm)
    requires Inv(s) && Shrunk(s, x, 0, UPAGES) && Inv(x) && Dismantled(x, r, ENTRIES) && IsFrame(s, s.pd)
    ensures Released(s, Pushed(r, s.pd))
  {
    hide FrameOf, Present, JunkPage, FreeOk;
    PushKeeps(r, s.pd);
    var u := Pushed(r, s.pd);
    forall f | 0 <= f < FRAMES ensures u.own[f] == if Ours(s.own[f]) then Free else s.own[f] {
      assert Contiguous(x, 0);
      NoUserFrames(x, f);
      assert Placed(x, f) && Placed(s, f);
    }
  }

  // ----- boot

  lemma EmptySpace(s: Vm)
    requires |s.mem| == FRAMES && (forall f :: 0 <= f < FRAMES ==> s.mem[f] == ZeroPage()) && s.head == 0
    requires s.free == []
    requires 1 <= s.first < FRAMES && 1 <= s.pd < FRAMES && s.own == seq(FRAMES, _ => Other)[s.pd := Dir]
    ensures Inv(s) && Contiguous(s, 0)
  {
    forall f | 0 <= f < FRAMES ensures |s.mem[f]| == ENTRIES {}
    EntryParts(0);
    hide Present, FrameOf;
    forall d | 0 <= d < ENTRIES ensures Pde(s, d) == 0 { assert s.mem[s.pd] == ZeroPage(); }
    forall v | IsPage(v) ensures Frame(s, v) == -1 { PageParts(v); }
  }

  /** freerange has added frames lo..i. */
  ghost predicate Added(s: Vm, r: Vm, lo: int, i: int) {
    && Inv(s) && Shaped(r) && FreeOk(r) && SameTables(s, r)
    && forall f :: 0 <= f < FRAMES ==>
         && r.own[f] == (if lo <= f < i then Free else s.own[f])
         && (r.own[f] != Free ==> r.mem[f] == s.mem[f])
  }

  lemma RangeStart(s: Vm)
    requires Inv(s)
    ensures forall lo :: Added(s, s, lo, lo)
  {
  }

  lemma AddedStep(s: Vm, r: Vm, lo: int, i: int)
    requires Added(s, r, lo, i) && lo <= i && IsFrame(s, i) && s.own[i] == Other
    ensures Shaped(r) && FreeOk(r) && Added(s, Pushed(r, i), lo, i + 1)
  {
    PushKeeps(r, i);
    hide JunkPage, FreeOk, Space;
  }

  lemma AddedDone(s: Vm, r: Vm, lo: int, i: int)
    requires Added(s, r, lo, i)
    ensures Inv(r)
    ensures forall f :: 0 <= f < FRAMES ==> r.own[f] == if lo <= f < i then Free else s.own[f]
    ensures forall f :: 0 <= f < FRAMES && r.own[f] != Free ==> r.mem[f] == s.mem[f]
    ensures forall v :: IsPage(v) ==> Frame(r, v) == Frame(s, v)
  {
    SameTablesKeeps(s, r);
    forall v | IsPage(v) ensures Frame(r, v) == Frame(s, v) { PageParts(v); }
  }

  /** A free list with one free frame. */
  lemma OnlyFree(s: Vm, f: int)
    requires Inv(s) && 0 <= f < FRAMES && forall g :: 0 <= g < FRAMES ==> (s.own[g] == Free <==> g == f)
    ensures s.free == [f]
  {
    assert f in s.free && (|s.free| > 1 ==> s.free[0] != s.free[1]);
    forall i | 0 <= i < |s.free| ensures s.free[i] == f { assert FreeAt(s, i); }
  }

  // ----- the MMU's view (section 4.3 of the Intel SDM, volume 3A), from the words in memory alone

  /** The page-table entry of page v; 0 without a table. Bits 0, 1 and 2 are present, writable and user. */
  function RawEntry(s: Vm, v: int): int
    requires Shaped(s) && 0 <= v < 0x8_0000
  {
    var pde := s.mem[s.pd][v / 1024];
    if pde % 2 == 1 && 0 <= pde / 4096 < 0xE000 then s.mem[pde / 4096][v % 1024] else 0
  }

  /** Pages lo..m are new: user code may read and write them, they are all zeros, and they are in frames that were
      free. Mapped pages among the others keep entry and contents; no other page appears. */
  ghost predicate MmuGrown(s: Vm, r: Vm, lo: int, m: int)
    requires Shaped(s) && Shaped(r)
  {
    forall v :: 0 <= v < 0x8_0000 ==> MmuPage(s, r, lo, m, v)
  }

  ghost predicate MmuPage(s: Vm, r: Vm, lo: int, m: int, v: int)
    requires Shaped(s) && Shaped(r) && 0 <= v < 0x8_0000
  {
    var w, x := RawEntry(s, v), RawEntry(r, v);
    if lo <= v < m then
      && x % 8 == 7 && r.mem[r.pd][v / 1024] % 8 == 7 && 0 <= x / 4096 < 0xE000
      && s.own[x / 4096] == Free && forall i :: 0 <= i < 1024 ==> r.mem[x / 4096][i] == 0
    else if w % 2 == 1 then x == w && 0 <= w / 4096 < 0xE000 && r.mem[w / 4096] == s.mem[w / 4096]
    else x % 2 == 0
  }

  /** No two pages share a frame. */
  ghost predicate MmuApart(s: Vm)
    requires Shaped(s)
  {
    forall v, w :: 0 <= v < w < 0x8_0000 && RawEntry(s, v) % 2 == 1 && RawEntry(s, w) % 2 == 1 ==>
      RawEntry(s, v) / 4096 != RawEntry(s, w) / 4096
  }

  lemma RawEntryIs(s: Vm, v: int)
    requires Inv(s) && IsPage(v)
    ensures RawEntry(s, v) == Word(s, v)
    ensures RawEntry(s, v) % 2 == 1 <==> Frame(s, v) != -1
    ensures Frame(s, v) != -1 ==> Frame(s, v) == RawEntry(s, v) / 4096 && 0 <= Frame(s, v) < FRAMES
    ensures Frame(s, v) != -1 ==> s.own[Frame(s, v)] == User(v / 1024, v % 1024)
  {
    PageParts(v);
    MappedFrame(s, v);
    assert DirAt(s, DirOf(v));
  }

  lemma PairApart(s: Vm, v: int, w: int)
    requires Inv(s) && 0 <= v < w < 0x8_0000 && RawEntry(s, v) % 2 == 1 && RawEntry(s, w) % 2 == 1
    ensures RawEntry(s, v) / 4096 != RawEntry(s, w) / 4096
  {
    RawEntryIs(s, v);
    RawEntryIs(s, w);
    hide *;
    assert v == 1024 * (v / 1024) + v % 1024 && w == 1024 * (w / 1024) + w % 1024;
  }

  lemma InvApart(s: Vm)
    requires Inv(s)
    ensures MmuApart(s)
  {
    hide Space, FreeOk, RawEntry;
    forall v, w | 0 <= v < w < 0x8_0000 && RawEntry(s, v) % 2 == 1 && RawEntry(s, w) % 2 == 1
      ensures RawEntry(s, v) / 4096 != RawEntry(s, w) / 4096
    {
      PairApart(s, v, w);
    }
  }

  /** How many pages are mapped after allocuvm. */
  function Reached(lo: int, n: int, out: Outcome): int {
    match out
    case Maps => n
    case RollsBack => lo
    case Leaks(page) => if page == n - 1 then n - 1 else lo
  }

  lemma MmuPageIs(s: Vm, r: Vm, lo: int, m: int, v: int)
    requires Inv(s) && Inv(r) && IsPage(v) && if lo <= v < m then NewPage(s, r, v) else Kept(s, r, v)
    ensures MmuPage(s, r, lo, m, v)
  {
    RawEntryIs(s, v);
    RawEntryIs(r, v);
    hide Space, FreeOk, Word, Frame, RawEntry;
    if lo <= v < m {
      var f := RawEntry(r, v) / 4096;
      assert r.mem[f] == ZeroPage();
      assert forall i :: 0 <= i < 1024 ==> r.mem[f][i] == ZeroPage()[i] == 0;
    }
  }

  /** allocuvm as the MMU sees it, whatever the outcome. */
  lemma ResultIsMmuGrown(s: Vm, r: Vm, lo: int, n: int, out: Outcome)
    requires Inv(s) && Result(s, r, lo, n, out)
    ensures Shaped(r) && MmuGrown(s, r, lo, Reached(lo, n, out)) && MmuApart(r)
  {
    InvApart(r);
    hide Space, FreeOk, NewPage, Kept, OneLost, Accounted, OthersKept, MmuPage, MmuApart;
    forall v | 0 <= v < 0x8_0000 ensures MmuPage(s, r, lo, Reached(lo, n, out), v) {
      MmuPageIs(s, r, lo, Reached(lo, n, out), v);
    }
  }

  /** deallocuvm as the MMU sees it: pages lo..m are gone and their frames free; the other pages keep entry and
      contents. */
  ghost predicate MmuShrunk(s: Vm, r: Vm, lo: int, m: int)
    requires Shaped(s) && Shaped(r)
  {
    forall v :: 0 <= v < 0x8_0000 ==>
      if lo <= v < m then MmuGone(s, r, v) else MmuPage(s, r, 0, 0, v)
  }

  predicate MmuGone(s: Vm, r: Vm, v: int)
    requires Shaped(s) && Shaped(r) && 0 <= v < 0x8_0000
  {
    && RawEntry(r, v) % 2 == 0
    && (RawEntry(s, v) % 2 == 1 ==>
          0 <= RawEntry(s, v) / 4096 < 0xE000 && r.own[RawEntry(s, v) / 4096] == Free)
  }

  lemma ShrunkIsMmuShrunk(s: Vm, r: Vm, lo: int, m: int)
    requires Inv(s) && Inv(r) && Shrunk(s, r, lo, m)
    ensures MmuShrunk(s, r, lo, m)
  {
    hide Space, FreeOk, Freed, Kept, Accounted, OthersKept, MmuPage, MmuGone;
    forall v | 0 <= v < 0x8_0000 ensures if lo <= v < m then MmuGone(s, r, v) else MmuPage(s, r, 0, 0, v) {
      if lo <= v < m { MmuGoneIs(s, r, v); } else { MmuPageIs(s, r, 0, 0, v); }
    }
  }

  lemma MmuGoneIs(s: Vm, r: Vm, v: int)
    requires Inv(s) && Inv(r) && IsPage(v) && Freed(s, r, v)
    ensures MmuGone(s, r, v)
  {
    RawEntryIs(s, v);
    RawEntryIs(r, v);
    hide Space, FreeOk, Word, Frame, RawEntry;
  }
}
