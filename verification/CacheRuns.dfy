/** Every run of buffer-cache steps by disciplined holders: the cache refines the disk, and the
    recycled buffer is the least recently released idle one. */
module CacheRuns {
  import opened Words
  import opened LogSpec
  import opened CacheSpec

  // ----- one step

  /** Setting one buffer to a value that stays unique and consistent keeps the invariant. */
  lemma UpdateKeepsInv(c: Cache, b: nat, x: Buf)
    requires Inv(c) && b < NBUF && BufOk(x, c.disk)
    requires x.dev != NODEV ==> forall i :: 0 <= i < NBUF && i != b ==> !c.bufs[i].Holds(x.dev, x.sector)
    ensures Inv(c.(bufs := c.bufs[b := x]))
  {
  }

  lemma OthersHoldOther(c: Cache, b: nat)
    requires Inv(c) && b < NBUF && c.bufs[b].dev != NODEV
    ensures forall i :: 0 <= i < NBUF && i != b ==> !c.bufs[i].Holds(c.bufs[b].dev, c.bufs[b].sector)
  {
    forall i | 0 <= i < NBUF && i != b ensures !c.bufs[i].Holds(c.bufs[b].dev, c.bufs[b].sector) {
      assert c.bufs[i].Holds(c.bufs[b].dev, c.bufs[b].sector) ==> c.bufs[b].Holds(c.bufs[i].dev, c.bufs[i].sector);
    }
  }

  /** Content depends only on the buffer that caches the sector, if any. */
  lemma ContentOf(c: Cache, s: nat, i: nat)
    requires Unique(c.bufs) && s < |c.disk| && i < |c.bufs| && c.bufs[i].Holds(ROOTDEV, s)
    ensures Content(c, s) == if c.bufs[i].valid then c.bufs[i].data else c.disk[s]
  {
    FindUnique(c.bufs, i);
  }

  lemma GetKeeps(c: Cache, dev: int, s: nat)
    requires Inv(c) && dev != NODEV
    ensures Inv(Get(c, dev, s))
  {
    match Lookup(c, dev, s)
    case Hit(b) =>
      OthersHoldOther(c, b);
      UpdateKeepsInv(c, b, c.bufs[b].(busy := true));
    case Recycled(b) =>
      UpdateKeepsInv(c, b, c.bufs[b].(dev := dev, sector := s, busy := true, valid := false, dirty := false));
    case _ =>
  }

  lemma ReadKeeps(c: Cache, s: nat)
    requires Inv(c) && s < |c.disk|
    ensures Inv(Read(c, s))
    ensures Read(c, s).disk == c.disk
    ensures forall b: nat :: Lookup(c, ROOTDEV, s) == Hit(b) || Lookup(c, ROOTDEV, s) == Recycled(b) ==>
              var x := Read(c, s).bufs[b];
              x.busy && x.valid && x.Holds(ROOTDEV, s) && x.data == Content(c, s)
  {
    match Lookup(c, ROOTDEV, s)
    case Hit(b) =>
      OthersHoldOther(c, b);
      UpdateKeepsInv(c, b, c.bufs[b].(busy := true));
      ContentOf(c, s, b);
    case Recycled(b) =>
      var x := Buf(ROOTDEV, s, true, true, false, c.disk[s]);
      UpdateKeepsInv(c, b, x);
      assert Read(c, s).bufs == c.bufs[b := x];
    case _ =>
  }

  /** Reading, however it recycles, leaves every logical content as it was. */
  lemma ReadContent(c: Cache, s: nat, t: nat)
    requires Inv(c) && s < |c.disk| && t < |c.disk|
    ensures Content(Read(c, s), t) == Content(c, t)
  {
    ReadKeeps(c, s);
    var c' := Read(c, s);
    var i := Find(c.bufs, NBUF, ROOTDEV, t);
    var i' := Find(c'.bufs, NBUF, ROOTDEV, t);
    if i' >= 0 { ContentOf(c', t, i'); }
    if i >= 0 && i != i' { assert !c'.bufs[i].Holds(ROOTDEV, t); }
  }

  lemma ModifyKeeps(c: Cache, b: nat, data: Block, log: bool)
    requires Inv(c) && b < NBUF && c.bufs[b].busy && c.bufs[b].valid
    ensures Inv(Modify(c, b, data, log))
    ensures forall t :: 0 <= t < |c.disk| ==>
              Content(Modify(c, b, data, log), t) == if t == c.bufs[b].sector then data else Content(c, t)
  {
    var c' := Modify(c, b, data, log);
    OthersHoldOther(c, b);
    UpdateKeepsInv(c, b, c'.bufs[b]);
    forall t | 0 <= t < |c.disk|
      ensures Content(c', t) == if t == c.bufs[b].sector then data else Content(c, t)
    {
      SameHolder(c, c', t);
      if t == c.bufs[b].sector { ContentOf(c', t, b); }
    }
  }

  /** Steps that rename no buffer leave every sector with its holder. */
  lemma SameHolder(c: Cache, c': Cache, t: nat)
    requires Inv(c) && Inv(c')
    requires forall i :: 0 <= i < NBUF ==> c'.bufs[i].dev == c.bufs[i].dev && c'.bufs[i].sector == c.bufs[i].sector
    ensures Find(c'.bufs, NBUF, ROOTDEV, t) == Find(c.bufs, NBUF, ROOTDEV, t)
  {
    var i, i' := Find(c.bufs, NBUF, ROOTDEV, t), Find(c'.bufs, NBUF, ROOTDEV, t);
    if i >= 0 { FindUnique(c'.bufs, i); }
  }

  lemma FlushKeeps(c: Cache, b: nat)
    requires Inv(c) && b < NBUF && c.bufs[b].busy && c.bufs[b].valid
    ensures Inv(Flush(c, b))
    ensures forall t :: 0 <= t < |c.disk| ==> Content(Flush(c, b), t) == Content(c, t)
  {
    var c' := Flush(c, b);
    OthersHoldOther(c, b);
    forall i | 0 <= i < NBUF ensures BufOk(c'.bufs[i], c'.disk) {}
    forall t | 0 <= t < |c.disk| ensures Content(c', t) == Content(c, t) {
      SameHolder(c, c', t);
      if t == c.bufs[b].sector { ContentOf(c, t, b); ContentOf(c', t, b); }
    }
  }

  lemma ReleaseKeeps(c: Cache, b: nat)
    requires Inv(c) && b < NBUF && c.bufs[b].busy && c.bufs[b].valid
    requires c.bufs[b].dirty || c.bufs[b].data == c.disk[c.bufs[b].sector]
    ensures b in c.order && Inv(Release(c, b))
    ensures forall t :: 0 <= t < |c.disk| ==> Content(Release(c, b), t) == Content(c, t)
  {
    assert b in c.order;
    var c' := Release(c, b);
    ToFrontPermutes(c.order, Position(c.order, b));
    OthersHoldOther(c, b);
    UpdateKeepsInv(c, b, c'.bufs[b]);
    forall t | 0 <= t < |c.disk| ensures Content(c', t) == Content(c, t) {
      SameHolder(c, c', t);
    }
  }

  // ----- the cache seen from above

  /** Logical content of every sector. */
  ghost function View(c: Cache): (r: Disk)
    ensures |r| == |c.disk|
  {
    seq(|c.disk|, t requires 0 <= t < |c.disk| => Content(c, t))
  }

  lemma ViewAt(c: Cache, s: nat)
    requires s < |c.disk|
    ensures View(c)[s] == Content(c, s)
  {
  }

  /** Sectors whose buffer is held. */
  ghost predicate Busy(c: Cache, s: nat) {
    exists i :: 0 <= i < |c.bufs| && c.bufs[i].busy && c.bufs[i].Holds(ROOTDEV, s)
  }

  /** Sectors whose buffer is marked dirty. */
  ghost predicate Dirty(c: Cache, s: nat) {
    exists i :: 0 <= i < |c.bufs| && c.bufs[i].dirty && c.bufs[i].Holds(ROOTDEV, s)
  }

  ghost function HeldSectors(c: Cache): set<nat> {
    set s: nat | s < |c.disk| && Busy(c, s)
  }

  ghost function DirtySectors(c: Cache): set<nat> {
    set s: nat | s < |c.disk| && Dirty(c, s)
  }

  /** A sector that is neither held nor dirty reads as the disk has it. */
  lemma IdleMatchesDisk(c: Cache, s: nat)
    requires Inv(c) && s < |c.disk| && s !in HeldSectors(c) && s !in DirtySectors(c)
    ensures View(c)[s] == c.disk[s]
  {
    var i := Find(c.bufs, NBUF, ROOTDEV, s);
    if i >= 0 { assert c.bufs[i].Idle(); }
  }

  lemma ReadAbove(c: Cache, s: nat, b: nat)
    requires Inv(c) && s < |c.disk|
    requires Lookup(c, ROOTDEV, s) == Hit(b) || Lookup(c, ROOTDEV, s) == Recycled(b)
    ensures View(Read(c, s)) == View(c)
    ensures HeldSectors(Read(c, s)) == HeldSectors(c) + {s}
    ensures DirtySectors(Read(c, s)) == DirtySectors(c)
  {
    var c' := Read(c, s);
    ReadKeeps(c, s);
    forall t | 0 <= t < |c.disk| ensures Content(c', t) == Content(c, t) { ReadContent(c, s, t); }
    forall t ensures Busy(c', t) <==> t == s || Busy(c, t) {
      if t == s { assert c'.bufs[b].busy; }
      if Busy(c, t) {
        var i :| 0 <= i < NBUF && c.bufs[i].busy && c.bufs[i].Holds(ROOTDEV, t);
        assert c'.bufs[i].busy && c'.bufs[i].Holds(ROOTDEV, t);
      }
    }
    forall t ensures Dirty(c', t) <==> Dirty(c, t) {
      if Dirty(c, t) {
        var i :| 0 <= i < NBUF && c.bufs[i].dirty && c.bufs[i].Holds(ROOTDEV, t);
        assert c'.bufs[i].dirty && c'.bufs[i].Holds(ROOTDEV, t);
      }
    }
  }

  /** Only a held sector makes bread wait. */
  lemma WaitMeansBusy(c: Cache, s: nat)
    requires Inv(c) && s < |c.disk| && s !in HeldSectors(c)
    ensures !Lookup(c, ROOTDEV, s).MustSleep?
  {
  }

  /** A step on buffer b that keeps every identity and every other flag changes busy and dirty at b's
      sector only. */
  lemma FlagsAbove(c: Cache, c': Cache, b: nat)
    requires Inv(c) && Inv(c') && b < NBUF && c.bufs[b].dev == ROOTDEV
    requires c'.bufs[b].Holds(ROOTDEV, c.bufs[b].sector)
    requires forall i :: 0 <= i < NBUF && i != b ==> c'.bufs[i] == c.bufs[i]
    ensures forall t :: t != c.bufs[b].sector ==> (Busy(c', t) <==> Busy(c, t)) && (Dirty(c', t) <==> Dirty(c, t))
    ensures Busy(c', c.bufs[b].sector) <==> c'.bufs[b].busy
    ensures Dirty(c', c.bufs[b].sector) <==> c'.bufs[b].dirty
  {
    OthersHoldOther(c, b);
    var s := c.bufs[b].sector;
    forall t | t != s ensures (Busy(c', t) <==> Busy(c, t)) && (Dirty(c', t) <==> Dirty(c, t)) {
      forall i | 0 <= i < NBUF ensures c'.bufs[i].Holds(ROOTDEV, t) ==> c'.bufs[i] == c.bufs[i] {}
      forall i | 0 <= i < NBUF ensures c.bufs[i].Holds(ROOTDEV, t) ==> c'.bufs[i] == c.bufs[i] {}
    }
  }

  lemma ModifyAbove(c: Cache, b: nat, data: Block, log: bool)
    requires Inv(c) && b < NBUF && c.bufs[b].busy && c.bufs[b].valid
    ensures Inv(Modify(c, b, data, log))
    ensures View(Modify(c, b, data, log)) == View(c)[c.bufs[b].sector := data]
    ensures HeldSectors(Modify(c, b, data, log)) == HeldSectors(c)
    ensures DirtySectors(Modify(c, b, data, log)) ==
            if log then DirtySectors(c) + {c.bufs[b].sector} else DirtySectors(c)
  {
    ModifyKeeps(c, b, data, log);
    FlagsAbove(c, c, b);
    FlagsAbove(c, Modify(c, b, data, log), b);
  }

  lemma FlushAbove(c: Cache, b: nat)
    requires Inv(c) && b < NBUF && c.bufs[b].busy && c.bufs[b].valid
    ensures Inv(Flush(c, b)) && View(Flush(c, b)) == View(c)
    ensures HeldSectors(Flush(c, b)) == HeldSectors(c)
    ensures DirtySectors(Flush(c, b)) == DirtySectors(c) - {c.bufs[b].sector}
  {
    FlushKeeps(c, b);
    FlagsAbove(c, c, b);
    FlagsAbove(c, Flush(c, b), b);
  }

  lemma ReleaseAbove(c: Cache, b: nat)
    requires Inv(c) && b < NBUF && c.bufs[b].busy && c.bufs[b].valid
    requires c.bufs[b].dirty || c.bufs[b].data == c.disk[c.bufs[b].sector]
    ensures b in c.order && Inv(Release(c, b)) && View(Release(c, b)) == View(c)
    ensures HeldSectors(Release(c, b)) == HeldSectors(c) - {c.bufs[b].sector}
    ensures DirtySectors(Release(c, b)) == DirtySectors(c)
  {
    ReleaseKeeps(c, b);
    FlagsAbove(c, c, b);
    FlagsAbove(c, Release(c, b), b);
  }

  // ----- how many buffers are in use

  /** Between calls every busy buffer holds the contents of its sector. */
  ghost predicate Settled(c: Cache) {
    forall i :: 0 <= i < |c.bufs| && c.bufs[i].busy ==> c.bufs[i].valid
  }

  /** Sectors that occupy a buffer: held or marked. */
  ghost function Pinned(c: Cache): set<nat> {
    HeldSectors(c) + DirtySectors(c)
  }

  predicate Occupies(c: Cache, i: int, s: nat) {
    0 <= i < |c.bufs| && !c.bufs[i].Idle() && c.bufs[i].sector == s
  }

  /** Sectors of the buffers that are not idle, among the first n. */
  ghost function PinnedBy(c: Cache, n: nat): set<nat>
    requires n <= |c.bufs|
  {
    if n == 0 then {}
    else if c.bufs[n - 1].Idle() then PinnedBy(c, n - 1)
    else PinnedBy(c, n - 1) + {c.bufs[n - 1].sector}
  }

  lemma {:induction false} PinnedByHas(c: Cache, n: nat, s: nat)
    requires n <= |c.bufs|
    ensures s in PinnedBy(c, n) <==> exists i :: 0 <= i < n && Occupies(c, i, s)
  {
    if n > 0 {
      PinnedByHas(c, n - 1, s);
      assert Occupies(c, n - 1, s) <==> !c.bufs[n - 1].Idle() && c.bufs[n - 1].sector == s;
    }
  }

  /** Different buffers that are not idle have different sectors, so they are as many as their sectors. */
  lemma {:induction false} PinnedByCount(c: Cache, n: nat)
    requires Inv(c) && Settled(c) && n <= NBUF
    ensures |PinnedBy(c, n)| <= n && (|PinnedBy(c, n)| == n <==> forall i :: 0 <= i < n ==> !c.bufs[i].Idle())
  {
    if n > 0 {
      PinnedByCount(c, n - 1);
      if !c.bufs[n - 1].Idle() { NewSector(c, n - 1); }
    }
  }

  lemma NewSector(c: Cache, b: nat)
    requires Inv(c) && Settled(c) && b < NBUF && !c.bufs[b].Idle()
    ensures c.bufs[b].sector !in PinnedBy(c, b)
  {
    hide PinnedBy;
    PinnedByHas(c, b, c.bufs[b].sector);
    assert c.bufs[b].valid;
    forall i | 0 <= i < b ensures !Occupies(c, i, c.bufs[b].sector) {
      assert c.bufs[i].valid ==> !c.bufs[b].Holds(c.bufs[i].dev, c.bufs[i].sector);
    }
  }

  lemma PinnedIs(c: Cache)
    requires Inv(c) && Settled(c)
    ensures Pinned(c) == PinnedBy(c, NBUF)
  {
    hide PinnedBy;
    forall s: nat ensures s in Pinned(c) <==> s in PinnedBy(c, NBUF) {
      PinnedByHas(c, NBUF, s);
      PinnedSector(c, s);
    }
  }

  lemma PinnedSector(c: Cache, s: nat)
    requires Inv(c) && Settled(c)
    ensures s in Pinned(c) <==> exists i :: 0 <= i < NBUF && Occupies(c, i, s)
  {
    if i :| 0 <= i < NBUF && Occupies(c, i, s) {
      assert c.bufs[i].valid && c.bufs[i].Holds(ROOTDEV, s);
      assert Busy(c, s) || Dirty(c, s);
    }
    if i :| 0 <= i < NBUF && c.bufs[i].busy && c.bufs[i].Holds(ROOTDEV, s) { assert Occupies(c, i, s); }
    if i :| 0 <= i < NBUF && c.bufs[i].dirty && c.bufs[i].Holds(ROOTDEV, s) { assert Occupies(c, i, s); }
  }

  /** bread of a sector nobody holds runs out of buffers exactly when the sector has no buffer and all of them are
      held or marked. */
  lemma NoBuffersIffFull(c: Cache, s: nat)
    requires Inv(c) && Settled(c) && s < |c.disk|
    ensures |Pinned(c)| <= NBUF
    ensures Lookup(c, ROOTDEV, s).NoBuffers? <==> s !in Pinned(c) && |Pinned(c)| == NBUF
  {
    hide PinnedBy, Pinned;
    PinnedIs(c);
    PinnedByCount(c, NBUF);
    PinnedSector(c, s);
    var i, v := Find(c.bufs, NBUF, ROOTDEV, s), Victim(c.bufs, c.order, NBUF);
    if v == -1 {
      forall b | 0 <= b < NBUF ensures !c.bufs[b].Idle() { assert b in c.order; }
    }
    if b :| 0 <= b < NBUF && Occupies(c, b, s) { assert c.bufs[b].Holds(ROOTDEV, s); }
    assert i >= 0 && !c.bufs[i].Idle() ==> Occupies(c, i, s);
  }

  // ----- whole runs, any number of processes interleaved

  datatype Event =
    | Reads(sector: nat)
    | Modifies(b: nat, data: Block, log: bool)
    | Flushes(b: nat)
    | Releases(b: nat)

  datatype History = Boot(c: Cache) | Then(before: History, e: Event)

  /** The holder's discipline: touch only a buffer you hold, release it clean or marked dirty. */
  predicate Guard(c: Cache, e: Event) {
    match e
    case Reads(s) => s < |c.disk|
    case Modifies(b, data, log) => b < |c.bufs| && c.bufs[b].busy && c.bufs[b].valid
    case Flushes(b) => b < |c.bufs| && c.bufs[b].busy && c.bufs[b].valid
    case Releases(b) =>
      && b < |c.bufs| && c.bufs[b].busy && c.bufs[b].valid
      && (c.bufs[b].dirty || (c.bufs[b].sector < |c.disk| && c.bufs[b].data == c.disk[c.bufs[b].sector]))
  }

  ghost predicate Allowed(c: Cache, e: Event) {
    Inv(c) && Guard(c, e)
  }

  /** A step of bio.c; it is described in states that meet the invariant, and CacheRefinesDisk shows that
      runs never leave those. */
  ghost function Next(c: Cache, e: Event): (r: Cache) {
    if !Allowed(c, e) then c else
    match e
    case Reads(s) => Read(c, s)
    case Modifies(b, data, log) => Modify(c, b, data, log)
    case Flushes(b) => Flush(c, b)
    case Releases(b) => assert b in c.order; Release(c, b)
  }

  lemma NextKeeps(c: Cache, e: Event)
    requires Allowed(c, e)
    ensures Inv(Next(c, e)) && |Next(c, e).disk| == |c.disk|
    ensures forall t :: 0 <= t < |c.disk| ==>
              Content(Next(c, e), t) == if e.Modifies? && c.bufs[e.b].sector == t then e.data else Content(c, t)
  {
    match e
    case Reads(s) =>
      ReadKeeps(c, s);
      forall t | 0 <= t < |c.disk| ensures Content(Next(c, e), t) == Content(c, t) { ReadContent(c, s, t); }
    case Modifies(b, data, log) => ModifyKeeps(c, b, data, log);
    case Flushes(b) => FlushKeeps(c, b);
    case Releases(b) => ReleaseKeeps(c, b);
  }

  /** Any run of guarded steps from a consistent cache. */
  ghost predicate Legal(h: History) {
    match h
    case Boot(c) => Inv(c)
    case Then(before, e) => Legal(before) && Guard(State(before), e)
  }

  ghost function State(h: History): Cache {
    match h
    case Boot(c) => c
    case Then(before, e) => Next(State(before), e)
  }

  ghost function Size(h: History): nat {
    if h.Boot? then |h.c.disk| else Size(h.before)
  }

  /** What the holders last stored in a sector: the specification of the cached disk. */
  ghost function LastStored(h: History, t: nat): Block
    requires t < Size(h)
  {
    match h
    case Boot(c) => Content(c, t)
    case Then(before, e) =>
      if e.Modifies? && e.b < |State(before).bufs| && State(before).bufs[e.b].sector == t then e.data
      else LastStored(before, t)
  }

  /** The cache refines the disk: in every reachable state the invariant holds and the logical
      content of each sector is what a holder last stored there, whatever was recycled meanwhile. */
  lemma {:induction false} CacheRefinesDisk(h: History)
    requires Legal(h)
    ensures Inv(State(h)) && |State(h).disk| == Size(h)
    ensures forall t :: 0 <= t < Size(h) ==> Content(State(h), t) == LastStored(h, t)
  {
    if h.Then? {
      CacheRefinesDisk(h.before);
      NextKeeps(State(h.before), h.e);
    }
  }

  // ----- recency

  ghost function Length(h: History): nat {
    if h.Boot? then 0 else 1 + Length(h.before)
  }

  /** When b was last released: 0 if never, else the position of the step in the run. */
  ghost function Recency(h: History, b: nat): (r: nat)
    ensures r <= Length(h)
  {
    if h.Boot? then 0 else if h.e == Releases(b) then Length(h) else Recency(h.before, b)
  }

  ghost predicate ByRecency(h: History, order: seq<nat>) {
    forall j, k :: 0 <= j < k < |order| ==> Recency(h, order[j]) >= Recency(h, order[k])
  }

  lemma ReleaseKeepsRecency(h: History)
    requires h.Then? && h.e.Releases? && Legal(h) && Inv(State(h.before))
    requires ByRecency(h.before, State(h.before).order)
    ensures ByRecency(h, State(h).order)
  {
    hide Content, Unique, BufOk;
    var o, b := State(h.before).order, h.e.b;
    assert b in o;
    var k, r := Position(o, b), State(h).order;
    forall i, j | 0 <= i < j < |r| ensures Recency(h, r[i]) >= Recency(h, r[j]) {
      assert r[j] == o[if j <= k then j - 1 else j];
      if i > 0 { assert r[i] == o[if i <= k then i - 1 else i]; }
    }
  }

  lemma {:induction false} OrderIsRecency(h: History)
    requires Legal(h)
    ensures Inv(State(h)) && ByRecency(h, State(h).order)
  {
    hide Content, Unique, BufOk;
    CacheRefinesDisk(h);
    if h.Then? {
      OrderIsRecency(h.before);
      if h.e.Releases? {
        ReleaseKeepsRecency(h);
      }
    }
  }

  /** A recycled buffer is idle, and no idle buffer was released before it. */
  lemma RecyclesLeastRecent(h: History, s: nat, other: nat)
    requires Legal(h) && other < NBUF && |State(h).bufs| == NBUF && State(h).bufs[other].Idle()
    ensures Inv(State(h))
    ensures match Lookup(State(h), ROOTDEV, s)
            case Recycled(b) => State(h).bufs[b].Idle() && Recency(h, b) <= Recency(h, other)
            case NoBuffers => false
            case _ => true
  {
    OrderIsRecency(h);
    var c := State(h);
    assert other in c.order;
    var k :| 0 <= k < NBUF && c.order[k] == other;
    var v := Victim(c.bufs, c.order, NBUF);
  }
}
