/** log.c over the buffer cache: every method is tied to the sector writes it issues. */
module Log {
  import opened Lists
  import opened Words
  import opened LogSpec
  import opened LogCrash
  import opened CacheSpec
  import opened CacheRuns
  import opened BufferCache
  import opened Panics

  /** One more log_write call appends one entry to the trace. */
  lemma OneMoreCall(g: Geometry, tx: Tx, w: Write)
    ensures LogTrace(g, tx + [w]) == LogTrace(g, tx) + [Write(g.start + 1 + Slot(Sectors(tx), w.sector), w.data)]
  {
    SectorsPrefix(tx, w, |tx|);
    forall i | 0 <= i < |tx| ensures LogEntry(g, tx + [w], i) == LogEntry(g, tx, i) {
      SectorsPrefix(tx, w, i);
    }
  }

  /** The sectors of the list lie outside the log. */
  ghost predicate HomeSecs(g: Geometry, secs: seq<nat>, d: Disk) {
    forall i :: 0 <= i < |secs| ==> g.Home(secs[i], d)
  }

  ghost predicate HomeMarks(g: Geometry, marked: set<nat>, d: Disk) {
    forall s :: s in marked ==> g.Home(s, d)
  }

  ghost predicate AllMarked(marked: set<nat>, secs: seq<nat>) {
    forall i :: 0 <= i < |secs| ==> secs[i] in marked
  }

  /** Exactly the listed sectors are marked. */
  ghost predicate MarksAre(marked: set<nat>, secs: seq<nat>) {
    forall s :: s in marked <==> s in secs
  }

  /** Only the size of the disk matters. */
  lemma HomeAgain(g: Geometry, secs: seq<nat>, marked: set<nat>, d: Disk)
    requires HomeSecs(g, secs, d) && MarksAre(marked, secs)
    ensures AllMarked(marked, secs) && (g.size >= 1 ==> g.start !in marked)
    ensures forall e: Disk :: |e| == |d| ==> HomeSecs(g, secs, e) && HomeMarks(g, marked, e)
  {
    forall s | s in marked ensures g.Home(s, d) {
      var i :| 0 <= i < |secs| && secs[i] == s;
    }
  }

  /** An open transaction: header, disk and dirty marks are where the calls `tx` leave them. */
  ghost predicate Consistent(g: Geometry, base: Disk, tx: Tx, disk: Disk, secs: seq<nat>, marked: set<nat>) {
    && g.Fits(disk) && |base| == |disk|
    && Clean(g, base) && HomeTx(g, base, tx)
    && secs == Sectors(tx) && |secs| <= g.Capacity()
    && disk == Apply(base, LogTrace(g, tx))
    && MarksAre(marked, secs)
  }

  /** Every recorded sector that nobody is changing reads as its last logged data. */
  ghost predicate Current(base: Disk, tx: Tx, secs: seq<nat>, seen: Disk, held: set<nat>) {
    forall s: nat :: s in secs && s !in held && s < |base| && s < |seen| ==> seen[s] == Apply(base, tx)[s]
  }

  lemma ConsistentCall(g: Geometry, base: Disk, tx: Tx, disk: Disk, secs: seq<nat>, marked: set<nat>, w: Write)
    requires Consistent(g, base, tx, disk, secs, marked) && |secs| < g.Capacity() && g.Home(w.sector, base)
    ensures var slot := g.start + 1 + Slot(secs, w.sector);
            && slot < |disk|
            && Consistent(g, base, tx + [w], disk[slot := w.data], Record(secs, w.sector),
                          (marked - {slot}) + {w.sector})
  {
    hide LogTrace, SectorsAfter, After;
    var slot := g.start + 1 + Slot(secs, w.sector);
    var next := disk[slot := w.data];
    assert next == Apply(base, LogTrace(g, tx + [w])) && Sectors(tx + [w]) == Record(secs, w.sector) by {
      OneMoreCall(g, tx, w);
      SectorsSnoc(tx, w);
      ApplySnoc(base, LogTrace(g, tx), Write(slot, w.data));
    }
    assert slot !in secs by {
      SectorsExact(g, base, tx, |tx|);
      forall i | 0 <= i < |secs| ensures secs[i] != slot {
        assert g.Home(SectorsAfter(tx, |tx|)[i], base);
      }
    }
  }

  /** The writes of commit_trans complete the transaction's trace and leave the log clean. */
  lemma CommitDone(g: Geometry, base: Disk, tx: Tx, disk: Disk, secs: seq<nat>, marked: set<nat>)
    requires Consistent(g, base, tx, disk, secs, marked)
    ensures var e := Apply(disk, CommitTrace(g, disk, secs));
            Clean(g, e) && SameHome(g, e, Apply(base, tx))
  {
    hide LogTrace, CommitTrace, After, SameHome, Sectors;
    var a, b := LogTrace(g, tx), CommitTrace(g, disk, secs);
    assert TxTrace(g, base, tx) == a + b;
    AfterConcat(base, a, b, |b|);
    TransactionDone(g, base, tx);
  }

  /** Before the commit, home sectors that nobody is changing read as the transaction will leave them. */
  lemma SeenIsCurrent(g: Geometry, base: Disk, tx: Tx, c: Cache, secs: seq<nat>, s: nat)
    requires Inv(c) && Consistent(g, base, tx, c.disk, secs, DirtySectors(c))
    requires Current(base, tx, secs, View(c), HeldSectors(c))
    requires s < |base| && g.Home(s, base) && s !in HeldSectors(c)
    ensures View(c)[s] == Apply(base, tx)[s]
  {
    SectorsExact(g, base, tx, |tx|);
    if s !in secs {
      assert s !in DirtySectors(c);
      IdleMatchesDisk(c, s);
      LogPhaseFrame(g, base, tx, |tx|, s);
      AfterFrame(base, tx, |tx|, s);
    }
  }

  /** A clean log with nothing marked is a transaction about to begin. */
  lemma FreshTransaction(g: Geometry, d: Disk, seen: Disk, held: set<nat>)
    requires Clean(g, d)
    ensures Consistent(g, d, [], d, [], {}) && Current(d, [], [], seen, held)
  {
    assert LogTrace(g, []) == [];
  }

  lemma CurrentCall(g: Geometry, base: Disk, tx: Tx, secs: seq<nat>, seen: Disk, held: set<nat>, w: Write, slot: nat)
    requires g.Fits(base) && HomeTx(g, base, tx) && secs == Sectors(tx) && Current(base, tx, secs, seen, held)
    requires |seen| == |base| && g.Home(w.sector, base) && seen[w.sector] == w.data
    requires slot < |base| && !g.Home(slot, base)
    ensures Current(base, tx + [w], Record(secs, w.sector), seen[slot := w.data], held)
  {
    ApplySnoc(base, tx, w);
    SectorsExact(g, base, tx, |tx|);
  }

  ghost predicate LogUnheld(g: Geometry, held: set<nat>) {
    forall s :: g.start <= s < g.start + g.size ==> s !in held
  }

  ghost predicate NoneHeld(g: Geometry, secs: seq<nat>, held: set<nat>) {
    LogUnheld(g, held) && forall i :: 0 <= i < |secs| ==> secs[i] !in held
  }

  lemma HeaderUnheld(g: Geometry, secs: seq<nat>, held: set<nat>)
    requires NoneHeld(g, secs, held) && g.size >= 1
    ensures g.start !in held
  {
  }

  class Log {
    const bc: BufferCache
    const g: Geometry
    var n: nat
    var sector: seq<nat>
    var busy: bool

    /** The log_write calls of the open transaction, and the disk when it began. */
    ghost var tx: Tx
    ghost var base: Disk

    /** Sectors recorded in the in-memory header. */
    ghost function Recorded(): seq<nat>
      requires n <= |sector|
      reads this
    {
      sector[..n]
    }

    /** The cache, the header and the disk are where a run of the open transaction leaves them. */
    ghost predicate Valid()
      reads this, bc
    {
      && bc.Valid()
      && n <= |sector| == LOGSIZE
      && Consistent(g, base, tx, bc.disk, Recorded(), bc.Marked())
      && Current(base, tx, Recorded(), bc.Seen(), bc.Held())
      && (!busy ==> tx == [])
    }

    ghost predicate LogSectorsFree()
      reads this, bc
    {
      LogUnheld(g, bc.Held())
    }

    constructor (bc: BufferCache, g: Geometry)
      ensures this.bc == bc && this.g == g && n == 0 && |sector| == LOGSIZE && !busy
    {
      this.bc, this.g := bc, g;
      this.n, this.sector, this.busy := 0, seq(LOGSIZE, _ => 0), false;
      this.tx, this.base := [], bc.disk;
    }

    /** bread of a sector nobody holds. */
    method Acquire(s: nat) returns (r: Outcome, b: nat)
      requires bc.Valid() && s < |bc.disk| && s !in bc.Held()
      modifies bc
      ensures bc.disk == old(bc.disk) && bc.trace == old(bc.trace)
      ensures r.Panic? <==> old(s !in bc.Marked() && bc.Full())
      ensures r.Panic? ==> r.why == OutOfBuffers
      ensures r.Done? ==>
                && bc.Valid() && bc.Seen() == old(bc.Seen())
                && bc.Held() == old(bc.Held()) + {s} && bc.Marked() == old(bc.Marked())
                && Holding(b, s) && !old(bc.bufs[b].busy)
                && (!old(s in bc.Marked()) ==> bc.bufs[b].data == bc.disk[s])
                && forall i :: 0 <= i < NBUF && i != b ==> bc.bufs[i] == old(bc.bufs[i])
    {
      hide View, HeldSectors, DirtySectors, Inv, Ring, Settled, Lookup, Read, bc.Full;
      if s !in bc.Marked() { IdleMatchesDisk(bc.Value(), s); }
      var h := bc.Bread(ROOTDEV, s);
      if h.ReadPanic? { return Panic(h.why), 0; }
      return Done, h.b;
    }

    ghost predicate Holding(b: nat, s: nat)
      reads bc
    {
      b < NBUF == |bc.bufs| && bc.bufs[b].busy && bc.bufs[b].valid && bc.bufs[b].Holds(ROOTDEV, s) && s < |bc.disk|
    }

    /** memmove into a held buffer and bwrite it. */
    method Save(b: nat, ghost s: nat, data: Block)
      requires bc.Valid() && Holding(b, s)
      modifies bc`bufs, bc`disk, bc`trace
      ensures bc.Valid() && Holding(b, s) && bc.bufs[b].data == data
      ensures bc.disk == old(bc.disk)[s := data] && bc.Seen() == old(bc.Seen())[s := data]
      ensures bc.Held() == old(bc.Held()) && bc.Marked() == old(bc.Marked()) - {s}
      ensures bc.trace == old(bc.trace) + [Write(s, data)]
      ensures forall i :: 0 <= i < NBUF && i != b ==> bc.bufs[i] == old(bc.bufs[i])
    {
      bc.Store(b, data, false);
      var r := bc.Bwrite(b);
    }

    method Drop(b: nat, ghost s: nat)
      requires bc.Valid() && Holding(b, s) && (bc.bufs[b].dirty || bc.bufs[b].data == bc.disk[s])
      modifies bc`bufs, bc`next, bc`prev, bc`order
      ensures bc.Valid() && bc.Seen() == old(bc.Seen())
      ensures bc.Held() == old(bc.Held()) - {s} && bc.Marked() == old(bc.Marked())
      ensures forall i :: 0 <= i < NBUF && i != b ==> bc.bufs[i] == old(bc.bufs[i])
    {
      var r := bc.Brelse(b);
    }

    /** read_head: the in-memory header becomes the one on disk. */
    method ReadHead() returns (r: Outcome)
      requires bc.Valid() && WellFormed(g, bc.disk) && |sector| == LOGSIZE
      requires g.start !in bc.Held() && g.start !in bc.Marked()
      modifies this`n, this`sector, bc
      ensures bc.disk == old(bc.disk) && bc.trace == old(bc.trace) && |sector| == LOGSIZE
      ensures (r.Panic? <==> old(bc.Full())) && (r.Panic? ==> r.why == OutOfBuffers)
      ensures r.Done? ==>
                && bc.Valid() && bc.Seen() == old(bc.Seen())
                && bc.Held() == old(bc.Held()) && bc.Marked() == old(bc.Marked())
                && n == HeadN(bc.disk[g.start]) && Recorded() == HeadSectors(bc.disk[g.start])
    {
      hide View, HeldSectors, DirtySectors, Inv, Ring, Settled;
      var b;
      r, b := Acquire(g.start);
      if r.Panic? { return; }
      n, sector := DecodeHead(bc.bufs[b].data, sector);
      Drop(b, g.start);
    }

    /** write_head: the sector write that commits a transaction, or erases it when n is 0. */
    method WriteHead() returns (r: Outcome)
      requires bc.Valid() && g.Fits(bc.disk) && n <= |sector| == LOGSIZE
      requires g.start !in bc.Held() && g.start !in bc.Marked()
      modifies bc
      ensures (r.Panic? <==> old(bc.Full())) && (r.Panic? ==> r.why == OutOfBuffers)
      ensures r.Done? ==>
                var h := PutHead(old(bc.disk)[g.start], Recorded());
                && bc.Valid() && bc.disk == old(bc.disk)[g.start := h] && bc.Seen() == old(bc.Seen())[g.start := h]
                && bc.Held() == old(bc.Held()) && bc.Marked() == old(bc.Marked())
                && bc.trace == old(bc.trace) + [Write(g.start, h)] && HeadBytes(h, Recorded())
      ensures r.Panic? ==> bc.disk == old(bc.disk) && bc.trace == old(bc.trace)
    {
      hide View, HeldSectors, DirtySectors, Inv, Ring, Settled, HeadBytes;
      var b;
      r, b := Acquire(g.start);
      if r.Panic? { return; }
      HeadInBytes(bc.bufs[b].data, Recorded());
      var data := EncodeHead(bc.bufs[b].data, n, sector);
      Save(b, g.start, data);
      Drop(b, g.start);
    }

    /** Nobody holds a recorded sector; the log's own sectors are not held either. */
    ghost predicate Unheld()
      requires n <= |sector|
      reads this, bc
    {
      NoneHeld(g, Recorded(), bc.Held())
    }

    /** install_trans: copy each logged block to its home sector. It runs out of buffers exactly if it cannot get
        the first one (after log_write, when the home blocks are pinned) or the first two (in recovery). */
    method InstallTrans() returns (r: Outcome)
      requires bc.Valid() && g.Fits(bc.disk) && |sector| == LOGSIZE && n <= g.Capacity()
      requires Unheld() && HomeMarks(g, bc.Marked(), bc.disk) && HomeSecs(g, Recorded(), bc.disk)
      modifies bc
      ensures AllMarked(old(bc.Marked()), Recorded()) ==> (r.Panic? <==> n > 0 && old(bc.Full()))
      ensures old(bc.Marked()) == {} ==> (r.Panic? <==> n > 0 && |old(bc.Held())| + 1 >= NBUF)
      ensures r.Panic? ==> r.why == OutOfBuffers
      ensures r.Done? ==>
                && bc.Valid() && bc.Held() == old(bc.Held())
                && bc.disk == Apply(old(bc.disk), InstallTrace(g, old(bc.disk), Recorded()))
                && bc.trace == old(bc.trace) + InstallTrace(g, old(bc.disk), Recorded())
                && MarkedBut(old(bc.Marked()), bc.Marked(), Recorded())
                && SeenBut(old(bc.Seen()), bc.Seen(), Recorded())
      ensures r.Panic? ==> old(bc.trace) <= bc.trace <= old(bc.trace) + InstallTrace(g, old(bc.disk), Recorded())
    {
      hide bc.Valid, bc.Value, bc.Seen, bc.Held, bc.Marked, After, InstallTrace, NoneHeld, Short;
      hide SeenBut, MarkedBut;
      ghost var d, t, secs, marked, seen := bc.disk, bc.trace, Recorded(), bc.Marked(), bc.Seen();
      ghost var ws := InstallTrace(g, d, secs);
      ghost var held, full := bc.Held(), bc.Full();
      ghost var pinned := AllMarked(marked, secs);
      InstallStep(g, d, secs, 0);
      NothingInstalled(seen, marked, secs);
      var tail := 0;
      while tail < n
        invariant 0 <= tail <= n && bc.Valid() && bc.Held() == held
        invariant |bc.disk| == |d| && bc.disk == After(d, ws, tail)
        invariant bc.trace == t + ws[..tail]
        invariant MarkedBut(marked, bc.Marked(), secs[..tail]) && SeenBut(seen, bc.Seen(), secs[..tail])
        invariant pinned && tail > 0 ==> !full
        invariant marked == {} && tail > 0 ==> |held| + 1 < NBUF
      {
        InstallStep(g, d, secs, tail);
        OneInstalled(g, seen, bc.Seen(), bc.Held(), marked, bc.Marked(), secs, tail, bc.disk[g.start + 1 + tail]);
        assert g.start + 1 + tail !in bc.Marked() by { NotMarked(marked, bc.Marked(), secs[..tail]); }
        TracePrefix(t, ws, tail);
        r := InstallOne(tail);
        if r.Panic? { return; }
        assert ws[..tail + 1] == ws[..tail] + [ws[tail]];
        tail := tail + 1;
      }
      assert secs[..tail] == secs && ws[..tail] == ws;
      return Done;
    }

    method InstallOne(tail: nat) returns (r: Outcome)
      requires bc.Valid() && g.Fits(bc.disk) && |sector| == LOGSIZE && tail < n <= g.Capacity()
      requires Unheld() && g.start + 1 + tail !in bc.Marked()
      requires g.Home(sector[tail], bc.disk)
      modifies bc
      ensures r.Panic? <==> old(Short(bc.Held(), bc.Marked(), sector[tail]))
      ensures r.Panic? ==> r.why == OutOfBuffers
      ensures r.Done? ==>
                var data := old(bc.disk)[g.start + 1 + tail];
                && bc.Valid() && bc.Held() == old(bc.Held()) && bc.Marked() == old(bc.Marked()) - {sector[tail]}
                && bc.disk == old(bc.disk)[sector[tail] := data] && bc.Seen() == old(bc.Seen())[sector[tail] := data]
                && bc.trace == old(bc.trace) + [Write(sector[tail], data)]
      ensures r.Panic? ==> bc.disk == old(bc.disk) && bc.trace == old(bc.trace)
    {
      hide View, HeldSectors, DirtySectors, Inv, Ring, Settled;
      ghost var slot := g.start + 1 + tail;
      assert bc.Held() + {slot} + bc.Marked() == bc.Held() + bc.Marked() + {slot};
      var l;
      r, l := Acquire(g.start + 1 + tail);
      if r.Panic? { return; }
      r := CopyHome(l, g.start + 1 + tail, sector[tail]);
    }

    /** With the log block held: read the home block, overwrite it, write it, release both. */
    method CopyHome(l: nat, ghost slot: nat, s: nat) returns (r: Outcome)
      requires bc.Valid() && Holding(l, slot) && bc.bufs[l].data == bc.disk[slot]
      requires s < |bc.disk| && s !in bc.Held() && s != slot && slot in bc.Held()
      modifies bc
      ensures r.Panic? <==> old(s !in bc.Marked() && bc.Full())
      ensures r.Panic? ==> r.why == OutOfBuffers
      ensures r.Done? ==>
                && bc.Valid() && bc.Held() == old(bc.Held()) - {slot} && bc.Marked() == old(bc.Marked()) - {s}
                && bc.disk == old(bc.disk)[s := old(bc.disk)[slot]]
                && bc.Seen() == old(bc.Seen())[s := old(bc.disk)[slot]]
                && bc.trace == old(bc.trace) + [Write(s, old(bc.disk)[slot])]
      ensures r.Panic? ==> bc.disk == old(bc.disk) && bc.trace == old(bc.trace)
    {
      hide View, HeldSectors, DirtySectors, Inv, Ring, Settled;
      var d;
      r, d := Acquire(s);
      if r.Panic? { return; }
      Save(d, s, bc.bufs[l].data);
      Drop(l, slot);
      Drop(d, s);
    }

    /** How commit_trans and recover_from_log both end: install, then erase the header on disk. */
    method Finish() returns (r: Outcome)
      requires bc.Valid() && g.Fits(bc.disk) && |sector| == LOGSIZE && n <= g.Capacity()
      requires Unheld() && HomeMarks(g, bc.Marked(), bc.disk) && HomeSecs(g, Recorded(), bc.disk)
      modifies this`n, bc
      ensures old(n) > 0 && old(AllMarked(bc.Marked(), Recorded())) ==> (r.Panic? <==> old(bc.Full()))
      ensures old(bc.Marked()) == {} ==> (r.Panic? <==> old(|bc.Held()| >= NBUF || (n > 0 && |bc.Held()| + 1 >= NBUF)))
      ensures r.Panic? ==> r.why == OutOfBuffers
      ensures r.Done? ==>
                var secs, h := old(Recorded()), PutHead(old(bc.disk)[g.start], []);
                && bc.Valid() && n == 0 && bc.Held() == old(bc.Held())
                && bc.disk == Apply(old(bc.disk), InstallTrace(g, old(bc.disk), secs))[g.start := h]
                && bc.trace == old(bc.trace) + InstallTrace(g, old(bc.disk), secs) + [Write(g.start, h)]
                && MarkedBut(old(bc.Marked()), bc.Marked(), secs)
                && SeenBut(old(bc.Seen()), bc.Seen(), secs + [g.start])
      ensures r.Panic? ==> old(bc.trace) <= bc.trace <= old(bc.trace) + InstallTrace(g, old(bc.disk), old(Recorded()))
    {
      hide View, HeldSectors, DirtySectors, Inv, Ring, Settled, After, InstallTrace, PutHead, SeenBut, MarkedBut;
      ghost var d, marked, secs, seen := bc.disk, bc.Marked(), Recorded(), bc.Seen();
      r := InstallTrans();
      if r.Panic? { return; }
      HeaderNotInstalled(g, d, secs);
      Installed(bc.Held(), marked, bc.Marked(), secs);
      SeenThrough(seen, bc.Seen(), secs, g.start, PutHead(d[g.start], []));
      n := 0;
      r := WriteHead();
    }

    /** recover_from_log, as initlog runs it on an idle cache: it always finishes. */
    method RecoverFromLog() returns (r: Outcome)
      requires bc.Valid() && WellFormed(g, bc.disk) && |sector| == LOGSIZE && !busy
      requires bc.Held() == {} && bc.Marked() == {}
      modifies this, bc
      ensures r.Done?
      ensures Valid() && !busy && tx == [] && bc.Held() == {} && base == bc.disk
      ensures bc.disk == Recover(g, old(bc.disk))
      ensures bc.trace == old(bc.trace) + RecoverTrace(g, old(bc.disk))
    {
      hide View, HeldSectors, DirtySectors, Inv, Ring, Settled, After, SeenBut;
      ghost var d := bc.disk;
      r := ReadHead();
      r := Finish();
      assert bc.Marked() == {};
      RecoverHeader(g, d);
      ApplySnoc(d, InstallTrace(g, d, HeadSectors(d[g.start])), Write(g.start, PutHead(d[g.start], [])));
      FreshTransaction(g, bc.disk, bc.Seen(), bc.Held());
      tx, base := [], bc.disk;
    }

    /** begin_trans: true once the log is ours; while another transaction is open the caller sleeps. */
    method BeginTrans() returns (entered: bool)
      requires Valid()
      modifies this`busy
      ensures Valid() && busy && (entered <==> !old(busy))
    {
      if busy { return false; }
      busy := true;
      return true;
    }

    /** Replace a log slot: bread, memmove, bwrite, brelse. */
    method ReplaceSlot(slot: nat, data: Block) returns (r: Outcome)
      requires bc.Valid() && slot < |bc.disk| && slot !in bc.Held()
      modifies bc
      ensures r.Panic? <==> old(slot !in bc.Marked() && bc.Full())
      ensures r.Panic? ==> r.why == OutOfBuffers
      ensures r.Done? ==>
                && bc.Valid()
                && bc.disk == old(bc.disk)[slot := data] && bc.Seen() == old(bc.Seen())[slot := data]
                && bc.Held() == old(bc.Held()) && bc.Marked() == old(bc.Marked()) - {slot}
                && bc.trace == old(bc.trace) + [Write(slot, data)]
                && forall i :: 0 <= i < NBUF && old(bc.bufs[i].busy) ==> bc.bufs[i] == old(bc.bufs[i])
      ensures r.Panic? ==> bc.disk == old(bc.disk) && bc.trace == old(bc.trace)
    {
      hide View, HeldSectors, DirtySectors, Ring, Find, Victim;
      var h := bc.Bread(ROOTDEV, slot);
      if h.ReadPanic? { return Panic(h.why); }
      bc.Store(h.b, data, false);
      r := bc.Bwrite(h.b);
      r := bc.Brelse(h.b);
    }

    /** Log the held buffer b in a slot and mark it dirty. */
    method AppendSlot(slot: nat, b: nat, ghost s: nat) returns (r: Outcome)
      requires bc.Valid() && slot < |bc.disk| && slot !in bc.Held() && Holding(b, s)
      modifies bc
      ensures r.Panic? <==> old(slot !in bc.Marked() && bc.Full())
      ensures r.Panic? ==> r.why == OutOfBuffers
      ensures r.Done? ==>
                var data := old(bc.bufs[b].data);
                && bc.Valid() && Holding(b, s)
                && bc.disk == old(bc.disk)[slot := data] && bc.Seen() == old(bc.Seen())[slot := data]
                && bc.Held() == old(bc.Held()) && bc.Marked() == (old(bc.Marked()) - {slot}) + {s}
                && bc.trace == old(bc.trace) + [Write(slot, data)]
      ensures r.Panic? ==> bc.trace == old(bc.trace)
    {
      HoldingSees(b, s);
      r := ReplaceSlot(slot, bc.bufs[b].data);
      if r.Panic? { return; }
      bc.Store(b, bc.bufs[b].data, true);
    }

    /** log_write's search loop: the slot of a sector already recorded, or the next one. */
    method FindSlot(s: nat) returns (i: nat)
      requires n <= |sector|
      ensures i == Slot(Recorded(), s)
    {
      i := 0;
      while i < n
        invariant 0 <= i <= n
        invariant s !in sector[..i]
      {
        if sector[i] == s { break; }
        i := i + 1;
      }
      SlotIs(Recorded(), s, i);
    }

    /** log_write of a held buffer. */
    method LogWrite(b: nat, ghost s: nat) returns (r: Outcome)
      requires Valid() && Holding(b, s) && g.Home(s, bc.disk) && LogSectorsFree()
      modifies this, bc
      ensures r == old(if n >= 10 || n >= g.size - 1 then Panic(TransactionTooBig)
                       else if !busy then Panic(OutsideTransaction)
                       else if bc.Full() then Panic(OutOfBuffers) else Done)
      ensures r.Done? ==>
                && Valid() && busy && tx == old(tx) + [Write(s, old(bc.bufs[b].data))] && base == old(base)
                && bc.trace == old(bc.trace) + [Write(g.start + 1 + Slot(old(Recorded()), s), old(bc.bufs[b].data))]
                && Holding(b, s) && bc.Held() == old(bc.Held())
                && SameHome(g, bc.Seen(), old(bc.Seen()))
      ensures r.Panic? ==> bc.trace == old(bc.trace)
    {
      hide Consistent, Current, SameHome, LogSectorsFree, Record, Slot;
      hide bc.Valid, bc.Value, bc.Seen, bc.Held, bc.Marked, bc.Full;
      if n >= LOGSIZE || n >= g.size - 1 { return Panic(TransactionTooBig); }
      if !busy { return Panic(OutsideTransaction); }
      var i := FindSlot(bc.bufs[b].sector);
      CallKeeps(b, s);
      ghost var w, secs := Write(s, bc.bufs[b].data), Recorded();
      sector := sector[i := bc.bufs[b].sector];
      r := AppendSlot(g.start + i + 1, b, s);
      if r.Panic? { return; }
      RecordAt(secs, sector, n, s);
      if i == n { n := n + 1; }
      tx := tx + [w];
    }

    /** What one more call leaves: the slot it writes, and the transaction with it. */
    lemma CallKeeps(b: nat, s: nat)
      requires Valid() && Holding(b, s) && g.Home(s, bc.disk) && LogSectorsFree() && n < g.Capacity()
      ensures var w, slot := Write(s, bc.bufs[b].data), g.start + 1 + Slot(Recorded(), s);
              && slot < |bc.disk| && slot !in bc.Held() && slot !in bc.Marked() && Slot(Recorded(), s) <= n
              && Consistent(g, base, tx + [w], bc.disk[slot := w.data], Record(Recorded(), s),
                            (bc.Marked() - {slot}) + {s})
              && Current(base, tx + [w], Record(Recorded(), s), bc.Seen()[slot := w.data], bc.Held())
              && SameHome(g, bc.Seen()[slot := w.data], bc.Seen())
    {
      hide Sectors, LogTrace, Apply, View, HeldSectors, DirtySectors, Inv, Ring, Settled;
      var w, slot := Write(s, bc.bufs[b].data), g.start + 1 + Slot(Recorded(), s);
      HoldingSees(b, s);
      SlotNotMarked(g, base, tx, bc.disk, Recorded(), bc.Marked(), slot);
      ConsistentCall(g, base, tx, bc.disk, Recorded(), bc.Marked(), w);
      CurrentCall(g, base, tx, Recorded(), bc.Seen(), bc.Held(), w, slot);
    }

    /** With fewer than NBUF buffers held or logged in all there is one to take, for commit_trans as well. */
    lemma RoomLeft()
      requires Valid() && |bc.Held()| + n < NBUF
      ensures !bc.Full()
    {
      hide HeldSectors, DirtySectors, View, LogTrace, Sectors, Inv, Ring, Settled, Apply, Current;
      ElemsSize(Recorded());
      assert bc.Marked() == Elems(Recorded());
      assert |bc.Held() + bc.Marked()| <= |bc.Held()| + |bc.Marked()|;
    }

    /** Logged blocks stay in the cache, so a call that finds a buffer leaves fewer than NBUF of them. */
    lemma CacheBoundsLog(b: nat, s: nat)
      requires Valid() && Holding(b, s) && !bc.Full()
      ensures |Record(Recorded(), s)| < NBUF
    {
      hide HeldSectors, DirtySectors, View, LogTrace, Inv, Ring, Settled, Apply, Current, Record;
      HoldingSees(b, s);
      SectorsExact(g, base, tx, |tx|);
      RecordCount(Recorded(), s, bc.Held() + bc.Marked());
    }

    lemma HoldingSees(b: nat, s: nat)
      requires bc.Valid() && Holding(b, s)
      ensures bc.Seen()[s] == bc.bufs[b].data && s in bc.Held()
    {
      ContentOf(bc.Value(), s, b);
    }

    /** The disk part of commit_trans: the header write, the installs, the erasing header write. */
    method CommitWrites() returns (r: Outcome)
      requires bc.Valid() && g.Fits(bc.disk)
      requires 0 < n <= g.Capacity() && |sector| == LOGSIZE && Unheld()
      requires HomeSecs(g, Recorded(), bc.disk) && MarksAre(bc.Marked(), Recorded())
      modifies this`n, bc
      ensures (r.Panic? <==> old(bc.Full())) && (r.Panic? ==> r.why == OutOfBuffers)
      ensures r.Done? ==>
                && bc.Valid() && n == 0 && bc.Held() == old(bc.Held()) && bc.Marked() == {}
                && bc.disk == Apply(old(bc.disk), CommitTrace(g, old(bc.disk), old(Recorded())))
                && bc.trace == old(bc.trace) + CommitTrace(g, old(bc.disk), old(Recorded()))
                && SeenBut(old(bc.Seen()), bc.Seen(), old(Recorded()) + [g.start])
      ensures r.Panic? ==> old(bc.trace) <= bc.trace <= old(bc.trace) + CommitTrace(g, old(bc.disk), old(Recorded()))
    {
      hide Apply, bc.Valid, bc.Value, bc.Seen, bc.Held, bc.Marked, NoneHeld, InstallTrace, CommitTrace, PutHead;
      hide SeenBut, MarkedBut, HomeSecs, HomeMarks, AllMarked, MarksAre;
      ghost var secs, d, seen, marked := Recorded(), bc.disk, bc.Seen(), bc.Marked();
      CommitParts(g, d, secs);
      HomeAgain(g, secs, marked, d);
      HeaderUnheld(g, secs, bc.Held());
      r := WriteHead();
      if r.Panic? { return; }
      ghost var h := bc.disk[g.start];
      InstallReadsSlots(g, bc.disk, d, secs);
      r := Finish();
      if r.Panic? { return; }
      Installed(bc.Held(), marked, bc.Marked(), secs);
      SeenAround(seen, h, bc.Seen(), secs, g.start);
    }

    /** commit_trans; others may hold buffers, of sectors that are not recorded. */
    method CommitTrans() returns (r: Outcome)
      requires Valid() && busy && Unheld()
      modifies this, bc
      ensures (r.Panic? <==> old(n > 0 && bc.Full())) && (r.Panic? ==> r.why == OutOfBuffers)
      ensures r.Done? ==>
                && Valid() && !busy && tx == [] && base == bc.disk && bc.Held() == old(bc.Held()) && bc.Marked() == {}
                && bc.trace == old(bc.trace) + CommitTrace(g, old(bc.disk), old(Recorded()))
                && SameHome(g, bc.disk, Apply(old(base), old(tx)))
                && SameHome(g, bc.Seen(), old(bc.Seen()))
                && forall s :: 0 <= s < |bc.disk| && s !in bc.Held() ==> bc.Seen()[s] == bc.disk[s]
      ensures r.Panic? ==> old(bc.trace) <= bc.trace <= old(bc.trace) + CommitTrace(g, old(bc.disk), old(Recorded()))
    {
      hide Consistent, Current, View, HeldSectors, DirtySectors, Inv, Ring, Settled, Clean, SeenBut, NoneHeld, SameHome;
      ghost var c, secs, d := bc.Value(), Recorded(), bc.disk;
      CommitReady(g, base, tx, d, secs, bc.Marked());
      if n > 0 {
        r := CommitWrites();
        if r.Panic? { return; }
      }
      SeenAfterCommit(g, base, tx, c, bc.Value(), secs);
      FreshTransaction(g, bc.disk, bc.Seen(), bc.Held());
      busy, tx, base := false, [], bc.disk;
      r := Done;
    }
  }

  /** What commit_trans starts from, and where its writes will leave the disk. */
  lemma CommitReady(g: Geometry, base: Disk, tx: Tx, disk: Disk, secs: seq<nat>, marked: set<nat>)
    requires Consistent(g, base, tx, disk, secs, marked)
    ensures g.Fits(disk) && |secs| <= g.Capacity() && |base| == |disk| && HomeTx(g, base, tx)
    ensures HomeSecs(g, secs, disk) && MarksAre(marked, secs)
    ensures var e := Apply(disk, CommitTrace(g, disk, secs));
            |e| == |disk| && Clean(g, e) && SameHome(g, e, Apply(base, tx))
    ensures secs == [] ==> CommitTrace(g, disk, secs) == [] && Apply(disk, []) == disk && marked == {}
  {
    SectorsExact(g, base, tx, |tx|);
    CommitDone(g, base, tx, disk, secs, marked);
    assert secs == [] ==> marked == {};
  }

  /** The contents are the same except at the listed sectors. */
  ghost predicate SeenBut(before: Disk, after: Disk, secs: seq<nat>) {
    |after| == |before| && forall s :: 0 <= s < |before| && s !in secs ==> after[s] == before[s]
  }

  /** The sectors of `before` but those listed. */
  ghost predicate MarkedBut(before: set<nat>, after: set<nat>, secs: seq<nat>) {
    forall s :: s in after <==> s in before && s !in secs
  }

  /** No buffer for a log block and, if it is not in the cache, the home block s. */
  ghost predicate Short(held: set<nat>, marked: set<nat>, s: nat) {
    |held + marked| >= NBUF || (s !in marked && |held + marked| + 1 >= NBUF)
  }

  lemma NothingInstalled(seen: Disk, marked: set<nat>, secs: seq<nat>)
    ensures MarkedBut(marked, marked, secs[..0]) && SeenBut(seen, seen, secs[..0])
  {
  }

  lemma NotMarked(before: set<nat>, after: set<nat>, secs: seq<nat>)
    requires MarkedBut(before, after, secs)
    ensures after <= before
  {
  }

  /** While installing, the pinned sectors only become fewer. */
  lemma OneInstalled(g: Geometry, before: Disk, seen: Disk, held: set<nat>, marked: set<nat>, now: set<nat>,
                     secs: seq<nat>, tail: nat, data: Block)
    requires tail < |secs| && NoneHeld(g, secs, held) && secs[tail] < |seen|
    requires MarkedBut(marked, now, secs[..tail]) && SeenBut(before, seen, secs[..tail])
    ensures MarkedBut(marked, now - {secs[tail]}, secs[..tail + 1])
    ensures SeenBut(before, seen[secs[tail] := data], secs[..tail + 1])
    ensures tail == 0 && |held + marked| >= NBUF ==> Short(held, now, secs[tail])
    ensures secs[tail] in marked && Short(held, now, secs[tail]) ==> |held + marked| >= NBUF
    ensures marked == {} ==> (Short(held, now, secs[tail]) <==> |held| + 1 >= NBUF)
  {
    assert secs[..tail + 1] == secs[..tail] + [secs[tail]];
    assert held + now <= held + marked;
    Fewer(held + now, held + marked);
    if secs[tail] in marked && secs[tail] !in now {
      assert held + now <= held + marked - {secs[tail]};
      Fewer(held + now, held + marked - {secs[tail]});
    }
    assert tail == 0 ==> now == marked;
    assert marked == {} ==> held + now == held;
  }

  lemma {:induction false} Fewer(a: set<nat>, b: set<nat>)
    requires a <= b
    ensures |a| <= |b|
  {
    if a != {} {
      var x :| x in a;
      Fewer(a - {x}, b - {x});
    }
  }

  lemma Installed(held: set<nat>, marked: set<nat>, now: set<nat>, secs: seq<nat>)
    requires MarkedBut(marked, now, secs)
    ensures now <= marked && |held + now| <= |held + marked| && (marked == {} ==> now == {} && held + now == held)
    ensures MarksAre(marked, secs) ==> now == {}
  {
    Fewer(held + now, held + marked);
    assert marked == {} ==> now == {} && held + now == held;
  }

  lemma SeenThrough(a: Disk, b: Disk, secs: seq<nat>, start: nat, data: Block)
    requires start < |a| && SeenBut(a, b, secs)
    ensures SeenBut(a, b[start := data], secs + [start])
  {
  }

  lemma SeenAround(a: Disk, data: Block, b: Disk, secs: seq<nat>, start: nat)
    requires start < |a| && SeenBut(a[start := data], b, secs + [start])
    ensures SeenBut(a, b, secs + [start])
  {
  }

  lemma RecordCount(secs: seq<nat>, s: nat, P: set<nat>)
    requires Distinct(secs) && s in P && forall i :: 0 <= i < |secs| ==> secs[i] in P
    ensures |Record(secs, s)| <= |P|
  {
    var r := Record(secs, s);
    DistinctCount(r, P, |r|);
  }

  lemma TracePrefix(t: seq<Write>, ws: seq<Write>, k: nat)
    requires k <= |ws|
    ensures t <= t + ws[..k] <= t + ws
  {
  }

  lemma RecordAt(secs: seq<nat>, sector: seq<nat>, n: nat, s: nat)
    requires n == |secs| < |sector| && Slot(secs, s) <= n && sector[Slot(secs, s)] == s
    requires forall i :: 0 <= i < n && i != Slot(secs, s) ==> sector[i] == secs[i]
    ensures Record(secs, s) == if Slot(secs, s) == n then sector[..n + 1] else sector[..n]
  {
  }

  lemma SlotNotMarked(g: Geometry, base: Disk, tx: Tx, disk: Disk, secs: seq<nat>, marked: set<nat>, slot: nat)
    requires Consistent(g, base, tx, disk, secs, marked) && g.start <= slot < g.start + g.size
    ensures slot !in marked
  {
    SectorsExact(g, base, tx, |tx|);
    hide LogTrace, After;
  }

  /** After the commit: unheld sectors read as the disk, and no home sector reads differently than before. */
  lemma SeenAfterCommit(g: Geometry, base: Disk, tx: Tx, c: Cache, e: Cache, secs: seq<nat>)
    requires Inv(c) && Inv(e) && Consistent(g, base, tx, c.disk, secs, DirtySectors(c))
    requires Current(base, tx, secs, View(c), HeldSectors(c))
    requires HeldSectors(e) == HeldSectors(c) && DirtySectors(e) == {} && |e.disk| == |c.disk|
    requires SameHome(g, e.disk, Apply(base, tx))
    requires NoneHeld(g, secs, HeldSectors(c))
    requires if secs == [] then View(e) == View(c) else SeenBut(View(c), View(e), secs + [g.start])
    ensures forall s :: 0 <= s < |e.disk| && s !in HeldSectors(e) ==> View(e)[s] == e.disk[s]
    ensures SameHome(g, View(e), View(c))
  {
    hide LogTrace, View, Apply;
    forall s: nat | s < |e.disk| && s !in HeldSectors(e) ensures View(e)[s] == e.disk[s] {
      IdleMatchesDisk(e, s);
    }
    forall s: nat | s < |e.disk| && g.Home(s, View(e)) ensures View(e)[s] == View(c)[s] {
      if s !in HeldSectors(c) {
        SeenIsCurrent(g, base, tx, c, secs, s);
        assert g.Home(s, e.disk);
      }
    }
  }

  lemma InstallReadsSlots(g: Geometry, c: Disk, d: Disk, secs: seq<nat>)
    requires g.start + |secs| < |c| == |d|
    requires forall s :: g.start < s < |d| ==> c[s] == d[s]
    ensures InstallTrace(g, c, secs) == InstallTrace(g, d, secs)
  {
    forall i | 0 <= i < |secs| ensures InstallTrace(g, c, secs)[i] == InstallTrace(g, d, secs)[i] {
      assert c[g.start + 1 + i] == d[g.start + 1 + i];
    }
  }

  lemma HeaderNotInstalled(g: Geometry, d: Disk, secs: seq<nat>)
    requires g.Fits(d) && |secs| <= g.Capacity()
    requires HomeSecs(g, secs, d)
    ensures Apply(d, InstallTrace(g, d, secs))[g.start] == d[g.start]
  {
    var ws := InstallTrace(g, d, secs);
    AfterFrame(d, ws, |ws|, g.start);
  }

  /** The three parts of commit_trans's writes, and where they leave the disk. */
  lemma CommitParts(g: Geometry, d: Disk, secs: seq<nat>)
    requires g.Fits(d) && 0 < |secs| <= g.Capacity()
    requires HomeSecs(g, secs, d)
    ensures var h := PutHead(d[g.start], secs);
            var c, ws, e := d[g.start := h], InstallTrace(g, d, secs), PutHead(h, []);
            && CommitTrace(g, d, secs) == [Write(g.start, h)] + ws + [Write(g.start, e)]
            && Apply(d, CommitTrace(g, d, secs)) == Apply(c, ws)[g.start := e]
  {
    var h := PutHead(d[g.start], secs);
    var c, ws := d[g.start := h], InstallTrace(g, d, secs);
    AfterConcat(d, [Write(g.start, h)], ws, |ws|);
    ApplySnoc(d, [], Write(g.start, h));
    assert [] + [Write(g.start, h)] == [Write(g.start, h)];
    ApplySnoc(d, [Write(g.start, h)] + ws, Write(g.start, PutHead(h, [])));
  }

  lemma {:induction false} SlotIs(secs: seq<nat>, s: nat, i: nat)
    requires i <= |secs| && s !in secs[..i] && (i < |secs| ==> secs[i] == s)
    ensures Slot(secs, s) == i
  {
    assert forall k :: 0 <= k < i ==> secs[k] == secs[..i][k];
    if i < |secs| { SlotFirst(secs, s, i); }
  }

  lemma {:induction false} SlotFirst(secs: seq<nat>, s: nat, i: nat)
    requires i < |secs| && secs[i] == s
    ensures Slot(secs, s) <= i
  {
    if secs[0] != s { SlotFirst(secs[1..], s, i - 1); }
  }

  /** read_head's loop over the header block. */
  method DecodeHead(b: Block, old_sector: seq<nat>) returns (n: nat, sector: seq<nat>)
    requires HeadN(b) <= LOGSIZE == |old_sector|
    ensures n == HeadN(b) && |sector| == LOGSIZE && sector[..n] == HeadSectors(b)
  {
    n, sector := GetWord(b, 0), old_sector;
    var i := 0;
    while i < n
      invariant 0 <= i <= n <= LOGSIZE == |sector|
      invariant forall j :: 0 <= j < i ==> sector[j] == GetWord(b, 1 + j)
    {
      sector := sector[i := GetWord(b, 1 + i)];
      i := i + 1;
    }
  }

  /** write_head's loop over the header block. */
  method EncodeHead(b: Block, n: nat, sector: seq<nat>) returns (r: Block)
    requires n <= |sector| == LOGSIZE
    ensures r == PutHead(b, sector[..n])
  {
    r := PutWord(b, 0, n);
    var i := 0;
    while i < n
      invariant 0 <= i <= n
      invariant PutSectors(r, sector[..n], i) == PutHead(b, sector[..n])
    {
      r := PutWord(r, 1 + i, sector[i] % WORD_LIMIT);
      i := i + 1;
    }
  }

  /** One step of installing: slot k, still as it was logged, goes to its home sector. */
  lemma InstallStep(g: Geometry, d: Disk, secs: seq<nat>, k: nat)
    requires g.Fits(d) && k <= |secs| <= g.Capacity()
    requires HomeSecs(g, secs, d)
    ensures var ws := InstallTrace(g, d, secs);
            && After(d, ws, 0) == d
            && (k < |secs| ==>
                  && secs[k] < |d|
                  && After(d, ws, k)[g.start + 1 + k] == d[g.start + 1 + k]
                  && ws[k] == Write(secs[k], d[g.start + 1 + k])
                  && After(d, ws, k + 1) == After(d, ws, k)[secs[k] := d[g.start + 1 + k]])
  {
    if k < |secs| {
      AfterFrame(d, InstallTrace(g, d, secs), k, g.start + 1 + k);
    }
  }
}
