/** The bread, log_write and commit_trans that the file system is modelled on are those of log.c over bio.c. */
module FsOverLog {
  import opened Words
  import opened LogSpec
  import opened LogCrash
  import opened CacheSpec
  import opened CacheRuns
  import opened BufferCache
  import opened Log
  import opened FsLayout
  import opened FsState
  import opened FsMap
  import opened FileSystem
  import opened Panics

  /** The open transaction of the file system is the one in the log, and outside the sectors being changed both
      see the same home blocks. */
  ghost predicate Joined(fs: FileSystem, log: Log, changing: set<nat>)
    reads fs, log, log.bc
  {
    && log.Valid() && log.busy && fs.Traced() && log.g == fs.sb.Log() && |fs.view| == |log.bc.disk|
    && fs.writes == log.tx && fs.logged == log.Recorded()
    && SameHome(log.g, log.base, fs.base) && SeenAs(log.g, log.bc.Seen(), fs.view, changing)
  }

  ghost predicate SeenAs(g: Geometry, seen: Disk, view: Disk, changing: set<nat>) {
    |seen| == |view| && forall t :: 0 <= t < |view| && g.Home(t, view) && t !in changing ==> seen[t] == view[t]
  }

  /** While the file system holds H, and other processes what the file system believes they hold. */
  ghost predicate Holders(fs: FileSystem, log: Log, H: set<nat>)
    reads fs, log, log.bc
  {
    log.bc.Held() == H + fs.others(fs.now)
  }

  /** The sectors pinned in the cache are those the file system counts. */
  lemma SamePinned(fs: FileSystem, log: Log, H: set<nat>, changing: set<nat>)
    requires Joined(fs, log, changing) && Holders(fs, log, H)
    ensures log.bc.Held() + log.bc.Marked() == fs.Pinned(H)
    ensures log.n == |fs.logged| && forall s :: s in log.bc.Marked() <==> s in fs.logged
  {
    hide HeldSectors, DirtySectors, View, LogTrace, Sectors, Inv, Ring, Settled, Transaction, SameHome, SeenAs;
  }

  /** Booting: recover the log, begin a transaction, and mount the file system on what the disk then holds. */
  method Boot(sb: Super, disk: Disk, ino: map<nat, Inode>, others: nat -> set<nat>, quota: nat)
    returns (fs: FileSystem, log: Log)
    requires sb.Ok() && |disk| == sb.size && WellFormed(sb.Log(), disk)
    requires (forall t: nat :: |others(t)| <= quota) && others(0) == {}
    ensures fresh(fs) && fresh(log) && fresh(log.bc)
    ensures Joined(fs, log, {}) && Holders(fs, log, {})
    ensures fs.sb == sb && fs.ino == ino && fs.view == Recover(sb.Log(), disk)
    ensures log.g.start == sb.size - sb.nlog && log.g.size == sb.nlog
  {
    LogPlace(sb);
    hide *;
    log := BootLog(disk, sb.Log());
    fs := new FileSystem(sb, log.bc.disk, ino, others, quota);
    JoinedAtBoot(fs, log);
  }

  lemma LogPlace(sb: Super)
    requires sb.Ok()
    ensures sb.Log().start == sb.size - sb.nlog && sb.Log().size == sb.nlog
  {
  }

  lemma JoinedAtBoot(fs: FileSystem, log: Log)
    requires log.Valid() && log.busy && log.tx == [] && log.base == log.bc.disk && log.bc.Held() == {}
    requires log.bc.Seen() == log.bc.disk && fs.Traced() && log.g == fs.sb.Log()
    requires fs.writes == [] && fs.base == fs.view == log.bc.disk && fs.others(fs.now) == {}
    ensures Joined(fs, log, {}) && Holders(fs, log, {})
  {
    hide SameHome, SeenAs, Consistent, Current, Transaction, HeldSectors, DirtySectors, View, Inv, Ring, Settled;
    SameSectors(fs, log);
    Alike(log.g, log.bc.disk);
    assert {} + fs.others(fs.now) == {};
  }

  method BootLog(disk: Disk, g: Geometry) returns (log: Log)
    requires WellFormed(g, disk)
    ensures fresh(log) && fresh(log.bc) && log.g == g
    ensures log.Valid() && log.busy && log.tx == [] && log.base == log.bc.disk == Recover(g, disk)
    ensures log.bc.Held() == {} && log.bc.Seen() == log.bc.disk
  {
    hide HeldSectors, DirtySectors, View, Inv, Ring, Settled, Recover, WellFormed, Consistent, Current;
    var bc := new BufferCache(disk);
    log := new Log(bc, g);
    var r := log.RecoverFromLog();
    SeenAfterRecovery(log);
    var _ := log.BeginTrans();
  }

  lemma Alike(g: Geometry, d: Disk)
    ensures SameHome(g, d, d) && SeenAs(g, d, d, {})
  {
  }

  lemma SeenAfterRecovery(log: Log)
    requires log.Valid() && log.tx == [] && log.bc.Held() == {}
    ensures log.bc.Seen() == log.bc.disk && log.bc.Marked() == {}
  {
    hide View, Inv, Ring, Settled, HeldSectors, DirtySectors;
    assert log.bc.Marked() == {};
    var c := log.bc.Value();
    forall s: nat | s < |c.disk| ensures View(c)[s] == c.disk[s] { IdleMatchesDisk(c, s); }
  }

  /** bread: the one is out of buffers exactly if the other is, and the buffer holds the block. */
  method Bread(fs: FileSystem, log: Log, s: nat, H: set<nat>, ghost changing: set<nat>)
    returns (r: Outcome, q: Outcome, b: nat)
    requires Joined(fs, log, changing) && Holders(fs, log, H)
    requires log.g.Home(s, fs.view) && s !in log.bc.Held()
    modifies fs`now, log.bc
    ensures r == q == if old(fs.NoBuffer(fs.now, H, s)) then Panic(OutOfBuffers) else Done
    ensures fs.now == old(fs.now) + 1
    ensures r.Done? ==> Joined(fs, log, changing) && log.bc.Held() == old(log.bc.Held()) + {s} && log.Holding(b, s)
    ensures r.Done? && s !in changing ==> log.bc.bufs[b].data == fs.view[s]
  {
    hide HeldSectors, DirtySectors, View, Inv, Ring, Settled, Transaction, Consistent, Current, SameHome, fs.PinnedAt;
    SamePinned(fs, log, H, changing);
    r := fs.Hold(s, H);
    q, b := Take(fs, log, s, changing);
    if q.Done? { log.HoldingSees(b, s); }
  }

  /** A buffer is taken, by us or by another process. */
  method Take(fs: FileSystem, log: Log, s: nat, ghost changing: set<nat>) returns (q: Outcome, b: nat)
    requires Joined(fs, log, changing) && s < |log.bc.disk| && s !in log.bc.Held()
    modifies log.bc
    ensures q == old(if s !in log.bc.Marked() && log.bc.Full() then Panic(OutOfBuffers) else Done)
    ensures q.Done? ==> Joined(fs, log, changing) && log.bc.Held() == old(log.bc.Held()) + {s} && log.Holding(b, s)
  {
    hide HeldSectors, DirtySectors, View, Inv, Ring, Settled, Transaction, Consistent, Current, SameHome, SeenAs;
    ghost var held := log.bc.Held();
    q, b := log.Acquire(s);
    if q.Done? { CurrentWith(log.base, log.tx, log.Recorded(), log.bc.Seen(), held, s); }
  }

  lemma CurrentWith(base: Disk, tx: Tx, secs: seq<nat>, seen: Disk, held: set<nat>, s: nat)
    requires Current(base, tx, secs, seen, held)
    ensures Current(base, tx, secs, seen, held + {s})
  {
  }

  /** The holder of a buffer stores new data in it. */
  method Change(fs: FileSystem, log: Log, b: nat, ghost s: nat, data: Block, ghost changing: set<nat>)
    requires Joined(fs, log, changing) && log.Holding(b, s)
    modifies log.bc
    ensures Joined(fs, log, changing + {s}) && log.Holding(b, s) && log.bc.bufs[b].data == data
    ensures log.bc.Held() == old(log.bc.Held())
  {
    hide HeldSectors, DirtySectors, View, Inv, Ring, Settled, Transaction, Consistent, Apply, SameHome;
    log.HoldingSees(b, s);
    log.bc.Store(b, data, false);
  }

  /** log_write of a held buffer: the same panic or none, and afterwards both see the new block. */
  method LogWrite(fs: FileSystem, log: Log, b: nat, s: nat, H: set<nat>, ghost changing: set<nat>)
    returns (r: Outcome, q: Outcome)
    requires Joined(fs, log, changing) && Holders(fs, log, H) && s in H
    requires log.g.Home(s, fs.view) && log.Holding(b, s) && log.LogSectorsFree()
    modifies fs`view, fs`logged, fs`writes, fs`now, log, log.bc
    ensures r == q
    ensures r == old(if fs.TooBig() then Panic(TransactionTooBig)
                     else if |fs.Pinned(H)| >= NBUF then Panic(OutOfBuffers) else Done)
    ensures r.Done? ==>
              && Joined(fs, log, changing - {s}) && log.bc.Held() == old(log.bc.Held()) && log.Holding(b, s)
              && fs.view == old(fs.view)[s := old(log.bc.bufs[b].data)]
  {
    hide HeldSectors, DirtySectors, View, Inv, Ring, Settled, Transaction, Consistent, Current, fs.Pinned, LogUnheld;
    SamePinned(fs, log, H, changing);
    log.HoldingSees(b, s);
    var data := log.bc.bufs[b].data;
    r := fs.LogWrite(s, data, H);
    q := log.LogWrite(b, s);
    if q.Done? { SameSectors(fs, log); }
  }

  lemma SameSectors(fs: FileSystem, log: Log)
    requires log.Valid() && fs.Traced() && fs.writes == log.tx
    ensures fs.logged == log.Recorded()
  {
  }

  /** brelse by us or by another process: whoever releases has logged what it changed. */
  method Release(fs: FileSystem, log: Log, b: nat, ghost s: nat, ghost changing: set<nat>)
    requires Joined(fs, log, changing) && log.Holding(b, s) && log.g.Home(s, fs.view) && s !in changing
    modifies log.bc
    ensures Joined(fs, log, changing) && log.bc.Held() == old(log.bc.Held()) - {s}
  {
    hide HeldSectors, DirtySectors, View, Inv, Ring, Settled, Transaction, SameHome, SeenAs, Consistent, Current;
    ReleaseReady(fs, log, b, s, changing);
    log.Drop(b, s);
  }

  /** What the releaser's buffer holds: the block as the transaction will leave it. */
  lemma ReleaseReady(fs: FileSystem, log: Log, b: nat, s: nat, changing: set<nat>)
    requires Joined(fs, log, changing) && log.Holding(b, s) && log.g.Home(s, fs.view) && s !in changing
    ensures log.bc.bufs[b].dirty || log.bc.bufs[b].data == log.bc.disk[s]
    ensures Current(log.base, log.tx, log.Recorded(), log.bc.Seen(), log.bc.Held() - {s})
  {
    hide View, Inv, Ring, Settled, HeldSectors, DirtySectors;
    log.HoldingSees(b, s);
    SectorsExact(log.g, log.base, log.tx, |log.tx|);
    AfterSameHome(log.g, log.base, fs.base, log.tx, |log.tx|);
    if s !in log.Recorded() {
      LogPhaseFrame(log.g, log.base, log.tx, |log.tx|, s);
      AfterFrame(log.base, log.tx, |log.tx|, s);
    } else {
      MarkedBuffer(log.bc.Value(), b, s);
    }
  }

  lemma MarkedBuffer(c: Cache, b: nat, s: nat)
    requires Inv(c) && b < NBUF && c.bufs[b].Holds(ROOTDEV, s) && s in DirtySectors(c)
    ensures c.bufs[b].dirty
  {
  }

  /** iupdate on both: the same outcome, and the block each sees afterwards holds the current inode. The other
      processes keep their buffers meanwhile, and none of them holds the inode's block. */
  method Iupdate(fs: FileSystem, log: Log, i: nat) returns (r: Outcome, q: Outcome)
    requires Joined(fs, log, {}) && Holders(fs, log, {}) && fs.others(fs.now + 1) == fs.others(fs.now)
    requires fs.Valid() && i in fs.ino && log.LogSectorsFree() && fs.sb.InodeBlock(i) !in log.bc.Held()
    modifies fs`view, fs`logged, fs`writes, fs`now, log, log.bc
    ensures r == q
    ensures r == old(var s := fs.sb.InodeBlock(i);
                     if fs.NoBuffer(fs.now, {}, s) then Panic(OutOfBuffers)
                     else if fs.TooBig() then Panic(TransactionTooBig)
                     else if |fs.PinnedAt(fs.now + 1, {s})| >= NBUF then Panic(OutOfBuffers) else Done)
    ensures r.Done? ==> Joined(fs, log, {}) && log.bc.Held() == old(log.bc.Held())
    ensures r.Done? ==> Stored(old(fs.view), fs.view, fs.sb.InodeBlock(i), i, fs.ino[i])
  {
    hide *;
    var s := fs.sb.InodeBlock(i);
    UpdateReady(fs, log, i);
    ghost var held := log.bc.Held();
    var b;
    r, q, b := Bread(fs, log, s, {}, {});
    if r.Panic? { return; }
    var data := PutInode(fs.view[s], i, fs.ino[i]);
    StoredIs(fs.view, s, i, fs.ino[i]);
    Change(fs, log, b, s, data, {});
    UpdateHeld(fs, log, held, s);
    r, q := LogWrite(fs, log, b, s, {s}, {} + {s});
    if r.Panic? { return; }
    assert {} + {s} - {s} == {};
    StillHome(log.g, s, old(fs.view), fs.view);
    Release(fs, log, b, s, {});
    assert held + {s} - {s} == held;
  }

  /** Block s holds inode i as well; every other block is the same. */
  ghost predicate Stored(before: Disk, after: Disk, s: nat, i: nat, ip: Inode) {
    ip.Ok() && s < |before| && after == before[s := PutInode(before[s], i, ip)]
  }

  lemma StoredIs(view: Disk, s: nat, i: nat, ip: Inode)
    requires ip.Ok() && s < |view|
    ensures Stored(view, view[s := PutInode(view[s], i, ip)], s, i, ip)
  {
  }

  lemma StillHome(g: Geometry, s: nat, a: Disk, b: Disk)
    requires g.Home(s, a) && |a| == |b|
    ensures g.Home(s, b)
  {
  }

  lemma UpdateReady(fs: FileSystem, log: Log, i: nat)
    requires Joined(fs, log, {}) && Holders(fs, log, {}) && fs.Valid() && i in fs.ino && log.LogSectorsFree()
    ensures fs.sb.Ok() && log.g == fs.sb.Log() && log.g.Home(fs.sb.InodeBlock(i), fs.view)
    ensures fs.sb.InodeBlock(i) < |fs.view| && fs.ino[i].Ok()
    ensures log.bc.Held() == fs.others(fs.now) && LogUnheld(log.g, log.bc.Held())
  {
    hide Transaction, SameHome, SeenAs, RefsMarked, RefsUnique, Reserved, LogUnheld;
    InodeInside(fs.sb, i);
    assert {} + fs.others(fs.now) == fs.others(fs.now);
  }

  /** With the inode's block held as well. */
  lemma UpdateHeld(fs: FileSystem, log: Log, held: set<nat>, s: nat)
    requires LogUnheld(log.g, held) && log.g.Home(s, fs.view)
    requires log.bc.Held() == held + {s} && held == fs.others(fs.now)
    ensures Holders(fs, log, {s}) && log.LogSectorsFree() && fs.Pinned({s}) == fs.PinnedAt(fs.now, {s})
  {
    assert held + {s} == {s} + held;
  }

  /** commit_trans, while other processes hold no sector of the transaction: the same panic or none, and afterwards
      the disk holds what the file system sees. */
  method Commit(fs: FileSystem, log: Log) returns (r: Outcome, q: Outcome)
    requires Joined(fs, log, {}) && Holders(fs, log, {}) && log.Unheld()
    modifies fs`logged, fs`base, fs`writes, fs`now, log, log.bc
    ensures r == q
    ensures r.Done? ==>
              && log.Valid() && !log.busy && fs.Traced() && fs.writes == log.tx == [] && fs.logged == log.Recorded()
              && SeenAs(log.g, log.bc.Seen(), fs.view, {}) && SameHome(log.g, log.bc.disk, fs.view)
  {
    hide HeldSectors, DirtySectors, View, Inv, Ring, Settled, Transaction, Current, fs.Pinned, Consistent;
    hide SeenAs, SameHome;
    SamePinned(fs, log, {}, {});
    ghost var seen, goal := log.bc.Seen(), Apply(log.base, log.tx);
    CommitReady(log.g, log.base, log.tx, log.bc.disk, log.Recorded(), log.bc.Marked());
    assert fs.view == Apply(fs.base, fs.writes) by { TracedView(fs); }
    AfterSameHome(log.g, log.base, fs.base, log.tx, |log.tx|);
    r := fs.Commit();
    q := log.CommitTrans();
    if q.Done? {
      SameSectors(fs, log);
      SeenStill(log.g, log.bc.Seen(), seen, fs.view);
      SameOnward(log.g, log.bc.disk, goal, fs.view);
    }
  }

  lemma SeenStill(g: Geometry, a: Disk, b: Disk, view: Disk)
    requires SameHome(g, a, b) && SeenAs(g, b, view, {})
    ensures SeenAs(g, a, view, {})
  {
  }

  lemma SameOnward(g: Geometry, a: Disk, b: Disk, c: Disk)
    requires SameHome(g, a, b) && SameHome(g, b, c)
    ensures SameHome(g, a, c)
  {
  }

  lemma TracedView(fs: FileSystem)
    requires fs.Traced()
    ensures fs.view == Apply(fs.base, fs.writes)
  {
  }
}
