/** Crash safety of the redo log, for a crash after any sector write of any run. */
module LogCrash {
  import opened Lists
  import opened LogSpec

  /** Same content at every sector outside the log. */
  ghost predicate SameHome(g: Geometry, d: Disk, e: Disk) {
    && |d| == |e|
    && forall s :: 0 <= s < |d| && g.Home(s, d) ==> d[s] == e[s]
  }

  ghost predicate SameLog(g: Geometry, d: Disk, e: Disk) {
    && |d| == |e|
    && forall s :: g.start <= s < g.start + g.size && s < |d| ==> d[s] == e[s]
  }

  // ----- the log_write phase

  /** Absorption: the recorded sectors are distinct, home, and are exactly the sectors written. */
  lemma SectorsExact(g: Geometry, d: Disk, tx: Tx, k: nat)
    requires g.Fits(d) && HomeTx(g, d, tx) && k <= |tx|
    ensures Distinct(SectorsAfter(tx, k))
    ensures forall i :: 0 <= i < |SectorsAfter(tx, k)| ==> g.Home(SectorsAfter(tx, k)[i], d)
    ensures forall i :: 0 <= i < k ==> tx[i].sector in SectorsAfter(tx, k)
    ensures forall s :: s in SectorsAfter(tx, k) ==> exists i :: 0 <= i < k && tx[i].sector == s
    ensures |SectorsAfter(tx, k)| <= k && (k > 0 ==> |SectorsAfter(tx, k)| > 0)
  {
    hide SectorsAfter;
    SectorsListed(tx, k);
    var secs := SectorsAfter(tx, k);
    forall i | 0 <= i < |secs| ensures g.Home(secs[i], d) { assert secs[i] in secs; }
  }

  lemma {:induction false} SectorsListed(tx: Tx, k: nat)
    requires k <= |tx|
    ensures Distinct(SectorsAfter(tx, k))
    ensures forall i :: 0 <= i < k ==> tx[i].sector in SectorsAfter(tx, k)
    ensures forall s :: s in SectorsAfter(tx, k) ==> exists i :: 0 <= i < k && tx[i].sector == s
    ensures |SectorsAfter(tx, k)| <= k && (k > 0 ==> |SectorsAfter(tx, k)| > 0)
  {
    if k > 0 {
      SectorsListed(tx, k - 1);
    }
  }

  /** Later calls only extend the list of recorded sectors. */
  lemma {:induction false} SectorsGrow(tx: Tx, j: nat, k: nat)
    requires j <= k <= |tx|
    ensures SectorsAfter(tx, j) <= SectorsAfter(tx, k)
    decreases k
  {
    if j < k {
      SectorsGrow(tx, j, k - 1);
    }
  }

  /** The log_write phase touches only the slots in use: never the header, never a home sector. */
  lemma LogPhaseFrame(g: Geometry, d: Disk, tx: Tx, k: nat, s: nat)
    requires g.Fits(d) && HomeTx(g, d, tx) && |Sectors(tx)| <= g.Capacity() && k <= |tx|
    requires s < |d| && (g.Home(s, d) || s == g.start)
    ensures After(d, LogTrace(g, tx), k)[s] == d[s]
  {
    forall i | 0 <= i < k ensures LogTrace(g, tx)[i].sector != s {
      assert |SectorsAfter(tx, i + 1)| <= |Sectors(tx)| by { SectorsGrow(tx, i + 1, |tx|); }
    }
    AfterFrame(d, LogTrace(g, tx), k, s);
  }

  /** After k calls, slot i holds the last data written to recorded sector i. */
  lemma {:induction false} SlotHoldsLastWrite(g: Geometry, d: Disk, tx: Tx, k: nat, i: nat)
    requires g.Fits(d) && HomeTx(g, d, tx) && k <= |tx|
    requires i < |SectorsAfter(tx, k)| <= g.Capacity()
    ensures SectorsAfter(tx, k)[i] < |d|
    ensures After(d, LogTrace(g, tx), k)[g.start + 1 + i] == After(d, tx, k)[SectorsAfter(tx, k)[i]]
    decreases k
  {
    hide SectorsAfter;
    LastCallSlot(g, d, tx, k, i);
    if i != Slot(SectorsAfter(tx, k - 1), tx[k - 1].sector) {
      SlotHoldsLastWrite(g, d, tx, k - 1, i);
    }
  }

  /** Recorded sector i is the sector of call k exactly when call k wrote slot i. */
  lemma LastCallSlot(g: Geometry, d: Disk, tx: Tx, k: nat, i: nat)
    requires g.Fits(d) && HomeTx(g, d, tx) && k <= |tx| && i < |SectorsAfter(tx, k)|
    ensures k > 0 && SectorsAfter(tx, k)[i] < |d|
    ensures |SectorsAfter(tx, k - 1)| <= |SectorsAfter(tx, k)|
    ensures var secs, s := SectorsAfter(tx, k - 1), tx[k - 1].sector;
            if i == Slot(secs, s) then SectorsAfter(tx, k)[i] == s
            else i < |secs| && SectorsAfter(tx, k)[i] == secs[i] != s
  {
    SectorsExact(g, d, tx, k);
    assert SectorsAfter(tx, k)[Slot(SectorsAfter(tx, k - 1), tx[k - 1].sector)] == tx[k - 1].sector;
  }

  // ----- recovery

  lemma RecoveryKeepsLog(g: Geometry, d: Disk, k: nat)
    requires WellFormed(g, d) && k < |RecoverTrace(g, d)|
    ensures SameLog(g, d, After(d, RecoverTrace(g, d), k))
  {
    forall s | g.start <= s < g.start + g.size && s < |d|
      ensures After(d, RecoverTrace(g, d), k)[s] == d[s]
    {
      AfterFrame(d, RecoverTrace(g, d), k, s);
    }
  }

  /** Recovery reads only the log, so disks with the same log write the same sectors. */
  lemma SameLogSameRecovery(g: Geometry, d: Disk, e: Disk)
    requires WellFormed(g, d) && SameLog(g, d, e)
    ensures WellFormed(g, e) && RecoverTrace(g, e) == RecoverTrace(g, d)
  {
    assert d[g.start] == e[g.start];
    var secs := HeadSectors(d[g.start]);
    assert InstallTrace(g, d, secs) == InstallTrace(g, e, secs);
  }

  /** The complete recovery leaves a cleared header. */
  lemma RecoverHeader(g: Geometry, d: Disk)
    requires WellFormed(g, d)
    ensures Recover(g, d)[g.start] == PutHead(d[g.start], [])
    ensures Clean(g, Recover(g, d)) && WellFormed(g, Recover(g, d))
  {
    HeadRoundTrip(d[g.start], []);
  }

  /** Recovering a disk whose log is clean only rewrites the header. */
  lemma RecoverCleanDisk(g: Geometry, d: Disk)
    requires Clean(g, d)
    ensures WellFormed(g, d) && Recover(g, d) == Step(d, Write(g.start, PutHead(d[g.start], [])))
  {
    hide PutHead, Step;
    var w := Write(g.start, PutHead(d[g.start], []));
    assert RecoverTrace(g, d) == [] + [w];
    hide RecoverTrace;
    ApplySnoc(d, [], w);
  }

  /** Recovery cut after any of its sector writes and run again ends in the same disk. */
  lemma RecoveryRestarts(g: Geometry, d: Disk, k: nat)
    requires WellFormed(g, d) && k <= |RecoverTrace(g, d)|
    ensures WellFormed(g, After(d, RecoverTrace(g, d), k))
    ensures Recover(g, After(d, RecoverTrace(g, d), k)) == Recover(g, d)
  {
    var t := RecoverTrace(g, d);
    var e := After(d, t, k);
    if k < |t| {
      RecoveryKeepsLog(g, d, k);
      SameLogSameRecovery(g, d, e);
      ReplayAbsorbs(d, t, k);
    } else {
      RecoverHeader(g, d);
      ClearTwice(d[g.start]);
      RecoverCleanDisk(g, e);
    }
  }

  /** The disk after recovery was started and cut |cuts| times (attempt i after cuts[i] writes). */
  ghost function Interrupted(g: Geometry, d: Disk, cuts: seq<nat>): (r: Disk)
    requires WellFormed(g, d)
    ensures WellFormed(g, r)
    decreases |cuts|
  {
    if cuts == [] then d else
      var t := RecoverTrace(g, d);
      var k := if cuts[0] < |t| then cuts[0] else |t|;
      RecoveryRestarts(g, d, k);
      Interrupted(g, After(d, t, k), cuts[1..])
  }

  /** Any number of interrupted recoveries, then a complete one: the same disk, sector for sector. */
  lemma {:induction false} RecoveryToleratesCrashes(g: Geometry, d: Disk, cuts: seq<nat>)
    requires WellFormed(g, d)
    ensures Recover(g, Interrupted(g, d, cuts)) == Recover(g, d)
    decreases |cuts|
  {
    if cuts != [] {
      var t := RecoverTrace(g, d);
      var k := if cuts[0] < |t| then cuts[0] else |t|;
      RecoveryRestarts(g, d, k);
      RecoveryToleratesCrashes(g, After(d, t, k), cuts[1..]);
    }
  }

  // ----- one transaction

  lemma RecoverHome(g: Geometry, d: Disk, secs: seq<nat>, s: nat)
    requires WellFormed(g, d) && Distinct(secs) && secs == HeadSectors(d[g.start]) && g.Home(s, d)
    ensures forall i :: 0 <= i < |secs| && secs[i] == s ==> Recover(g, d)[s] == d[g.start + 1 + i]
    ensures s !in secs ==> Recover(g, d)[s] == d[s]
  {
    var t := RecoverTrace(g, d);
    AfterAt(d, t, |t|, s);
    forall j | 0 <= j < |secs| ensures t[j] == Write(secs[j], d[g.start + 1 + j]) {}
  }

  /** Home content after a complete recovery of a committed transaction. */
  lemma RecoverInstalls(g: Geometry, d: Disk, secs: seq<nat>, goal: Disk)
    requires WellFormed(g, d) && Distinct(secs) && |goal| == |d|
    requires secs == HeadSectors(d[g.start])
    requires forall i :: 0 <= i < |secs| ==> secs[i] < |d| && d[g.start + 1 + i] == goal[secs[i]]
    requires forall s :: 0 <= s < |d| && g.Home(s, d) && s !in secs ==> d[s] == goal[s]
    ensures SameHome(g, Recover(g, d), goal)
  {
    forall s | 0 <= s < |d| && g.Home(s, d) ensures Recover(g, d)[s] == goal[s] {
      RecoverHome(g, d, secs, s);
      if s in secs {
        var i :| 0 <= i < |secs| && secs[i] == s;
      }
    }
  }

  ghost function Logged(g: Geometry, d: Disk, tx: Tx): Disk
    requires g.Fits(d) && HomeTx(g, d, tx)
  {
    Apply(d, LogTrace(g, tx))
  }

  /** The write of the header that names the logged sectors. */
  ghost function CommitWrite(g: Geometry, d: Disk, tx: Tx): Write
    requires g.Fits(d) && HomeTx(g, d, tx) && |Sectors(tx)| <= g.Capacity()
  {
    Write(g.start, PutHead(Logged(g, d, tx)[g.start], Sectors(tx)))
  }

  lemma CommittedHeader(g: Geometry, d: Disk, tx: Tx)
    requires Clean(g, d) && HomeTx(g, d, tx) && |Sectors(tx)| <= g.Capacity()
    ensures var c := Step(Logged(g, d, tx), CommitWrite(g, d, tx));
            WellFormed(g, c) && HeadSectors(c[g.start]) == Sectors(tx)
  {
    SectorsExact(g, d, tx, |tx|);
    HeadRoundTrip(Logged(g, d, tx)[g.start], Sectors(tx));
  }

  lemma CommittedRecovers(g: Geometry, d: Disk, tx: Tx)
    requires Clean(g, d) && HomeTx(g, d, tx) && |Sectors(tx)| <= g.Capacity()
    ensures var c := Step(Logged(g, d, tx), CommitWrite(g, d, tx));
            WellFormed(g, c) && SameHome(g, Recover(g, c), Apply(d, tx))
  {
    var secs := Sectors(tx);
    var c := Step(Logged(g, d, tx), CommitWrite(g, d, tx));
    CommittedHeader(g, d, tx);
    SectorsExact(g, d, tx, |tx|);
    forall i | 0 <= i < |secs| ensures secs[i] < |d| && c[g.start + 1 + i] == Apply(d, tx)[secs[i]] {
      SlotHoldsLastWrite(g, d, tx, |tx|, i);
    }
    forall s | 0 <= s < |d| && g.Home(s, d) && s !in secs ensures c[s] == Apply(d, tx)[s] {
      LogPhaseFrame(g, d, tx, |tx|, s);
      AfterFrame(d, tx, |tx|, s);
    }
    RecoverInstalls(g, c, secs, Apply(d, tx));
  }

  /** The header write is the commit point: the writes after it are exactly those of recovery. */
  lemma AfterCommitPoint(g: Geometry, d: Disk, tx: Tx)
    requires Clean(g, d) && HomeTx(g, d, tx) && 0 < |Sectors(tx)| <= g.Capacity()
    ensures var c := Step(Logged(g, d, tx), CommitWrite(g, d, tx));
            && WellFormed(g, c)
            && TxTrace(g, d, tx) == (LogTrace(g, tx) + [CommitWrite(g, d, tx)]) + RecoverTrace(g, c)
  {
    CommittedHeader(g, d, tx);
    var secs := Sectors(tx);
    var e := Logged(g, d, tx);
    var c := Step(e, CommitWrite(g, d, tx));
    assert InstallTrace(g, c, secs) == InstallTrace(g, e, secs);
  }

  /** The number of sector writes up to and including the header write that commits. */
  function CommitPoint(tx: Tx): nat {
    |tx| + 1
  }

  /** The disk after k >= CommitPoint writes is recovery cut after the writes beyond that point. */
  lemma DiskAfterCommit(g: Geometry, d: Disk, tx: Tx, k: nat)
    requires Clean(g, d) && HomeTx(g, d, tx) && 0 < |Sectors(tx)| <= g.Capacity()
    requires CommitPoint(tx) <= k <= |TxTrace(g, d, tx)|
    ensures var c := Step(Logged(g, d, tx), CommitWrite(g, d, tx));
            && WellFormed(g, c)
            && |TxTrace(g, d, tx)| == CommitPoint(tx) + |RecoverTrace(g, c)|
            && After(d, TxTrace(g, d, tx), k) == After(c, RecoverTrace(g, c), k - CommitPoint(tx))
  {
    hide LogTrace, TxTrace, RecoverTrace, After, WellFormed;
    AfterCommitPoint(g, d, tx);
    var w := CommitWrite(g, d, tx);
    var c := Step(Logged(g, d, tx), w);
    var a := LogTrace(g, tx) + [w];
    ApplySnoc(d, LogTrace(g, tx), w);
    AfterConcat(d, a, RecoverTrace(g, c), k - |a|);
  }

  lemma UncommittedPrefix(g: Geometry, d: Disk, tx: Tx, k: nat)
    requires Clean(g, d) && HomeTx(g, d, tx) && |Sectors(tx)| <= g.Capacity()
    requires k <= |tx|
    ensures var e := After(d, TxTrace(g, d, tx), k);
            WellFormed(g, e) && SameHome(g, Recover(g, e), d)
  {
    AfterSame(d, TxTrace(g, d, tx), LogTrace(g, tx), k);
    var e := After(d, LogTrace(g, tx), k);
    LogPhaseFrame(g, d, tx, k, g.start);
    RecoverCleanDisk(g, e);
    forall s | 0 <= s < |d| && g.Home(s, d) ensures Recover(g, e)[s] == d[s] {
      LogPhaseFrame(g, d, tx, k, s);
    }
  }

  /** A crash after any k sector writes of a transaction, then recovery: all of it or none of it,
      decided by whether the first header write reached the disk. */
  lemma CrashAtomicity(g: Geometry, d: Disk, tx: Tx, k: nat)
    requires Clean(g, d) && HomeTx(g, d, tx) && |Sectors(tx)| <= g.Capacity()
    requires k <= |TxTrace(g, d, tx)|
    ensures WellFormed(g, After(d, TxTrace(g, d, tx), k))
    ensures SameHome(g, Recover(g, After(d, TxTrace(g, d, tx), k)),
                     if k < CommitPoint(tx) then d else Apply(d, tx))
  {
    if k < CommitPoint(tx) {
      UncommittedPrefix(g, d, tx, k);
    } else {
      assert Sectors(tx) != [];
      DiskAfterCommit(g, d, tx, k);
      CommittedRecovers(g, d, tx);
      RecoveryRestarts(g, Step(Logged(g, d, tx), CommitWrite(g, d, tx)), k - CommitPoint(tx));
    }
  }

  // ----- whole runs

  /** A history of transactions, oldest first. */
  datatype Run = Boot | Then(before: Run, tx: Tx)

  /** Every transaction writes home sectors only and fits in the log. */
  ghost predicate Admissible(g: Geometry, d: Disk, run: Run)
    ensures Admissible(g, d, run) ==> Clean(g, d)
  {
    match run
    case Boot => Clean(g, d)
    case Then(before, tx) => Admissible(g, d, before) && HomeTx(g, d, tx) && |Sectors(tx)| <= g.Capacity()
  }

  /** A committed transaction leaves its writes at home and a clean log. */
  lemma TransactionDone(g: Geometry, d: Disk, tx: Tx)
    requires Clean(g, d) && HomeTx(g, d, tx) && |Sectors(tx)| <= g.Capacity()
    ensures Clean(g, Apply(d, TxTrace(g, d, tx)))
    ensures SameHome(g, Apply(d, TxTrace(g, d, tx)), Apply(d, tx))
  {
    if Sectors(tx) == [] {
      SectorsExact(g, d, tx, |tx|);
      assert TxTrace(g, d, tx) == [];
    } else {
      AfterCommitPoint(g, d, tx);
      DiskAfterCommit(g, d, tx, |TxTrace(g, d, tx)|);
      CommittedRecovers(g, d, tx);
      RecoverHeader(g, Step(Logged(g, d, tx), CommitWrite(g, d, tx)));
    }
  }

  /** Every sector write of a run, in order. */
  ghost function RunTrace(g: Geometry, d: Disk, run: Run): seq<Write>
    requires Admissible(g, d, run)
  {
    match run
    case Boot => []
    case Then(before, tx) =>
      var r := RunTrace(g, d, before);
      r + TxTrace(g, Apply(d, r), tx)
  }

  /** The disk if each transaction were one indivisible update. */
  ghost function Atomically(d: Disk, run: Run): (r: Disk)
    ensures |r| == |d|
  {
    match run
    case Boot => d
    case Then(before, tx) => Apply(Atomically(d, before), tx)
  }

  /** The transactions of the run that have committed once k sector writes have reached the disk. */
  ghost function Committed(g: Geometry, d: Disk, run: Run, k: nat): (r: Run)
    requires Admissible(g, d, run)
  {
    match run
    case Boot => Boot
    case Then(before, tx) =>
      var n := |RunTrace(g, d, before)|;
      if k <= n then Committed(g, d, before, k)
      else if k - n < CommitPoint(tx) then before
      else run
  }

  lemma {:induction false} AfterSameHome(g: Geometry, d: Disk, e: Disk, tx: Tx, k: nat)
    requires SameHome(g, d, e) && HomeTx(g, d, tx) && k <= |tx|
    ensures SameHome(g, After(d, tx, k), After(e, tx, k))
  {
    if k > 0 {
      AfterSameHome(g, d, e, tx, k - 1);
    }
  }

  lemma OneMoreTransaction(g: Geometry, d: Disk, r: seq<Write>, goal: Disk, tx: Tx)
    requires Clean(g, Apply(d, r)) && SameHome(g, Apply(d, r), goal)
    requires HomeTx(g, d, tx) && |Sectors(tx)| <= g.Capacity()
    ensures var e := Apply(d, r + TxTrace(g, Apply(d, r), tx));
            Clean(g, e) && SameHome(g, e, Apply(goal, tx))
  {
    hide TxTrace, After;
    var t := TxTrace(g, Apply(d, r), tx);
    AfterConcat(d, r, t, |t|);
    TransactionDone(g, Apply(d, r), tx);
    AfterSameHome(g, Apply(d, r), goal, tx, |tx|);
  }

  /** Between transactions the log is clean and the home sectors hold the transactions so far. */
  lemma {:induction false} BetweenTransactions(g: Geometry, d: Disk, run: Run)
    requires Admissible(g, d, run)
    ensures Clean(g, Apply(d, RunTrace(g, d, run)))
    ensures SameHome(g, Apply(d, RunTrace(g, d, run)), Atomically(d, run))
  {
    match run
    case Boot =>
    case Then(before, tx) =>
      BetweenTransactions(g, d, before);
      OneMoreTransaction(g, d, RunTrace(g, d, before), Atomically(d, before), tx);
  }

  /** Recovery from `e` succeeds, leaves the home sectors of `goal` and a clean log. */
  ghost predicate RecoversTo(g: Geometry, e: Disk, goal: Disk) {
    && WellFormed(g, e)
    && SameHome(g, Recover(g, e), goal)
    && Clean(g, Recover(g, e))
  }

  /** A crash after k writes inside the transaction that follows the writes `r`. */
  lemma LastTransactionCut(g: Geometry, d: Disk, r: seq<Write>, goal: Disk, tx: Tx, k: nat)
    requires Clean(g, Apply(d, r)) && SameHome(g, Apply(d, r), goal)
    requires HomeTx(g, d, tx) && |Sectors(tx)| <= g.Capacity()
    requires k <= |TxTrace(g, Apply(d, r), tx)|
    ensures RecoversTo(g, After(d, r + TxTrace(g, Apply(d, r), tx), |r| + k),
                       if k < CommitPoint(tx) then goal else Apply(goal, tx))
  {
    var e := Apply(d, r);
    var t := TxTrace(g, e, tx);
    AfterConcat(d, r, t, k);
    CrashAtomicity(g, e, tx, k);
    RecoverHeader(g, After(e, t, k));
    AfterSameHome(g, e, goal, tx, |tx|);
  }

  lemma CleanRecovers(g: Geometry, d: Disk)
    requires Clean(g, d)
    ensures RecoversTo(g, d, d)
  {
    RecoverCleanDisk(g, d);
    RecoverHeader(g, d);
  }

  lemma EarlierCut(g: Geometry, d: Disk, r: seq<Write>, t: seq<Write>, goal: Disk, k: nat)
    requires k <= |r| && RecoversTo(g, After(d, r, k), goal)
    ensures RecoversTo(g, After(d, r + t, k), goal)
  {
    AfterSame(d, r + t, r, k);
  }

  /** Crash atomicity and durability over whole runs: after a crash at any of the run's sector writes
      and after recovery, the home sectors hold exactly the transactions committed so far, in order. */
  lemma {:induction false} RunCrashAtomicity(g: Geometry, d: Disk, run: Run, k: nat)
    requires Admissible(g, d, run) && k <= |RunTrace(g, d, run)|
    ensures RecoversTo(g, After(d, RunTrace(g, d, run), k), Atomically(d, Committed(g, d, run, k)))
  {
    hide TxTrace, RecoversTo, SameHome;
    match run
    case Boot =>
      CleanRecovers(g, d);
    case Then(before, tx) =>
      var r := RunTrace(g, d, before);
      if k <= |r| {
        RunCrashAtomicity(g, d, before, k);
        EarlierCut(g, d, r, TxTrace(g, Apply(d, r), tx), Atomically(d, Committed(g, d, before, k)), k);
      } else {
        BetweenTransactions(g, d, before);
        LastTransactionCut(g, d, r, Atomically(d, before), tx, k - |r|);
      }
  }

  /** The same when recovery itself is cut and restarted any number of times. */
  lemma RunCrashesAtomicity(g: Geometry, d: Disk, run: Run, k: nat, cuts: seq<nat>)
    requires Admissible(g, d, run) && k <= |RunTrace(g, d, run)|
    ensures WellFormed(g, After(d, RunTrace(g, d, run), k))
    ensures RecoversTo(g, Interrupted(g, After(d, RunTrace(g, d, run), k), cuts),
                       Atomically(d, Committed(g, d, run, k)))
  {
    RunCrashAtomicity(g, d, run, k);
    RecoveryToleratesCrashes(g, After(d, RunTrace(g, d, run), k), cuts);
  }

  /** A run whose last transaction stopped before its commit is that run cut there; only what came before counts. */
  lemma StoppedRun(g: Geometry, d: Disk, run: Run, tail: Tx, k: nat)
    requires Admissible(g, d, run) && HomeTx(g, d, tail) && |Sectors(tail)| <= g.Capacity()
    requires k <= |RunTrace(g, d, run) + LogTrace(g, tail)|
    ensures Admissible(g, d, Then(run, tail)) && k <= |RunTrace(g, d, Then(run, tail))|
    ensures After(d, RunTrace(g, d, run) + LogTrace(g, tail), k) == After(d, RunTrace(g, d, Then(run, tail)), k)
    ensures Committed(g, d, Then(run, tail), k) == if k <= |RunTrace(g, d, run)| then Committed(g, d, run, k) else run
  {
    hide After, CommitTrace, Sectors;
    var r := RunTrace(g, d, run);
    var e := Apply(d, r);
    assert RunTrace(g, d, Then(run, tail)) == r + TxTrace(g, e, tail);
    AfterSame(d, r + LogTrace(g, tail), r + TxTrace(g, e, tail), k);
  }
}
