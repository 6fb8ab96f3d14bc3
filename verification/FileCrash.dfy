/** Writes to a file cut by a crash: the file system after recovery. */
module FileCrash {
  import opened Words
  import opened LogSpec
  import opened LogCrash
  import opened FsLayout
  import opened FsState
  import opened FsMap
  import opened FsFile

  /** file.c: ((LOGSIZE-1-1-2) / 2) * 512 bytes per transaction. */
  const CHUNK := 1536

  // ----- only blocks below the log matter

  lemma HomeBlock(sb: Super, view: Disk, r: Disk, s: nat)
    requires sb.Ok() && |view| == sb.size && SameHome(sb.Log(), view, r) && s < sb.LogStart()
    ensures s < |view| == |r| && r[s] == view[s]
  {
    assert sb.Log().Home(s, view);
  }

  lemma MetaBelowLog(sb: Super, b: nat, i: nat)
    requires sb.Ok() && b < sb.size && i < sb.ninodes
    ensures sb.BitmapBlock(b) < sb.LogStart() && sb.InodeBlock(i) < sb.LogStart()
  {
    assert b / 4096 <= sb.size / 4096 && i / 8 <= sb.ninodes / 8;
  }

  lemma SameRef(f: Fs, r: Disk, i: nat, k: nat)
    requires Owned(f) && SameHome(f.sb.Log(), f.view, r) && i in f.ino && k < SLOTS
    ensures Ref(f.(view := r), i, k) == Ref(f, i, k)
  {
    hide Used, GetWord;
    var a := f.ino[i].addrs[INDIRECT];
    IndirectBelowLog(f, i);
    HomeBlock(f.sb, f.view, r, a);
  }

  lemma SameUsed(f: Fs, r: Disk, b: nat)
    requires Shape(f) && SameHome(f.sb.Log(), f.view, r) && b < f.sb.size
    ensures Used(f.(view := r), b) == Used(f, b)
  {
    hide TestBit;
    assert b / 4096 <= f.sb.size / 4096;
    HomeBlock(f.sb, f.view, r, f.sb.BitmapBlock(b));
  }

  lemma SameBytes(f: Fs, r: Disk, i: nat, o: nat)
    requires Owned(f) && SameHome(f.sb.Log(), f.view, r) && i in f.ino && o < MAXBYTES
    ensures Shape(f.(view := r)) && ByteAt(f.(view := r), i, o) == ByteAt(f, i, o)
  {
    hide Ref, Used;
    SameRef(f, r, i, SlotOf(o / 512));
    var a := Addr(f, i, o / 512);
    assert a != 0 ==> f.sb.InData(a);
    HomeBlock(f.sb, f.view, r, a);
  }

  /** The log area is invisible to the file system: invariant and contents depend on the home blocks only. */
  lemma SameFiles(f: Fs, r: Disk)
    requires FsInv(f) && SameHome(f.sb.Log(), f.view, r)
    ensures FsInv(f.(view := r))
    ensures forall i :: i in f.ino ==> f.ino[i].size <= MAXBYTES && Contents(f.(view := r), i) == Contents(f, i)
  {
    hide Ref, Used, ByteAt, GetInode;
    var g := f.(view := r);
    forall i, k | i in f.ino && 0 <= k < SLOTS ensures Ref(g, i, k) == Ref(f, i, k) { SameRef(f, r, i, k); }
    forall b: nat | b < f.sb.size ensures Used(g, b) == Used(f, b) { SameUsed(f, r, b); }
    SameOwned(f, g);
    hide RefsMarked, RefsUnique, Reserved;
    forall i | i in f.ino
      ensures NoHoles(g, i) && Flushed(g, i) && Contents(g, i) == Contents(f, i)
    {
      SameFile(f, r, i);
    }
  }

  lemma SameOwned(f: Fs, g: Fs)
    requires Owned(f) && Shape(g) && g.sb == f.sb && g.ino == f.ino
    requires forall i, k :: i in f.ino && 0 <= k < SLOTS ==> Ref(g, i, k) == Ref(f, i, k)
    requires forall b: nat :: b < f.sb.size ==> Used(g, b) == Used(f, b)
    ensures Owned(g)
  {
    hide Ref, Used;
  }

  lemma SameFile(f: Fs, r: Disk, i: nat)
    requires FsInv(f) && SameHome(f.sb.Log(), f.view, r) && i in f.ino
    ensures var g := f.(view := r); Shape(g) && NoHoles(g, i) && Flushed(g, i) && Contents(g, i) == Contents(f, i)
  {
    hide Ref, Used, ByteAt, GetInode;
    var g := f.(view := r);
    assert f.sb.size > 0;
    MetaBelowLog(f.sb, 0, i);
    HomeBlock(f.sb, f.view, r, f.sb.InodeBlock(i));
    forall bn | 0 <= bn < BlocksFor(f.ino[i].size) ensures Addr(g, i, bn) != 0 {
      SameRef(f, r, i, SlotOf(bn));
      assert Addr(f, i, bn) != 0;
    }
    forall o | 0 <= o < f.ino[i].size ensures ByteAt(g, i, o) == ByteAt(f, i, o) { SameBytes(f, r, i, o); }
  }

  // ----- a sequence of transactions that write consecutive chunks

  /** The state before; for each transaction its log_write calls, the state after it and the bytes written so far. */
  datatype Chunks = Start(f: Fs) | More(before: Chunks, tx: Tx, g: Fs, k: nat)

  function First(c: Chunks): Fs {
    match c
    case Start(f) => f
    case More(b, _, _, _) => First(b)
  }

  function Latest(c: Chunks): Fs {
    if c.Start? then c.f else c.g
  }

  function Bytes(c: Chunks): nat {
    if c.Start? then 0 else c.k
  }

  function RunOf(c: Chunks): Run {
    match c
    case Start(_) => Boot
    case More(b, tx, _, _) => Then(RunOf(b), tx)
  }

  /** Each transaction fits in the log, stays below it, and writes the next chunk of src. */
  ghost predicate ChunksOk(c: Chunks, i: nat, off: nat, src: seq<byte>) {
    match c
    case Start(f) => FsInv(f) && i in f.ino && off <= f.ino[i].size
    case More(b, tx, g, k) =>
      && ChunksOk(b, i, off, src) && Bytes(b) <= k <= |src| && (k % 1536 == 0 || k == |src|)
      && WriteDone(Latest(b), g, i, off + Bytes(b), src[Bytes(b)..k])
      && ChunkTx(Latest(b), tx, g)
  }

  ghost predicate ChunkTx(f: Fs, tx: Tx, g: Fs) {
    f.sb.Ok() && Transaction(f.sb, f.view, tx, g.view, Sectors(tx)) && BelowLog(f.sb, Sectors(tx))
  }

  /** A transaction that stopped before its commit: its writes fit in the log and stay below it. */
  ghost predicate OpenTx(sb: Super, tx: Tx) {
    sb.Ok() && |Sectors(tx)| <= sb.Log().Capacity() && BelowLog(sb, Sectors(tx))
  }

  /** Two adjacent overwrites are one. */
  lemma OverwriteTwice(c: seq<byte>, off: nat, a: seq<byte>, b: seq<byte>)
    requires off <= |c|
    ensures off + |a| <= |Overwrite(c, off, a)|
    ensures Overwrite(Overwrite(c, off, a), off + |a|, b) == Overwrite(c, off, a + b)
  {
    var d := Overwrite(c, off, a);
    assert d[..off + |a|] == c[..off] + a;
    var l, r := Overwrite(d, off + |a|, b), Overwrite(c, off, a + b);
    assert |l| == |r|;
    forall x | 0 <= x < |l| ensures l[x] == r[x] {
      if x >= off + |a| + |b| { assert l[x] == d[x] == c[x]; }
    }
  }

  lemma WriteDoneTwice(f: Fs, g: Fs, h: Fs, i: nat, off: nat, a: seq<byte>, b: seq<byte>)
    requires WriteDone(f, g, i, off, a) && WriteDone(g, h, i, off + |a|, b)
    ensures WriteDone(f, h, i, off, a + b)
  {
    hide RefsMarked, RefsUnique, Reserved, Flushed, Contents, Overwrite;
    OverwriteTwice(Contents(f, i), off, a, b);
  }

  lemma WriteNothing(fs: Fs, i: nat, off: nat)
    requires FsInv(fs) && i in fs.ino && off <= fs.ino[i].size
    ensures WriteDone(fs, fs, i, off, [])
  {
    hide Ref, ByteAt, Flushed;
    var c := Contents(fs, i);
    assert Overwrite(c, off, []) == c;
  }

  /** The chunks so far are together one write. */
  lemma {:induction false} ChunksAreOneWrite(c: Chunks, i: nat, off: nat, src: seq<byte>)
    requires ChunksOk(c, i, off, src)
    ensures Bytes(c) <= |src| && WriteDone(First(c), Latest(c), i, off, src[..Bytes(c)])
  {
    hide WriteDone, FsInv, ChunkTx;
    if c.Start? {
      WriteNothing(c.f, i, off);
      assert src[..0] == [];
    } else {
      ChunksAreOneWrite(c.before, i, off, src);
      var m := Bytes(c.before);
      WriteDoneTwice(First(c), Latest(c.before), c.g, i, off, src[..m], src[m..c.k]);
      assert src[..m] + src[m..c.k] == src[..c.k];
    }
  }

  // ----- crashes

  /** Chunks whose transactions have committed once k sector writes have reached the disk. */
  ghost function CommittedChunks(g: Geometry, d: Disk, c: Chunks, k: nat): (r: Chunks)
    requires Admissible(g, d, RunOf(c))
    ensures RunOf(r) == Committed(g, d, RunOf(c), k) && First(r) == First(c)
    ensures forall i, off, src :: ChunksOk(c, i, off, src) ==> ChunksOk(r, i, off, src)
  {
    match c
    case Start(_) => c
    case More(b, tx, _, _) =>
      var n := |RunTrace(g, d, RunOf(b))|;
      if k <= n then CommittedChunks(g, d, b, k) else if k - n < CommitPoint(tx) then b else c
  }

  lemma ChunkHome(f: Fs, tx: Tx, g: Fs, d: Disk)
    requires ChunkTx(f, tx, g) && |d| == |f.view| == f.sb.size
    ensures HomeTx(f.sb.Log(), d, tx) && |Sectors(tx)| <= f.sb.Log().Capacity() && g.view == Apply(f.view, tx)
  {
    SectorsListed(tx, |tx|);
    forall j | 0 <= j < |tx| ensures f.sb.Log().Home(tx[j].sector, d) {}
  }

  /** The chunks are an admissible run of the log, and the disk follows the file system. */
  lemma {:induction false} ChunksAreRun(g: Geometry, c: Chunks, i: nat, off: nat, src: seq<byte>, d: Disk)
    requires First(c).sb.Ok() && g == First(c).sb.Log() && ChunksOk(c, i, off, src)
    requires Clean(g, d) && SameHome(g, First(c).view, d)
    ensures Latest(c).sb == First(c).sb && |Latest(c).view| == First(c).sb.size && Admissible(g, d, RunOf(c))
    ensures SameHome(g, Latest(c).view, Atomically(d, RunOf(c)))
  {
    hide FsInv, Clean, WriteDone, After, SameHome, ChunkTx;
    if c.More? {
      ChunksAreRun(g, c.before, i, off, src, d);
      var m, e := Bytes(c.before), Atomically(d, RunOf(c.before));
      ChunkFollows(g, Latest(c.before), c.g, i, off + m, src[m..c.k], c.tx, d, e);
    } else {
      StartFrame(c.f);
    }
  }

  lemma StartFrame(f: Fs)
    requires FsInv(f)
    ensures |f.view| == f.sb.size
  {
  }

  lemma ChunkFollows(g: Geometry, f: Fs, h: Fs, i: nat, off: nat, data: seq<byte>, tx: Tx, d: Disk, e: Disk)
    requires WriteDone(f, h, i, off, data) && ChunkTx(f, tx, h) && g == f.sb.Log() && SameHome(g, f.view, e)
    requires |d| == |e|
    ensures h.sb == f.sb && |h.view| == f.sb.size && HomeTx(g, d, tx) && |Sectors(tx)| <= g.Capacity()
    ensures SameHome(g, h.view, Apply(e, tx))
  {
    DoneFrame(f, h, i, off, data);
    hide WriteDone, SameHome;
    SameLength(g, f.view, e);
    ChunkHome(f, tx, h, d);
    ChunkHome(f, tx, h, f.view);
    hide HomeTx;
    AfterSameHome(g, f.view, e, tx, |tx|);
  }

  lemma SameLength(g: Geometry, a: Disk, b: Disk)
    requires SameHome(g, a, b)
    ensures |a| == |b|
  {
  }

  lemma DoneFrame(f: Fs, g: Fs, i: nat, off: nat, data: seq<byte>)
    requires WriteDone(f, g, i, off, data)
    ensures g.sb == f.sb && f.sb.Ok() && |f.view| == |g.view| == f.sb.size
  {
  }

  /** The sector writes of a run of chunks that stopped in the middle of one more, not yet committed. */
  ghost function StoppedTrace(g: Geometry, d: Disk, c: Chunks, tail: Tx): seq<Write>
    requires Admissible(g, d, RunOf(c))
  {
    RunTrace(g, d, RunOf(c)) + LogTrace(g, tail)
  }

  /** Chunks whose transactions have committed once k writes of a stopped run have reached the disk. */
  ghost function CommittedOf(g: Geometry, d: Disk, c: Chunks, k: nat): Chunks
    requires Admissible(g, d, RunOf(c))
  {
    if k <= |RunTrace(g, d, RunOf(c))| then CommittedChunks(g, d, c, k) else c
  }

  /** Cut a sequence of chunk writes after any sector write, and recovery any number of times: the file system on
      the recovered disk is the one before with the first m bytes written, for a whole number of chunks m. It is
      consistent, and every other file is as it was. The last chunk may have stopped anywhere before its commit. */
  lemma ChunksSurviveCrash(g: Geometry, c: Chunks, tail: Tx, i: nat, off: nat, src: seq<byte>, d: Disk, k: nat,
                           cuts: seq<nat>)
    requires First(c).sb.Ok() && g == First(c).sb.Log() && ChunksOk(c, i, off, src)
    requires Clean(g, d) && SameHome(g, First(c).view, d) && OpenTx(First(c).sb, tail)
    requires Admissible(g, d, RunOf(c)) && k <= |StoppedTrace(g, d, c, tail)|
    ensures WellFormed(g, After(d, StoppedTrace(g, d, c, tail), k))
    ensures Survives(c, CommittedOf(g, d, c, k), i, off, src,
                     Recover(g, Interrupted(g, After(d, StoppedTrace(g, d, c, tail), k), cuts)))
  {
    hide RunTrace, ChunksOk, Interrupted, Recover, Survives, After, Clean, SameHome, WellFormed, StoppedTrace;
    StoppedIsCut(g, d, c, tail, i, off, src, k);
    var run := Then(RunOf(c), tail);
    RunCrashesAtomicity(g, d, run, k, cuts);
    var w := CommittedOf(g, d, c, k);
    ChunksAreRun(g, w, i, off, src, d);
    var r := Recover(g, Interrupted(g, After(d, RunTrace(g, d, run), k), cuts));
    HomeTrans(g, Latest(w).view, Atomically(d, RunOf(w)), r);
    SurvivesIs(c, w, i, off, src, r);
  }

  /** A stopped run is a run cut before its last commit. */
  lemma StoppedIsCut(g: Geometry, d: Disk, c: Chunks, tail: Tx, i: nat, off: nat, src: seq<byte>, k: nat)
    requires First(c).sb.Ok() && g == First(c).sb.Log() && ChunksOk(c, i, off, src)
    requires Clean(g, d) && SameHome(g, First(c).view, d) && OpenTx(First(c).sb, tail)
    requires Admissible(g, d, RunOf(c)) && k <= |StoppedTrace(g, d, c, tail)|
    ensures var run := Then(RunOf(c), tail);
            && Admissible(g, d, run) && k <= |RunTrace(g, d, run)|
            && After(d, StoppedTrace(g, d, c, tail), k) == After(d, RunTrace(g, d, run), k)
            && RunOf(CommittedOf(g, d, c, k)) == Committed(g, d, run, k)
            && First(CommittedOf(g, d, c, k)) == First(c) && ChunksOk(CommittedOf(g, d, c, k), i, off, src)
  {
    hide After, SameHome, Clean, FsInv, Sectors, RunTrace, LogTrace, Committed, BelowLog;
    StartOf(c, i, off, src);
    SameLength(g, First(c).view, d);
    TailHome(First(c).sb, tail, d);
    StoppedRun(g, d, RunOf(c), tail, k);
  }

  lemma {:induction false} StartOf(c: Chunks, i: nat, off: nat, src: seq<byte>)
    requires ChunksOk(c, i, off, src)
    ensures |First(c).view| == First(c).sb.size
  {
    if c.More? { StartOf(c.before, i, off, src); }
  }

  lemma TailHome(sb: Super, tail: Tx, d: Disk)
    requires OpenTx(sb, tail) && |d| == sb.size
    ensures HomeTx(sb.Log(), d, tail) && |Sectors(tail)| <= sb.Log().Capacity()
  {
    SectorsListed(tail, |tail|);
    forall j | 0 <= j < |tail| ensures sb.Log().Home(tail[j].sector, d) {}
  }

  lemma HomeTrans(g: Geometry, a: Disk, b: Disk, r: Disk)
    requires SameHome(g, a, b) && SameHome(g, r, b)
    ensures SameHome(g, a, r)
  {
    forall s | 0 <= s < |a| && g.Home(s, a) ensures a[s] == r[s] { assert g.Home(s, r); }
  }

  /** The disk r holds the files after the chunks w of c. */
  ghost predicate Survives(c: Chunks, w: Chunks, i: nat, off: nat, src: seq<byte>, r: Disk) {
    && Bytes(w) <= |src| && (Bytes(w) % 1536 == 0 || Bytes(w) == |src|)
    && WriteDone(First(c), Latest(w).(view := r), i, off, src[..Bytes(w)])
  }

  lemma SurvivesIs(c: Chunks, w: Chunks, i: nat, off: nat, src: seq<byte>, r: Disk)
    requires First(c).sb.Ok() && First(w) == First(c) && ChunksOk(w, i, off, src) && Latest(w).sb == First(c).sb
    requires SameHome(First(c).sb.Log(), Latest(w).view, r)
    ensures Survives(c, w, i, off, src, r)
  {
    hide WriteDone, SameHome, ChunkTx, FsInv;
    ChunksAreOneWrite(w, i, off, src);
    SameDone(First(c), Latest(w), i, off, src[..Bytes(w)], r);
  }

  lemma SameDone(f: Fs, g: Fs, i: nat, off: nat, data: seq<byte>, r: Disk)
    requires WriteDone(f, g, i, off, data) && SameHome(g.sb.Log(), g.view, r)
    ensures WriteDone(f, g.(view := r), i, off, data)
  {
    hide RefsMarked, RefsUnique, Reserved, Flushed, Contents, Overwrite, SameHome, Shape;
    SameFiles(g, r);
    SameBoot(g, r);
  }

  /** The log is behind the boot block and the superblock. */
  lemma SameBoot(g: Fs, r: Disk)
    requires Shape(g) && SameHome(g.sb.Log(), g.view, r)
    ensures BootKept(g.view, r)
  {
    assert g.sb.Log().Home(0, g.view) && g.sb.Log().Home(1, g.view);
  }
}
