/** file.c: filewrite cuts a write into transactions that fit in the log. */
module FileWrite {
  import opened Words
  import opened LogSpec
  import opened FsLayout
  import opened FsState
  import opened FsMap
  import opened FsFile
  import opened FsCharge
  import opened FileCrash
  import opened FileSystem
  import opened Panics

  /** A chunk touches at most four blocks, whatever its alignment. */
  lemma ChunkSpan(off: nat, n: nat)
    requires n <= CHUNK
    ensures Span(off, n) <= 4
  {
  }

  /** One bitmap block, a full-size log, and never more than two buffers held by other processes. */
  ghost predicate Small(sb: Super, quota: nat) {
    sb.size < BPB && sb.nlog >= LOGSIZE && quota <= 2
  }

  /** On such a file system a chunk can only fail for want of free blocks. */
  lemma ChunkFits(fs: Fs, i: nat, off: nat, n: nat, why: Reason, quota: nat)
    requires Shape(fs) && i in fs.ino && off + n <= MAXBYTES && n <= CHUNK && Small(fs.sb, quota)
    requires PanicMeans(fs, i, off, n, true, why, quota)
    ensures why == OutOfBlocks && |FreeBlocks(fs)| < NeededFor(fs, i, off, n)
  {
    ChunkSpan(off, n);
  }

  /** How many bytes of a write of n bytes at `off` reach a file of the given size: all of them if the
      result fits in a file, otherwise the whole chunks that fit. */
  function Accepted(off: nat, n: nat, size: nat): (w: nat)
    requires size <= MAXBYTES
    ensures w <= n && (off <= size ==> off + w <= MAXBYTES)
    ensures w == n <==> n == 0 || (off <= size && off + n <= MAXBYTES)
  {
    if off > size then 0
    else if off + n <= MAXBYTES then n
    else 1536 * ((71680 - off) / 1536)
  }

  /** Where the chunk loop stops: at the end, or before the first chunk that does not fit. */
  lemma StopsAtAccepted(off: nat, n: nat, size: nat, i: nat)
    requires size <= MAXBYTES && i <= n && (off <= size ==> off + i <= MAXBYTES) && (off > size ==> i == 0)
    requires off <= size ==> i == n || (i % CHUNK == 0 && off + i + (if n - i > CHUNK then CHUNK else n - i) > MAXBYTES)
    ensures i == Accepted(off, n, size)
  {
    if i < n && off <= size {
      var k := i / CHUNK;
      assert i == CHUNK * k;
      assert (MAXBYTES - off) / CHUNK == k;
    }
  }

  datatype FileResult = Count(n: int) | Failed | FilePanic(why: Reason)

  class OpenFile {
    const fs: FileSystem
    const inum: nat
    const writable: bool
    var off: nat

    constructor (fs: FileSystem, inum: nat, writable: bool, off: nat)
      ensures this.fs == fs && this.inum == inum && this.writable == writable && this.off == off
    {
      this.fs, this.inum, this.writable, this.off := fs, inum, writable, off;
    }

    ghost predicate Valid()
      reads this, fs
    {
      FsInv(fs.Value()) && inum in fs.ino && fs.ino[inum].typ != T_DEV && off < WORD_LIMIT
    }

    /** No transaction is open. */
    ghost predicate Idle()
      reads fs
    {
      fs.Traced() && fs.logged == [] && fs.writes == [] && fs.base == fs.view
    }

    /** One transaction of filewrite: begin_trans, writei, advance the offset, commit_trans. If writei was done its
        calls are the whole transaction, even if the commit then panicked; otherwise they are what it had logged. */
    method WriteTrans(src: seq<byte>) returns (r: WriteResult, ghost whole: bool, ghost tx: Tx)
      requires Valid() && Idle() && 0 < |src| <= CHUNK
      modifies this, fs
      ensures !r.WritePanic? ==> Idle()
      ensures r.WriteRefused? <==> old(fs.Refuses(inum, off, |src|))
      ensures r.WriteRefused? ==> fs.Value() == old(fs.Value()) && off == old(off)
      ensures r.Wrote? ==> r.n == |src| && whole
      ensures whole ==>
                && off == old(off) + |src| && WriteDone(old(fs.Value()), fs.Value(), inum, old(off), src)
                && Charged(old(fs.Value()), fs.Value(), inum, old(off) / 512, Reach(old(off), old(off) + |src|))
                && ChunkTx(old(fs.Value()), tx, fs.Value())
      ensures r.WritePanic? ==> OpenTx(fs.sb, tx)
      ensures r.WritePanic? ==> PanicMeans(old(fs.Value()), inum, old(off), |src|, true, r.why, fs.quota)
      ensures Small(fs.sb, fs.quota) ==>
                && (r.WritePanic? <==> old(!fs.Refuses(inum, off, |src|)
                                           && |FreeBlocks(fs.Value())| < NeededFor(fs.Value(), inum, off, |src|)))
                && (r.WritePanic? ==> r.why == OutOfBlocks)
    {
      hide RefsMarked, RefsUnique, Reserved, Flushed, NoHoles, WriteDone, FreeBlocks, Ref, Apply, Sectors;
      hide Charged, NeededIn, Reach;
      ghost var f := fs.Value();
      r := fs.Writei(inum, off, src);
      tx, whole := fs.writes, r.Wrote?;
      if r.Wrote? { off := off + r.n; }
      if !r.WritePanic? {
        if r.Wrote? { ChargedFacts(f, fs.Value(), inum, (off - r.n) / 512, Reach(off - r.n, off)); }
        var o := fs.Commit();
        if o.Panic? { r := WritePanic(o.why); }
      }
      if r.WritePanic? && Small(fs.sb, fs.quota) { ChunkFits(f, inum, old(off), |src|, r.why, fs.quota); }
    }

    /** filewrite on an inode: when it returns n the chunks together are one write at the old offset; a write
        that does not fit leaves exactly the whole chunks that do. On a small file system it panics exactly if the
        bytes that fit in the file need more blocks than are free. `c` are the transactions begun by commit_trans,
        `tail` is what the last one had logged when it stopped earlier. */
    method Filewrite(src: seq<byte>) returns (r: FileResult, ghost c: Chunks, ghost tail: Tx)
      requires Valid() && Idle() && |src| < 0x8000_0000
      modifies this, fs
      ensures !writable ==> r == Failed && fs.Value() == old(fs.Value()) && off == old(off)
      ensures writable && !r.FilePanic? ==>
                var size := old(fs.ino)[inum].size;
                var w := Accepted(old(off), |src|, size);
                && off == old(off) + w
                && (if old(off) <= size then WriteDone(old(fs.Value()), fs.Value(), inum, old(off), src[..w])
                    else fs.Value() == old(fs.Value()))
                && (old(off) <= size ==> History(c, old(fs.Value()), fs.Value(), inum, old(off), src, w) && tail == [])
                && r == if w == |src| then Count(|src|) else Failed
      ensures r.FilePanic? ==> First(c) == old(fs.Value()) && ChunksOk(c, inum, old(off), src) && OpenTx(fs.sb, tail)
      ensures r.FilePanic? ==> SomeChunkFails(c, inum, old(off), src, r.why, fs.quota)
      ensures Small(fs.sb, fs.quota) ==>
                && (r.FilePanic? ==> r.why == OutOfBlocks)
                && (r.FilePanic? <==> writable && TooFewBlocks(old(fs.Value()), inum, old(off), |src|))
    {
      hide FsInv, WriteDone, FreeBlocks, Accepted, Progress, Shape, Transaction, ChunkTx, NeededFor, ChunksOk, OpenTx;
      hide SomeChunkFails;
      ghost var f0 := fs.Value();
      c, tail := Start(f0), [];
      if !writable { return Failed, c, tail; }
      var i, out;
      i, out, c, tail := WriteChunks(src);
      if out.Panic? { return FilePanic(out.why), c, tail; }
      ProgressEnd(f0, fs.Value(), inum, old(off), src, i);
      if i == |src| { return Count(|src|), c, tail; }
      return Failed, c, tail;
    }

    /** filewrite's loop: one transaction per chunk, up to the first chunk that is refused. */
    method WriteChunks(src: seq<byte>) returns (i: nat, out: Outcome, ghost c: Chunks, ghost tail: Tx)
      requires Valid() && Idle()
      modifies this, fs
      ensures out.Done? ==>
                && Progress(old(fs.Value()), fs.Value(), inum, old(off), src, i) && off == old(off) + i
                && old(fs.ino)[inum].size <= MAXBYTES && i == Accepted(old(off), |src|, old(fs.ino)[inum].size)
                && (old(off) <= old(fs.ino)[inum].size ==>
                      History(c, old(fs.Value()), fs.Value(), inum, old(off), src, i))
                && tail == []
      ensures out.Panic? ==> First(c) == old(fs.Value()) && ChunksOk(c, inum, old(off), src) && OpenTx(fs.sb, tail)
      ensures out.Panic? ==> SomeChunkFails(c, inum, old(off), src, out.why, fs.quota)
      ensures Small(fs.sb, fs.quota) ==>
                && (out.Panic? ==> out.why == OutOfBlocks)
                && (out.Panic? <==> TooFewBlocks(old(fs.Value()), inum, old(off), |src|))
    {
      hide FsInv, WriteDone, FreeBlocks, Accepted, Progress, Shape, Transaction, ChunkTx, NeededFor, OpenTx;
      hide TooFewBlocks, Paid;
      hide PanicMeans, Charged, Reach, ChunkFails;
      ghost var f0, off0 := fs.Value(), off;
      ProgressStart(f0, inum, off0, src);
      PaidStart(f0, inum, off0);
      i, c, tail := 0, Start(f0), [];
      while i < |src|
        invariant 0 <= i <= |src| && off == off0 + i && Valid() && Idle()
        invariant off0 <= f0.ino[inum].size ==> History(c, f0, fs.Value(), inum, off0, src, i)
        invariant Progress(f0, fs.Value(), inum, off0, src, i) && Paid(f0, fs.Value(), inum, off0, i)
        invariant i % CHUNK == 0 || i == |src|
      {
        var n1 := if |src| - i > CHUNK then CHUNK else |src| - i;
        ghost var g := fs.Value();
        ProgressSize(f0, g, inum, off0, src, i);
        var w;
        ghost var whole, tx;
        w, whole, tx := WriteTrans(src[i..i + n1]);
        if w.WriteRefused? { break; }
        if w.WritePanic? { FailsHere(c, g, inum, off0, src, i, n1, w.why, fs.quota); }
        if whole {
          DoneFacts(g, fs.Value(), inum, off0 + i, src[i..i + n1]);
          c := More(c, tx, fs.Value(), i + n1);
        }
        if w.WritePanic? {
          NothingOpen(fs.sb);
          if Small(fs.sb, fs.quota) { PanicIsTotal(f0, g, inum, off0, src, i, n1); }
          return i, Panic(w.why), c, if whole then [] else tx;
        }
        ProgressStep(f0, g, fs.Value(), inum, off0, src, i, n1);
        PaidStep(f0, g, fs.Value(), inum, off0, i, n1);
        i := i + n1;
      }
      ProgressSize(f0, fs.Value(), inum, off0, src, i);
      StopsAtAccepted(off0, |src|, f0.ino[inum].size, i);
      PaidEnd(f0, fs.Value(), inum, off0, src, i);
      return i, Done, c, [];
    }
  }

  /** The chunk after c panics, for a reason that the state before it shows. */
  ghost predicate ChunkFails(c: Chunks, i: nat, off: nat, src: seq<byte>, why: Reason, quota: nat) {
    var f, k := Latest(c), Bytes(c);
    && k < |src|
    && var n := if |src| - k > CHUNK then CHUNK else |src| - k;
    && Shape(f) && i in f.ino && off + k + n <= MAXBYTES
    && PanicMeans(f, i, off + k, n, true, why, quota)
  }

  /** The chunk that panicked is the next one, or the last one if it panicked while it committed. */
  ghost predicate SomeChunkFails(c: Chunks, i: nat, off: nat, src: seq<byte>, why: Reason, quota: nat) {
    ChunkFails(c, i, off, src, why, quota) || (c.More? && ChunkFails(c.before, i, off, src, why, quota))
  }

  lemma FailsHere(c: Chunks, f: Fs, i: nat, off: nat, src: seq<byte>, k: nat, n: nat, why: Reason, quota: nat)
    requires Latest(c) == f && Bytes(c) == k < |src| && n == if |src| - k > CHUNK then CHUNK else |src| - k
    requires FsInv(f) && i in f.ino && off + k + n <= MAXBYTES && PanicMeans(f, i, off + k, n, true, why, quota)
    ensures ChunkFails(c, i, off, src, why, quota)
  {
    hide PanicMeans;
  }

  /** The bytes of a write that fit in the file need more blocks than are free. */
  ghost predicate TooFewBlocks(f: Fs, i: nat, off: nat, n: nat) {
    && Shape(f) && i in f.ino && f.ino[i].size <= MAXBYTES && off <= f.ino[i].size
    && |FreeBlocks(f)| < NeededFor(f, i, off, Accepted(off, n, f.ino[i].size))
  }

  /** After k bytes exactly the blocks they need have been taken. */
  ghost predicate Paid(f: Fs, g: Fs, i: nat, off: nat, k: nat) {
    k > 0 || off <= MAXBYTES ==> off + k <= MAXBYTES && Charged(f, g, i, off / 512, Reach(off, off + k))
  }

  lemma PaidStart(f: Fs, i: nat, off: nat)
    requires FsInv(f) && i in f.ino
    ensures Paid(f, f, i, off, 0)
  {
    hide RefsMarked, RefsUnique, Reserved;
    if off <= MAXBYTES { ChargedNone(f, i, off / 512); }
  }

  lemma ReachOrder(off: nat, k: nat, n: nat)
    requires 0 < n
    ensures off / 512 <= (off + k) / 512 <= Reach(off, off + k) <= Reach(off, off + k + n)
    ensures Reach(off, off + k + n) == Reach(off + k, off + k + n)
  {
  }

  lemma PaidStep(f: Fs, g: Fs, h: Fs, i: nat, off: nat, k: nat, n: nat)
    requires Paid(f, g, i, off, k) && 0 < n && off + k + n <= MAXBYTES
    requires Charged(g, h, i, (off + k) / 512, Reach(off + k, off + k + n))
    ensures Paid(f, h, i, off, k + n)
  {
    hide Charged, Reach;
    ReachOrder(off, k, n);
    ChargedTrans(f, g, h, i, off / 512, (off + k) / 512, Reach(off, off + k), Reach(off, off + k + n));
  }

  /** A chunk that lacks blocks means that the whole write does. */
  lemma PanicIsTotal(f: Fs, g: Fs, i: nat, off: nat, src: seq<byte>, k: nat, n: nat)
    requires Progress(f, g, i, off, src, k) && Paid(f, g, i, off, k) && off <= f.ino[i].size
    requires 0 < n <= CHUNK && k + n <= |src| && off + k + n <= MAXBYTES && k % CHUNK == 0
    requires n == CHUNK || k + n == |src|
    requires |FreeBlocks(g)| < NeededFor(g, i, off + k, n)
    ensures TooFewBlocks(f, i, off, |src|)
  {
    hide Charged, Reach, FreeBlocks, WriteDone, NeededIn, Accepted, FsInv;
    ProgressSize(f, g, i, off, src, k);
    InvFacts(f, i);
    ReachOrder(off, k, n);
    var a := Accepted(off, |src|, f.ino[i].size);
    ChunkAccepted(off, |src|, f.ino[i].size, k, n);
    ReachGrows(off, k + n, a);
    NeededSplit(f, g, i, off / 512, (off + k) / 512, Reach(off, off + k), Reach(off, off + k + n));
    ChargedFree(f, g, i, off / 512, Reach(off, off + k));
    NeededGrows(f, i, off / 512, Reach(off, off + k + n), Reach(off, off + a));
  }

  lemma NothingOpen(sb: Super)
    requires sb.Ok()
    ensures OpenTx(sb, [])
  {
  }

  lemma InvFacts(f: Fs, i: nat)
    requires FsInv(f) && i in f.ino
    ensures Shape(f) && f.ino[i].size <= MAXBYTES
  {
  }

  lemma ChargedFree(f: Fs, g: Fs, i: nat, lo: nat, hi: nat)
    requires Charged(f, g, i, lo, hi)
    ensures |FreeBlocks(g)| + NeededIn(f, i, lo, hi) == |FreeBlocks(f)|
  {
  }

  lemma ReachGrows(off: nat, k: nat, a: nat)
    requires 0 < k <= a && off + a <= MAXBYTES
    ensures Reach(off, off + k) <= Reach(off, off + a) <= MAXFILE
  {
  }

  /** The chunks that fit are all accepted. */
  lemma ChunkAccepted(off: nat, n: nat, size: nat, k: nat, m: nat)
    requires off <= size <= MAXBYTES && 0 < m && k + m <= n && off + k + m <= MAXBYTES
    requires k % CHUNK == 0 && (m == CHUNK || k + m == n)
    ensures k + m <= Accepted(off, n, size)
  {
    if off + n > MAXBYTES {
      var q := k / CHUNK;
      assert k + m == CHUNK * (q + 1);
    }
  }

  lemma PaidEnd(f: Fs, g: Fs, i: nat, off: nat, src: seq<byte>, k: nat)
    requires Paid(f, g, i, off, k) && i in f.ino && f.ino[i].size <= MAXBYTES
    requires k == Accepted(off, |src|, f.ino[i].size)
    ensures !TooFewBlocks(f, i, off, |src|)
  {
    hide FreeBlocks, NeededIn, Reach;
  }

  /** The transactions of a write of k bytes that led from f to g. */
  ghost predicate History(c: Chunks, f: Fs, g: Fs, i: nat, off: nat, src: seq<byte>, k: nat) {
    First(c) == f && Latest(c) == g && Bytes(c) == k && ChunksOk(c, i, off, src)
  }

  /** After k bytes: those bytes are written, or the offset was past the end and nothing happened. */
  ghost predicate Progress(f: Fs, g: Fs, i: nat, off: nat, src: seq<byte>, k: nat) {
    && FsInv(f) && FsInv(g) && i in f.ino && i in g.ino && k <= |src|
    && if off <= f.ino[i].size then WriteDone(f, g, i, off, src[..k]) else k == 0 && g == f
  }

  lemma ProgressStart(f: Fs, i: nat, off: nat, src: seq<byte>)
    requires FsInv(f) && i in f.ino
    ensures Progress(f, f, i, off, src, 0)
  {
    if off <= f.ino[i].size { WriteNothing(f, i, off); }
  }

  lemma ProgressSize(f: Fs, g: Fs, i: nat, off: nat, src: seq<byte>, k: nat)
    requires Progress(f, g, i, off, src, k)
    ensures FsInv(g) && g.sb == f.sb && i in f.ino && i in g.ino && g.ino[i].typ == f.ino[i].typ
    ensures f.ino[i].size <= MAXBYTES && g.ino[i].size <= MAXBYTES
    ensures off <= f.ino[i].size ==> off + k <= g.ino[i].size
    ensures off > f.ino[i].size ==> k == 0 && g == f
  {
    hide RefsMarked, RefsUnique, Reserved, Flushed, Contents, Overwrite;
  }

  lemma ProgressStep(f: Fs, g: Fs, h: Fs, i: nat, off: nat, src: seq<byte>, k: nat, n: nat)
    requires Progress(f, g, i, off, src, k) && k + n <= |src| && WriteDone(g, h, i, off + k, src[k..k + n])
    ensures Progress(f, h, i, off, src, k + n)
  {
    hide FsInv, Contents;
    if off <= f.ino[i].size {
      WriteDoneTwice(f, g, h, i, off, src[..k], src[k..k + n]);
      assert src[..k] + src[k..k + n] == src[..k + n];
    }
  }

  lemma ProgressEnd(f: Fs, g: Fs, i: nat, off: nat, src: seq<byte>, k: nat)
    requires Progress(f, g, i, off, src, k)
    ensures if off <= f.ino[i].size then WriteDone(f, g, i, off, src[..k]) else g == f
  {
    hide WriteDone, FsInv;
  }

  lemma DoneFacts(f: Fs, g: Fs, i: nat, off: nat, data: seq<byte>)
    requires WriteDone(f, g, i, off, data)
    ensures FsInv(f) && FsInv(g) && g.sb == f.sb && i in g.ino && g.ino[i].typ == f.ino[i].typ
    ensures g.ino[i].size == Max(f.ino[i].size, off + |data|) && off <= f.ino[i].size && g.ino[i].size <= MAXBYTES
  {
  }
}
