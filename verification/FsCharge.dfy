/** What a write costs: free blocks, log sectors and buffers. */
module FsCharge {
  import opened Words
  import opened CacheSpec
  import opened FsLayout
  import opened FsState
  import opened FsMap
  import opened FsFile
  import opened Panics

  // ----- free blocks

  /** Number of file blocks from lo up to hi that have no disk block yet. */
  ghost function Missing(fs: Fs, i: nat, lo: nat, hi: nat): nat
    requires Shape(fs) && i in fs.ino && hi <= MAXFILE
  {
    if hi <= lo then 0 else Missing(fs, i, lo, hi - 1) + (if Addr(fs, i, hi - 1) == 0 then 1 else 0)
  }

  /** Blocks that must be allocated to map the file blocks from lo up to hi: the missing ones, and the indirect
      block if one of them needs it and it is missing. */
  ghost function NeededIn(fs: Fs, i: nat, lo: nat, hi: nat): nat
    requires Shape(fs) && i in fs.ino && hi <= MAXFILE
  {
    Missing(fs, i, lo, hi) + (if lo < hi && hi > NDIRECT && Ref(fs, i, INDIRECT) == 0 then 1 else 0)
  }

  /** The first file block beyond a write that began at `off` and has reached o. */
  function Reach(off: nat, o: nat): nat {
    if o == off then off / 512 else BlocksFor(o)
  }

  /** Blocks that a write of n bytes at `off` must allocate. */
  ghost function NeededFor(fs: Fs, i: nat, off: nat, n: nat): nat
    requires Shape(fs) && i in fs.ino && off + n <= MAXBYTES
  {
    NeededIn(fs, i, off / 512, Reach(off, off + n))
  }

  /** From f to g exactly the file blocks from lo up to hi were mapped, and exactly the needed blocks were taken. */
  ghost predicate Charged(f: Fs, g: Fs, i: nat, lo: nat, hi: nat) {
    && Shape(f) && Shape(g) && i in f.ino && i in g.ino && lo <= hi <= MAXFILE
    && |FreeBlocks(g)| + NeededIn(f, i, lo, hi) == |FreeBlocks(f)|
    && (forall b :: 0 <= b < MAXFILE ==> (Unmapped(g, i, b) <==> Unmapped(f, i, b) && !(lo <= b < hi)))
    && (Ref(g, i, INDIRECT) == 0 <==> Ref(f, i, INDIRECT) == 0 && !(lo < hi && hi > NDIRECT))
  }

  ghost predicate Unmapped(fs: Fs, i: nat, b: nat)
    requires Shape(fs) && i in fs.ino && b < MAXFILE
  {
    Addr(fs, i, b) == 0
  }

  lemma ChargedNone(f: Fs, i: nat, lo: nat)
    requires Shape(f) && i in f.ino && lo <= MAXFILE
    ensures Charged(f, f, i, lo, lo)
  {
  }

  /** Charges of adjacent or overlapping stretches add up. */
  lemma ChargedTrans(f: Fs, g: Fs, h: Fs, i: nat, lo: nat, at: nat, mid: nat, hi: nat)
    requires Charged(f, g, i, lo, mid) && Charged(g, h, i, at, hi) && lo <= at <= mid <= hi
    ensures Charged(f, h, i, lo, hi) && NeededIn(f, i, lo, hi) == NeededIn(f, i, lo, mid) + NeededIn(g, i, at, hi)
  {
    hide Ref, FreeBlocks, Addr;
    NeededSplit(f, g, i, lo, at, mid, hi);
    forall b | 0 <= b < MAXFILE ensures Unmapped(h, i, b) <==> Unmapped(f, i, b) && !(lo <= b < hi) {
      assert Unmapped(g, i, b) <==> Unmapped(f, i, b) && !(lo <= b < mid);
    }
  }

  lemma NeededSplit(f: Fs, g: Fs, i: nat, lo: nat, at: nat, mid: nat, hi: nat)
    requires Charged(f, g, i, lo, mid) && lo <= at <= mid <= hi <= MAXFILE
    ensures NeededIn(f, i, lo, hi) == NeededIn(f, i, lo, mid) + NeededIn(g, i, at, hi)
  {
    MissingSplit(f, g, i, lo, at, mid, hi);
  }

  lemma {:induction false} MissingSplit(f: Fs, g: Fs, i: nat, lo: nat, at: nat, mid: nat, hi: nat)
    requires Charged(f, g, i, lo, mid) && lo <= at <= mid <= hi <= MAXFILE
    ensures Missing(f, i, lo, hi) == Missing(f, i, lo, mid) + Missing(g, i, at, hi)
  {
    hide Ref, FreeBlocks, NeededIn;
    if hi > mid {
      MissingSplit(f, g, i, lo, at, mid, hi - 1);
      assert Unmapped(g, i, hi - 1) <==> Unmapped(f, i, hi - 1);
    } else {
      NoneMissing(g, i, at, mid);
    }
  }

  lemma {:induction false} NoneMissing(g: Fs, i: nat, lo: nat, hi: nat)
    requires Shape(g) && i in g.ino && hi <= MAXFILE && forall b :: lo <= b < hi ==> !Unmapped(g, i, b)
    ensures Missing(g, i, lo, hi) == 0
  {
    if lo < hi {
      NoneMissing(g, i, lo, hi - 1);
      assert !Unmapped(g, i, hi - 1);
    }
  }

  lemma {:induction false} NeededGrows(fs: Fs, i: nat, lo: nat, mid: nat, hi: nat)
    requires Shape(fs) && i in fs.ino && mid <= hi <= MAXFILE
    ensures NeededIn(fs, i, lo, mid) <= NeededIn(fs, i, lo, hi)
    decreases hi
  {
    if mid < hi { NeededGrows(fs, i, lo, mid, hi - 1); }
  }

  /** bmap of one block charges for that block. */
  lemma MappedCharged(fs: Fs, g: Fs, i: nat, bn: nat, addr: nat)
    requires Owned(fs) && Mapped(fs, g, i, bn, addr)
    ensures Charged(fs, g, i, bn, bn + 1)
  {
    hide FreeBlocks, GetWord;
    NeededOne(fs, i, bn);
    forall b | 0 <= b < MAXFILE ensures Unmapped(g, i, b) <==> Unmapped(fs, i, b) && !(bn <= b < bn + 1) {
      assert Ref(g, i, SlotOf(b)) == Ref(fs, i, SlotOf(b)) || (Ref(fs, i, SlotOf(b)) == 0 && SlotOf(b) == SlotOf(bn));
    }
  }

  /** Writing a block that is no indirect block and no bitmap block costs nothing. */
  lemma SameMapCharged(f: Fs, g: Fs, h: Fs, i: nat, lo: nat, hi: nat)
    requires Charged(f, g, i, lo, hi) && Shape(h) && h.sb == g.sb && i in h.ino
    requires forall k :: 0 <= k < SLOTS ==> Ref(h, i, k) == Ref(g, i, k)
    requires FreeBlocks(h) == FreeBlocks(g)
    ensures Charged(f, h, i, lo, hi)
  {
    hide Ref, FreeBlocks, NeededIn;
    forall b | 0 <= b < MAXFILE ensures Unmapped(h, i, b) <==> Unmapped(g, i, b) {}
  }

  /** Why a round did not get its blocks: a round after f was charged up to bn runs out only if the whole write does. */
  lemma OutOfBlocksMeans(f: Fs, g: Fs, i: nat, lo: nat, bn: nat, hi: nat)
    requires Charged(f, g, i, lo, bn) && bn < hi <= MAXFILE && |FreeBlocks(g)| < NeededIn(g, i, bn, bn + 1)
    ensures |FreeBlocks(f)| < NeededIn(f, i, lo, hi)
  {
    hide FreeBlocks, NeededIn;
    NeededSplit(f, g, i, lo, bn, bn, bn + 1);
    NeededGrows(f, i, lo, bn + 1, hi);
  }

  lemma NeededOne(fs: Fs, i: nat, bn: nat)
    requires Shape(fs) && i in fs.ino && bn < MAXFILE
    ensures NeededIn(fs, i, bn, bn + 1) == Needed(fs, i, bn)
  {
    assert Missing(fs, i, bn, bn) == 0;
    if Ref(fs, i, INDIRECT) == 0 && bn >= NDIRECT { assert Addr(fs, i, bn) == 0; }
  }

  /** bmap and then overwriting the block charges for that block. */
  lemma ChunkCharged(fs: Fs, g: Fs, i: nat, bn: nat, addr: nat, data: Block)
    requires Owned(fs) && Mapped(fs, g, i, bn, addr)
    ensures addr < |g.view| && Charged(fs, g.(view := g.view[addr := data]), i, bn, bn + 1)
  {
    hide Used, GetWord, FreeBlocks, Ref, RefsMarked, RefsUnique, Reserved, Mapped, Charged;
    MappedFacts(fs, g, i, bn, addr);
    MappedCharged(fs, g, i, bn, addr);
    DataWrite(g, i, SlotOf(bn), data);
    DataWriteKeepsFree(g, addr, data);
    SameMapCharged(fs, g, g.(view := g.view[addr := data]), i, bn, bn + 1);
  }

  // ----- rounds of writei

  /** One round moves on by one block. */
  lemma NextRound(off: nat, o: nat, m: nat, n: nat)
    requires off <= o < off + n && (o == off || o % 512 == 0)
    requires m == (if off + n - o < 512 - o % 512 then off + n - o else 512 - o % 512)
    ensures Reach(off, o) == o / 512 && Reach(off, o + m) == o / 512 + 1 <= Reach(off, off + n)
    ensures o + m < off + n ==> (o + m) % 512 == 0
    ensures off + n <= MAXBYTES ==> Reach(off, off + n) <= MAXFILE
  {
  }

  // ----- log sectors and buffers

  /** A transaction that began empty has logged the data blocks D, the indirect block and bitmap blocks only. */
  ghost predicate Account(fs: Fs, g: Fs, logged: seq<nat>, i: nat, D: set<nat>) {
    && Shape(fs) && Shape(g) && g.sb == fs.sb && i in fs.ino && i in g.ino
    && (fs.ino[i].addrs[INDIRECT] != 0 ==> g.ino[i].addrs[INDIRECT] == fs.ino[i].addrs[INDIRECT])
    && LogBudget(fs.sb, logged, g.ino[i].addrs[INDIRECT], D)
  }

  /** Why a round that logged from `was` to `now` stopped, if not for want of blocks. With two buffers held it
      has not logged its data block yet. */
  ghost predicate Stuck(sb: Super, was: seq<nat>, now: seq<nat>, ind: nat, why: Reason, quota: nat)
    requires sb.Ok()
  {
    match why
    case TransactionTooBig => |now| >= sb.Log().Capacity()
    case OutOfBuffers =>
      |now| + 1 + quota >= NBUF || (|now| + 2 + quota >= NBUF && LogGrows(sb, was, now, Indirect(ind)))
    case _ => false
  }

  lemma AccountStart(fs: Fs, i: nat, off: nat)
    requires Shape(fs) && i in fs.ino && off <= MAXBYTES
    ensures Account(fs, fs, [], i, {}) && Charged(fs, fs, i, off / 512, Reach(off, off)) && Reach(off, off) == off / 512
  {
    ChargedNone(fs, i, off / 512);
  }

  /** The round's sectors keep the transaction within its budget, whether or not its last log_write happened. */
  lemma AccountStep(fs: Fs, g: Fs, h: Fs, was: seq<nat>, now: seq<nat>, i: nat, D: set<nat>, addr: nat)
    requires Account(fs, g, was, i, D) && Shape(h) && h.sb == g.sb && i in h.ino
    requires g.ino[i].addrs[INDIRECT] != 0 ==> h.ino[i].addrs[INDIRECT] == g.ino[i].addrs[INDIRECT]
    requires LogGrows(fs.sb, was, now, Touched(addr, h.ino[i].addrs[INDIRECT]))
    ensures Account(fs, h, now, i, D + {addr}) && |D + {addr}| <= |D| + 1
  {
    BudgetStep(fs.sb, was, now, g.ino[i].addrs[INDIRECT], h.ino[i].addrs[INDIRECT], addr, D);
  }

  /** On a file system with one bitmap block the data blocks bound the transaction. */
  lemma AccountSize(fs: Fs, g: Fs, logged: seq<nat>, i: nat, D: set<nat>)
    requires Account(fs, g, logged, i, D) && fs.sb.size < BPB
    ensures |logged| <= |D| + 2
  {
    BudgetSize(fs.sb, logged, g.ino[i].addrs[INDIRECT], D);
  }

  /** A round that got stuck after |D| data blocks had |D| + 3 sectors logged or |D| + 4 pinned. */
  lemma AccountStuck(fs: Fs, g: Fs, was: seq<nat>, now: seq<nat>, i: nat, D: set<nat>, addr: nat, ind: nat,
                     why: Reason, quota: nat)
    requires Account(fs, g, was, i, D) && fs.sb.size < BPB
    requires g.ino[i].addrs[INDIRECT] != 0 ==> ind == g.ino[i].addrs[INDIRECT]
    requires LogGrows(fs.sb, was, now, Touched(addr, ind)) && Stuck(fs.sb, was, now, ind, why, quota)
    ensures why == TransactionTooBig || why == OutOfBuffers
    ensures why == TransactionTooBig ==> |D| + 3 >= fs.sb.Log().Capacity()
    ensures why == OutOfBuffers ==> |D| + 4 + quota >= NBUF
  {
    BudgetStep(fs.sb, was, now, g.ino[i].addrs[INDIRECT], ind, addr, D);
    BudgetSize(fs.sb, now, ind, D + {addr});
    if LogGrows(fs.sb, was, now, Indirect(ind)) {
      assert LogBudget(fs.sb, now, ind, D);
      BudgetSize(fs.sb, now, ind, D);
    }
  }

  // ----- why writei panics

  /** The number of data blocks of a write of n bytes at `off`. */
  function Span(off: nat, n: nat): int {
    Reach(off, off + n) - off / 512
  }

  /** A write of n bytes at `off` panicked: too few blocks were free, or, in a transaction that began empty on a file
      system with one bitmap block, its data, indirect, bitmap and inode blocks overflow the log or the cache. */
  ghost predicate PanicMeans(fs: Fs, i: nat, off: nat, n: nat, empty: bool, why: Reason, quota: nat)
    requires Shape(fs) && i in fs.ino && off + n <= MAXBYTES
  {
    match why
    case OutOfBlocks => |FreeBlocks(fs)| < NeededFor(fs, i, off, n)
    case TransactionTooBig => empty && fs.sb.size < BPB ==> Span(off, n) + 2 >= fs.sb.Log().Capacity()
    case OutOfBuffers => empty && fs.sb.size < BPB ==> Span(off, n) + 3 + quota >= NBUF
    case _ => false
  }

  lemma StuckWhy(sb: Super, was: seq<nat>, now: seq<nat>, ind: nat, why: Reason, quota: nat)
    requires sb.Ok() && Stuck(sb, was, now, ind, why, quota)
    ensures why == TransactionTooBig || why == OutOfBuffers
    ensures if why == TransactionTooBig then |now| >= sb.Log().Capacity() else |now| + 2 + quota >= NBUF
  {
  }

  // ----- writei's loop

  /** After tot bytes of a write at `off` that began at fs with `was` logged: what is written, mapped, taken and logged.
      D are the data blocks logged so far. */
  ghost predicate WriteSoFar(fs: Fs, was: seq<nat>, g: Fs, now: seq<nat>, i: nat, off: nat, src: seq<byte>, tot: nat,
                             D: set<nat>)
  {
    && tot <= |src| && off + |src| <= MAXBYTES && (tot == 0 || tot == |src| || (off + tot) % 512 == 0)
    && Updated(fs, g, i, off, src[..tot]) && Charged(fs, g, i, off / 512, Reach(off, off + tot))
    && (BelowLog(fs.sb, was) ==> BelowLog(fs.sb, now))
    && (NoHoles(fs, i) && off + tot <= 512 * BlocksFor(fs.ino[i].size) ==> g.ino == fs.ino)
    && (was == [] ==> Account(fs, g, now, i, D) && |D| <= Reach(off, off + tot) - off / 512)
  }

  lemma WriteStart(fs: Fs, logged: seq<nat>, i: nat, off: nat, src: seq<byte>)
    requires Owned(fs) && i in fs.ino && off + |src| <= MAXBYTES
    ensures WriteSoFar(fs, logged, fs, logged, i, off, src, 0, {})
  {
    hide Updated, Charged, NoHoles, RefsMarked, RefsUnique, Reserved;
    UpdatedNone(fs, i, off);
    AccountStart(fs, i, off);
  }

  /** What a round may rely on. */
  lemma WriteReady(fs: Fs, was: seq<nat>, g: Fs, now: seq<nat>, i: nat, off: nat, src: seq<byte>, tot: nat, D: set<nat>)
    requires WriteSoFar(fs, was, g, now, i, off, src, tot, D) && tot < |src|
    ensures Shape(fs) && Owned(g) && g.sb == fs.sb && i in g.ino && i in fs.ino && off + tot < MAXBYTES
    ensures NoHoles(fs, i) && off + tot < 512 * BlocksFor(fs.ino[i].size) ==> Addr(g, i, (off + tot) / 512) != 0
  {
    hide Updated, Charged, RefsMarked, RefsUnique, Reserved, NoHoles, Account, BlocksFor;
    UpdatedFacts(fs, g, i, off, src[..tot]);
    if NoHoles(fs, i) && off + tot < 512 * BlocksFor(fs.ino[i].size) {
      StillMapped(fs, g, i, off, src[..tot], off + tot);
    }
  }

  /** A round that stopped: the whole write did, and for that reason. */
  lemma WriteStuck(fs: Fs, was: seq<nat>, g: Fs, now: seq<nat>, later: seq<nat>, i: nat, off: nat, src: seq<byte>,
                   tot: nat, D: set<nat>, addr: nat, ind: nat, why: Reason, quota: nat)
    requires WriteSoFar(fs, was, g, now, i, off, src, tot, D) && tot < |src| && i in g.ino && |g.ino[i].addrs| == ADDRS
    requires g.ino[i].addrs[INDIRECT] != 0 ==> ind == g.ino[i].addrs[INDIRECT]
    requires LogGrows(fs.sb, now, later, Touched(addr, ind)) && addr < fs.sb.LogStart() && ind < fs.sb.LogStart()
    requires Shape(fs) && Shape(g) && (off + tot) / 512 < MAXFILE
    requires if why == OutOfBlocks then |FreeBlocks(g)| < NeededIn(g, i, (off + tot) / 512, (off + tot) / 512 + 1)
             else Stuck(fs.sb, now, later, ind, why, quota)
    ensures i in fs.ino && PanicMeans(fs, i, off, |src|, was == [], why, quota)
    ensures BelowLog(fs.sb, was) ==> BelowLog(fs.sb, later)
    ensures why == TransactionTooBig ==> |later| >= fs.sb.Log().Capacity()
    ensures why == OutOfBuffers ==> |later| + 2 + quota >= NBUF
  {
    hide Updated, Charged, FreeBlocks, NeededIn, Account, LogGrows, Stuck, Ref, Reach, BelowLog, NoHoles;
    var o, first := off + tot, was == [];
    NextRound(off, o, if |src| - tot < 512 - o % 512 then |src| - tot else 512 - o % 512, |src|);
    ChargedFacts(fs, g, i, off / 512, o / 512);
    if BelowLog(fs.sb, now) { BelowLogGrows(fs.sb, now, later, addr, ind); }
    if why == OutOfBlocks {
      OutOfBlocksMeans(fs, g, i, off / 512, o / 512, Reach(off, off + |src|));
    } else {
      StuckWhy(fs.sb, now, later, ind, why, quota);
      if first && fs.sb.size < BPB { AccountStuck(fs, g, now, later, i, D, addr, ind, why, quota); }
    }
  }

  /** One more round. */
  lemma WriteNext(fs: Fs, was: seq<nat>, g: Fs, now: seq<nat>, h: Fs, later: seq<nat>, i: nat, off: nat, src: seq<byte>,
                  tot: nat, m: nat, D: set<nat>, addr: nat)
    requires WriteSoFar(fs, was, g, now, i, off, src, tot, D) && tot < |src|
    requires m == if |src| - tot < 512 - (off + tot) % 512 then |src| - tot else 512 - (off + tot) % 512
    requires Updated(g, h, i, off + tot, src[tot..tot + m])
    requires Charged(g, h, i, (off + tot) / 512, (off + tot) / 512 + 1)
    requires Shape(g) && i in g.ino && (off + tot) / 512 < MAXFILE
    requires Addr(g, i, (off + tot) / 512) != 0 ==> h.ino == g.ino
    requires Shape(h) && i in h.ino && LogGrows(fs.sb, now, later, Touched(addr, h.ino[i].addrs[INDIRECT]))
    requires addr < fs.sb.LogStart() && h.ino[i].addrs[INDIRECT] < fs.sb.LogStart()
    requires g.ino[i].addrs[INDIRECT] != 0 ==> h.ino[i].addrs[INDIRECT] == g.ino[i].addrs[INDIRECT]
    ensures WriteSoFar(fs, was, h, later, i, off, src, tot + m, D + {addr})
  {
    hide Updated, Charged, Account, LogGrows, Touched, BelowLog, RefsMarked, RefsUnique, Reserved, NoHoles, BlocksFor;
    hide Reach, Addr, Ref;
    NextRound(off, off + tot, m, |src|);
    WriteReady(fs, was, g, now, i, off, src, tot, D);
    RoundWritten(fs, g, h, i, off, src, tot, m);
    if BelowLog(fs.sb, now) { BelowLogGrows(fs.sb, now, later, addr, h.ino[i].addrs[INDIRECT]); }
    if was == [] { AccountStep(fs, g, h, now, later, i, D, addr); }
    TopReached(off + tot, m, fs.ino[i].size);
  }

  lemma RoundWritten(fs: Fs, g: Fs, h: Fs, i: nat, off: nat, src: seq<byte>, tot: nat, m: nat)
    requires tot + m <= |src| && Updated(fs, g, i, off, src[..tot]) && Updated(g, h, i, off + tot, src[tot..tot + m])
    requires var bn := (off + tot) / 512; Charged(fs, g, i, off / 512, bn) && Charged(g, h, i, bn, bn + 1)
    ensures h.sb == g.sb == fs.sb
    ensures Updated(fs, h, i, off, src[..tot + m]) && Charged(fs, h, i, off / 512, (off + tot) / 512 + 1)
  {
    hide Updated, Charged, RefsMarked, RefsUnique, Reserved;
    var bn := (off + tot) / 512;
    UpdatedFacts(fs, g, i, off, src[..tot]);
    UpdatedFacts(g, h, i, off + tot, src[tot..tot + m]);
    UpdatedTrans(fs, g, h, i, off, src[..tot], src[tot..tot + m]);
    assert src[..tot] + src[tot..tot + m] == src[..tot + m];
    ChargedFacts(fs, g, i, off / 512, bn);
    ChargedTrans(fs, g, h, i, off / 512, bn, bn, bn + 1);
  }

  lemma TopReached(o: nat, m: nat, size: nat)
    ensures m > 0 && o + m <= 512 * BlocksFor(size) ==> o < 512 * BlocksFor(size)
  {
  }

  lemma WriteEnd(fs: Fs, was: seq<nat>, g: Fs, now: seq<nat>, i: nat, off: nat, src: seq<byte>, D: set<nat>)
    requires WriteSoFar(fs, was, g, now, i, off, src, |src|, D)
    ensures Updated(fs, g, i, off, src) && Charged(fs, g, i, off / 512, Reach(off, off + |src|))
    ensures BelowLog(fs.sb, was) ==> BelowLog(fs.sb, now)
    ensures Shape(fs) && i in fs.ino
    ensures NoHoles(fs, i) && off + |src| <= 512 * BlocksFor(fs.ino[i].size) ==> g.ino == fs.ino
    ensures was == [] && fs.sb.size < BPB ==> |now| <= Span(off, |src|) + 2
  {
    hide Updated, Charged, Account, BelowLog, NoHoles, RefsMarked, RefsUnique, Reserved;
    assert src[..|src|] == src;
    UpdatedFacts(fs, g, i, off, src);
    if was == [] && fs.sb.size < BPB { AccountSize(fs, g, now, i, D); }
  }

  /** Setting the size and flushing the inode costs nothing. */
  lemma FlushCharged(f: Fs, g: Fs, i: nat, lo: nat, hi: nat, n: nat)
    requires Charged(f, g, i, lo, hi) && Owned(g) && n <= MAXBYTES
    ensures var h := WithSize(g, i, n);
            Shape(h) && h.sb.InodeBlock(i) < |h.view| && Charged(f, FlushInode(h, i), i, lo, hi)
  {
    hide Charged, Ref, FreeBlocks, PutInode, RefsMarked, RefsUnique, Reserved;
    assert Shape(g) && i in g.ino by { ChargedFacts(f, g, i, lo, hi); }
    var h := WithSize(g, i, n);
    ResizeKeepsMap(g, i, n);
    InodeWrite(h, i);
    var s := h.sb.InodeBlock(i);
    MetaWrite(h, s, PutInode(h.view[s], i, h.ino[i]));
    MetaWriteFree(g, h, s, PutInode(h.view[s], i, h.ino[i]));
    SameMapCharged(f, g, FlushInode(h, i), i, lo, hi);
  }

  lemma ChargedFacts(f: Fs, g: Fs, i: nat, lo: nat, hi: nat)
    requires Charged(f, g, i, lo, hi)
    ensures Shape(f) && Shape(g) && i in f.ino && i in g.ino && lo <= hi <= MAXFILE
    ensures NeededIn(f, i, lo, hi) <= |FreeBlocks(f)|
  {
  }

  lemma MetaWriteFree(g: Fs, h: Fs, s: nat, data: Block)
    requires Shape(g) && Shape(h) && h.sb == g.sb && h.view == g.view && s < g.sb.ninodes / IPB + 3
    ensures FreeBlocks(h.(view := h.view[s := data])) == FreeBlocks(g)
  {
    var f := h.(view := h.view[s := data]);
    forall c: nat | c < g.sb.size ensures Used(f, c) == Used(g, c) {}
  }
}
