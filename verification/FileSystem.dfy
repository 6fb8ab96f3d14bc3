/** fs.c: block allocation, block maps and file contents, inside a transaction. */
module FileSystem {
  import opened Lists
  import opened Words
  import opened LogSpec
  import opened CacheSpec
  import opened FsLayout
  import opened FsState
  import opened FsMap
  import opened FsFile
  import opened FsOnDisk
  import opened FsCharge
  import opened FsTrunc
  import opened Panics

  const T_DEV := 3

  /** What writei returns: a count, -1, or nothing at all. */
  datatype WriteResult = Wrote(n: nat) | WriteRefused | WritePanic(why: Reason)

  datatype ReadResult = Read(data: seq<byte>) | ReadRefused | ReadPanic(why: Reason)

  class FileSystem {
    const sb: Super
    /** The sectors whose buffers other processes hold at each moment, and a bound on their number. */
    const others: nat -> set<nat>
    const quota: nat
    var now: nat
    /** Logical disk content: cached copy if there is one, else the disk. */
    var view: Disk
    /** Sectors logged by the open transaction. */
    var logged: seq<nat>
    var ino: map<nat, Inode>
    /** The content when the transaction began, and the log_write calls it has made since. */
    ghost var base: Disk
    ghost var writes: Tx

    constructor (sb: Super, view: Disk, ino: map<nat, Inode>, others: nat -> set<nat>, quota: nat)
      requires sb.Ok() && forall t: nat :: |others(t)| <= quota
      ensures this.sb == sb && this.view == view && this.ino == ino && this.others == others && this.quota == quota
      ensures logged == [] && Traced() && base == view && writes == [] && now == 0
    {
      this.sb, this.view, this.ino, this.logged := sb, view, ino, [];
      this.others, this.quota, now := others, quota, 0;
      base, writes := view, [];
    }

    ghost predicate Bounded() {
      forall t: nat :: |others(t)| <= quota
    }

    /** The content is what the transaction began with plus its writes, and they fit in the log. */
    ghost predicate Traced()
      reads this`view, this`logged, this`base, this`writes
    {
      Bounded() && sb.Ok() && Transaction(sb, base, writes, view, logged)
    }

    ghost function Value(): Fs
      reads this
    {
      Fs(sb, view, ino)
    }

    ghost predicate Valid()
      reads this
    {
      Owned(Value())
    }

    /** The panic test of log_write: the transaction has no room left. */
    predicate TooBig()
      requires sb.Ok()
      reads this`logged
    {
      |logged| >= 10 || |logged| >= sb.nlog - 1
    }

    /** A panic for want of log or cache space means that there is none. */
    ghost predicate Overflows(why: Reason)
      requires sb.Ok()
      reads this`logged
    {
      && (why == TransactionTooBig ==> |logged| >= sb.Log().Capacity())
      && (why == OutOfBuffers ==> |logged| + 2 + quota >= NBUF)
    }

    /** The sectors that cannot leave the cache while we hold H: those logged, held by us, or held by others. */
    function Pinned(H: set<nat>): set<nat>
      reads this
    {
      PinnedAt(now, H)
    }

    function PinnedAt(t: nat, H: set<nat>): set<nat>
      reads this`logged
    {
      Elems(logged) + H + others(t)
    }

    /** At moment t, holding H, there is no buffer to read block s with. */
    ghost predicate NoBuffer(t: nat, H: set<nat>, s: nat)
      reads this`logged
    {
      s !in PinnedAt(t, H) && |PinnedAt(t, H)| >= NBUF
    }

    lemma PinnedSize(H: set<nat>)
      requires Bounded()
      ensures |Pinned(H)| <= |logged| + |H| + quota
    {
      ElemsSize(logged);
      var L := Elems(logged);
      assert |L + H| <= |L| + |H| && |L + H + others(now)| <= |L + H| + |others(now)|;
    }

    /** bread while holding H, as the layers below provide it. */
    method Hold(s: nat, H: set<nat>) returns (r: Outcome)
      requires Bounded()
      modifies this`now
      ensures r == if old(NoBuffer(now, H, s)) then Panic(OutOfBuffers) else Done
      ensures r.Panic? ==> |logged| + |H| + quota >= NBUF
      ensures now == old(now) + 1
    {
      PinnedSize(H);
      var full := s !in Pinned(H) && |Pinned(H)| >= NBUF;
      now := now + 1;
      return if full then Panic(OutOfBuffers) else Done;
    }

    /** log_write of sector s while holding H, as the layers below provide it. */
    method LogWrite(s: nat, data: Block, H: set<nat>) returns (r: Outcome)
      requires Traced() && s < |view| && s in H
      modifies this`view, this`logged, this`writes, this`now
      ensures Traced()
      ensures r == if old(TooBig()) then Panic(TransactionTooBig)
                   else if |old(Pinned(H))| >= NBUF then Panic(OutOfBuffers) else Done
      ensures r.Panic? ==> view == old(view) && logged == old(logged)
      ensures r == Panic(OutOfBuffers) ==> |logged| + |H| + quota >= NBUF
      ensures r.Done? ==> view == old(view)[s := data] && logged == Record(old(logged), s)
      ensures r.Done? ==> writes == old(writes) + [Write(s, data)]
      ensures !old(TooBig()) ==> now == old(now) + 1
    {
      if |logged| >= LOGSIZE || |logged| >= sb.nlog - 1 { return Panic(TransactionTooBig); }
      PinnedSize(H);
      var full := |Pinned(H)| >= NBUF;
      now := now + 1;
      if full { return Panic(OutOfBuffers); }
      TransactionGrows(sb, base, writes, view, logged, s, data);
      view := view[s := data];
      logged := Record(logged, s);
      writes := writes + [Write(s, data)];
      return Done;
    }

    /** commit_trans, as the layers below provide it: the next transaction begins here. */
    method Commit() returns (r: Outcome)
      requires Traced()
      modifies this`logged, this`base, this`writes, this`now
      ensures r == if old(logged) != [] && |old(Pinned({}))| >= NBUF then Panic(OutOfBuffers) else Done
      ensures r.Panic? ==>
                |logged| + quota >= NBUF && writes == old(writes) && base == old(base) && logged == old(logged)
      ensures Traced() && (r.Done? ==> logged == [] && writes == [] && base == view)
    {
      PinnedSize({});
      var full := logged != [] && |Pinned({})| >= NBUF;
      now := now + 1;
      if full { return Panic(OutOfBuffers); }
      logged, base, writes := [], view, [];
      return Done;
    }

    /** Scan of one bitmap block for a clear bit, up to the end of the disk. */
    method FindClear(b: nat) returns (bi: nat)
      requires Shape(Value()) && b % BPB == 0 && b < sb.size
      ensures bi <= BPB && b + bi <= sb.size
      ensures forall c: nat :: b <= c < b + bi ==> Used(Value(), c)
      ensures bi < BPB && b + bi < sb.size ==> !Used(Value(), b + bi)
    {
      hide Used, TestBit;
      bi := 0;
      while bi < BPB && b + bi < sb.size
        invariant 0 <= bi <= BPB && b + bi <= sb.size
        invariant forall c: nat :: b <= c < b + bi ==> Used(Value(), c)
      {
        BitAt(Value(), b, bi);
        if !TestBit(view[sb.BitmapBlock(b)][bi / 8], bi % 8) { return; }
        bi := bi + 1;
      }
    }

    /** What a panic of balloc, called while h buffers are held, says; only bitmap blocks have been logged. */
    ghost predicate AllocFails(fs: Fs, was: seq<nat>, h: nat, why: Reason)
      requires Shape(fs) && fs.sb == sb
      reads this`logged
    {
      && LogGrows(sb, was, logged, {})
      && match why
         case OutOfBlocks => Full(fs)
         case TransactionTooBig => |logged| >= sb.Log().Capacity()
         case OutOfBuffers => |logged| + h + 1 + quota >= NBUF
         case _ => false
    }

    /** balloc: the lowest free block, marked and zeroed. */
    method Balloc(H: set<nat>) returns (r: Outcome, b: nat)
      requires Shape(Value())
      requires Traced()
      modifies this`view, this`logged, this`writes, this`now
      ensures Traced()
      ensures r.Done? ==>
                && b < sb.size && !Used(old(Value()), b)
                && (forall c: nat :: c < b ==> Used(old(Value()), c))
                && Value() == Grab(old(Value()), b) && LogGrows(sb, old(logged), logged, {b}) && Zeroed(view, b)
      ensures r.Panic? ==> AllocFails(old(Value()), old(logged), |H|, r.why)
    {
      hide Used, Grab, LogGrows, Pinned, PinnedAt, NoBuffer, Bounded, Transaction, Zeroed;
      ghost var fs := Value();
      LogGrowsSelf(sb, logged, {});
      r := Hold(1, H);
      if r.Panic? { return r, 0; }
      b := 0;
      while b < sb.size
        invariant Traced()
        invariant b % BPB == 0
        invariant Value() == fs && logged == old(logged)
        invariant forall c: nat :: c < b && c < sb.size ==> Used(fs, c)
        decreases sb.size - b
      {
        r := Hold(sb.BitmapBlock(b), H);
        if r.Panic? { return; }
        var bi := FindClear(b);
        if bi < BPB && b + bi < sb.size {
          r := TakeBlock(b + bi, H);
          return r, b + bi;
        }
        b := b + BPB;
      }
      return Panic(OutOfBlocks), 0;
    }

    /** Mark block b in the bitmap and zero it, both through the log. */
    method TakeBlock(b: nat, H: set<nat>) returns (r: Outcome)
      requires Shape(Value()) && b < sb.size
      requires Traced()
      modifies this`view, this`logged, this`writes, this`now
      ensures Traced()
      ensures r.Done? ==> Value() == Grab(old(Value()), b) && LogGrows(sb, old(logged), logged, {b}) && Zeroed(view, b)
      ensures r.Panic? ==> r.why != OutOfBlocks && AllocFails(old(Value()), old(logged), |H|, r.why)
    {
      hide Used, Pinned, PinnedAt, NoBuffer, Bounded, Transaction, PutBitmap, Zero, LogGrows, Full, Record;
      var bb := sb.BitmapBlock(b);
      ghost var was := logged;
      assert |H + {bb}| <= |H| + 1 && |H + {b}| <= |H| + 1;
      TakeLogs(sb, was, b);
      r := LogWrite(bb, PutBitmap(view[bb], b % BPB, true), H + {bb});
      if r.Panic? { return; }
      r := Hold(b, H);
      if r.Panic? { return; }
      ZeroBytes();
      r := LogWrite(b, Zero(), H + {b});
    }

    /** bmap on a direct block. */
    method BmapDirect(i: nat, bn: nat) returns (r: Outcome, addr: nat)
      requires Valid() && i in ino && bn < NDIRECT
      requires Traced()
      modifies this`view, this`logged, this`writes, this`ino, this`now
      ensures Traced()
      ensures Addr(old(Value()), i, bn) != 0 ==> r.Done? && logged == old(logged)
      ensures r.Panic? ==> AllocFails(old(Value()), old(logged), 0, r.why)
      ensures r.Done? ==> Mapped(old(Value()), Value(), i, bn, addr)
      ensures r.Done? ==> i in ino && LogGrows(sb, old(logged), logged, {addr})
    {
      hide Used, Grab, GetWord, Allocated, Mapped, FreeBlocks, LogGrows, AllocFails;
      addr := ino[i].addrs[bn];
      assert addr == Addr(Value(), i, bn);
      if addr == 0 {
        ghost var fs := Value();
        r, addr := Balloc({});
        if r.Panic? { return; }
        AllocInInode(fs, i, bn, addr);
        ino := ino[i := ino[i].(addrs := ino[i].addrs[bn := addr])];
        AllocMapped(fs, Value(), i, bn, addr);
        return;
      }
      MappedSelf(Value(), i, bn);
      LogGrowsSelf(sb, logged, {addr});
      return Done, addr;
    }

    /** bmap's first half beyond the direct blocks: load the indirect block, allocating if necessary. */
    method EnsureIndirect(i: nat, bn: nat) returns (r: Outcome, a: nat)
      requires Valid() && i in ino && NDIRECT <= bn < MAXFILE
      requires Traced()
      modifies this`view, this`logged, this`writes, this`ino, this`now
      ensures Traced()
      ensures r.Panic? ==> Ref(old(Value()), i, INDIRECT) == 0 && AllocFails(old(Value()), old(logged), 0, r.why)
      ensures r.Done? ==>
                && Valid() && i in ino && Extends(old(Value()), Value(), i, bn)
                && a == ino[i].addrs[INDIRECT] != 0
                && (Ref(old(Value()), i, INDIRECT) != 0 ==> Value() == old(Value()) && logged == old(logged))
                && (Ref(old(Value()), i, INDIRECT) == 0 ==> |FreeBlocks(Value())| + 1 == |FreeBlocks(old(Value()))|)
                && Addr(Value(), i, bn) == Addr(old(Value()), i, bn)
                && LogGrows(sb, old(logged), logged, {a})
    {
      hide Used, Grab, GetWord, Extends, FreeBlocks, LogGrows, AllocFails;
      ghost var fs := Value();
      a := ino[i].addrs[INDIRECT];
      assert a == Ref(fs, i, INDIRECT);
      if a == 0 {
        r, a := Balloc({});
        if r.Panic? { return; }
        AllocInInode(fs, i, INDIRECT, a);
        ino := ino[i := ino[i].(addrs := ino[i].addrs[INDIRECT := a])];
        AllocatedKeepsOwned(fs, Value(), i, INDIRECT, a);
        AllocatedExtends(fs, Value(), i, INDIRECT, a, bn);
        AllocatedFree(fs, Value(), i, INDIRECT, a);
        return;
      }
      ExtendsSelf(fs, i, bn);
      LogGrowsSelf(sb, logged, {a});
      return Done, a;
    }

    /** bmap's second half: the entry of the indirect block a, allocating if necessary. The block a stays held. */
    method MapEntry(i: nat, bn: nat, a: nat) returns (r: Outcome, addr: nat)
      requires Valid() && i in ino && NDIRECT <= bn < MAXFILE && a == ino[i].addrs[INDIRECT] != 0
      requires Traced()
      modifies this`view, this`logged, this`writes, this`ino, this`now
      ensures Traced()
      ensures Addr(old(Value()), i, bn) != 0 ==> Value() == old(Value()) && logged == old(logged)
      ensures r.Panic? && Addr(old(Value()), i, bn) != 0 ==> r.why == OutOfBuffers && |logged| + quota >= NBUF
      ensures r.Panic? && r.why == OutOfBlocks ==> Full(old(Value()))
      ensures r.Panic? && r.why != OutOfBlocks ==> Stuck(sb, old(logged), logged, a, r.why, quota)
      ensures r.Done? ==> Mapped(old(Value()), Value(), i, bn, addr) && i in ino && ino[i].addrs[INDIRECT] == a
      ensures LogGrows(sb, old(logged), logged, Touched(addr, a)) && addr < sb.LogStart()
    {
      hide Used, Grab, GetWord, PutWord, Allocated, Mapped, FreeBlocks, LogGrows, Record, Full, RefsMarked;
      hide RefsUnique, Reserved;
      hide Pinned, PinnedAt, NoBuffer, Bounded, Transaction, Touched, Indirect;
      ghost var fs := Value();
      assert a == Ref(fs, i, INDIRECT);
      LogGrowsSelf(sb, logged, Touched(0, a));
      r := Hold(a, {});
      if r.Panic? { return r, 0; }
      IndirectBelowLog(fs, i);
      var entries := view[a];
      addr := GetWord(entries, bn - NDIRECT);
      assert addr == Addr(fs, i, bn);
      if addr == 0 {
        r, addr := Balloc({a});
        ghost var now := logged;
        if r.Panic? {
          LogGrowsMore(sb, old(logged), now, {}, Indirect(a));
          LogGrowsMore(sb, old(logged), now, {}, Touched(0, a));
          return r, 0;
        }
        LowestIsData(fs, addr);
        AllocInEntry(fs, i, SlotOf(bn), addr);
        LogGrowsMore(sb, old(logged), now, {addr}, Touched(addr, a));
        r := LogWrite(a, PutWord(entries, bn - NDIRECT, addr), {a});
        if r.Panic? { return; }
        LogOneMore(sb, old(logged), now, Touched(addr, a), a);
        assert Touched(addr, a) + {a} == Touched(addr, a);
        AllocMapped(fs, Value(), i, bn, addr);
        return;
      }
      MappedSelf(fs, i, bn);
      MappedFacts(fs, fs, i, bn, addr);
      LogGrowsSelf(sb, logged, Touched(addr, a));
      return Done, addr;
    }

    /** bmap: the block of file block bn, allocating what is missing. */
    method Bmap(i: nat, bn: nat) returns (r: Outcome, addr: nat, ghost ind: nat)
      requires Valid() && i in ino
      requires Traced()
      modifies this`view, this`logged, this`writes, this`ino, this`now
      ensures Traced()
      ensures bn >= MAXFILE ==> r == Panic(BmapOutOfRange)
      ensures r.Panic? && bn < MAXFILE ==>
                if r.why == OutOfBlocks then |FreeBlocks(old(Value()))| < Needed(old(Value()), i, bn)
                else Stuck(sb, old(logged), logged, ind, r.why, quota)
      ensures r.Done? ==> Mapped(old(Value()), Value(), i, bn, addr) && i in ino && ind == ino[i].addrs[INDIRECT]
      ensures LogGrows(sb, old(logged), logged, Touched(addr, ind)) && addr < sb.LogStart() && ind < sb.LogStart()
      ensures old(ino)[i].addrs[INDIRECT] != 0 ==> ind == old(ino)[i].addrs[INDIRECT]
      ensures bn < MAXFILE && Addr(old(Value()), i, bn) != 0 ==>
                && Value() == old(Value()) && logged == old(logged)
                && (r.Panic? ==> r.why == OutOfBuffers && |logged| + quota >= NBUF)
    {
      hide Used, GetWord, Mapped, Extends, LogGrows, FreeBlocks, RefsMarked, RefsUnique, Reserved;
      ghost var fs := Value();
      ind := ino[i].addrs[INDIRECT];
      assert ind == Ref(fs, i, INDIRECT);
      IndirectBelowLog(fs, i);
      if bn < NDIRECT {
        r, addr := BmapDirect(i, bn);
        if r.Panic? {
          DirectPanics(fs, old(logged), ind, r.why);
          return r, 0, ind;
        }
        MappedFacts(fs, Value(), i, bn, addr);
        LogGrowsMore(sb, old(logged), logged, {addr}, Touched(addr, ind));
        return;
      }
      if bn - NDIRECT < NINDIRECT {
        var a;
        r, a := EnsureIndirect(i, bn);
        if r.Panic? {
          DirectPanics(fs, old(logged), ind, r.why);
          return r, 0, ind;
        }
        ghost var g, mid := Value(), logged;
        ind := a;
        IndirectBelowLog(g, i);
        r, addr := MapEntry(i, bn, a);
        EntryDone(sb, old(logged), mid, logged, addr, a, r, quota);
        if r.Panic? {
          if r.why == OutOfBlocks { FullHasNoFree(g); }
          return;
        }
        MappedTrans(fs, g, Value(), i, bn, addr);
        return;
      }
      LogGrowsSelf(sb, logged, Touched(0, ind));
      return Panic(BmapOutOfRange), 0, ind;
    }

    /** A panic of balloc is one of the round it was called from. */
    lemma DirectPanics(fs: Fs, was: seq<nat>, ind: nat, why: Reason)
      requires Shape(fs) && fs.sb == sb && AllocFails(fs, was, 0, why)
      ensures LogGrows(sb, was, logged, Touched(0, ind))
      ensures if why == OutOfBlocks then FreeBlocks(fs) == {} else Stuck(sb, was, logged, ind, why, quota)
    {
      LogGrowsMore(sb, was, logged, {}, Touched(0, ind));
      if why == OutOfBlocks { FullHasNoFree(fs); }
    }

    /** iupdate: copy the current inode to its block, through the log. */
    method Iupdate(i: nat) returns (r: Outcome)
      requires Valid() && i in ino
      requires Traced()
      modifies this`view, this`logged, this`writes, this`now
      ensures Traced()
      ensures r == old(var s := sb.InodeBlock(i);
                       if NoBuffer(now, {}, s) then Panic(OutOfBuffers)
                       else if TooBig() then Panic(TransactionTooBig)
                       else if |PinnedAt(now + 1, {s})| >= NBUF then Panic(OutOfBuffers) else Done)
      ensures r == Panic(OutOfBuffers) ==> |logged| + 1 + quota >= NBUF
      ensures r.Panic? ==> logged == old(logged)
      ensures r.Done? ==>
                var s := sb.InodeBlock(i);
                && s < |old(view)| && view == old(view)[s := PutInode(old(view)[s], i, ino[i])]
                && logged == Record(old(logged), s)
      ensures r.Done? ==> DinodeIs(view, i, ino[i]) && BootKept(old(view), view)
    {
      hide PinnedAt, NoBuffer, Bounded, Transaction, PutInode, RefsMarked, RefsUnique, Reserved, Record;
      InodeInside(sb, i);
      var s := sb.InodeBlock(i);
      r := Hold(s, {});
      if r.Panic? { return; }
      InodeStored(view[s], i, ino[i]);
      r := LogWrite(s, PutInode(view[s], i, ino[i]), {s});
    }

    /** One round of writei's loop: map the block, overwrite part of it, log it. */
    method WriteChunk(i: nat, o: nat, bytes: seq<byte>) returns (r: Outcome, addr: nat, ghost ind: nat)
      requires Valid() && i in ino && o < MAXBYTES && o % 512 + |bytes| <= 512
      requires Traced()
      modifies this`view, this`logged, this`writes, this`ino, this`now
      ensures Traced()
      ensures r.Done? ==>
                && Updated(old(Value()), Value(), i, o, bytes)
                && Charged(old(Value()), Value(), i, o / 512, o / 512 + 1)
                && (Addr(old(Value()), i, o / 512) != 0 ==> ino == old(ino))
                && ind == ino[i].addrs[INDIRECT]
      ensures r.Panic? ==>
                if r.why == OutOfBlocks then
                  |FreeBlocks(old(Value()))| < NeededIn(old(Value()), i, o / 512, o / 512 + 1)
                else Stuck(sb, old(logged), logged, ind, r.why, quota)
      ensures LogGrows(sb, old(logged), logged, Touched(addr, ind)) && addr < sb.LogStart() && ind < sb.LogStart()
      ensures old(ino)[i].addrs[INDIRECT] != 0 ==> ind == old(ino)[i].addrs[INDIRECT]
    {
      hide Used, GetWord, Mapped, Updated, FreeBlocks, LogGrows, Ref, Record, Splice, RefsMarked, RefsUnique, Reserved;
      hide Charged, NeededIn, Pinned, PinnedAt, NoBuffer, Bounded, Transaction, Needed, Touched;
      ghost var fs, was := Value(), logged;
      NeededOne(fs, i, o / 512);
      r, addr, ind := Bmap(i, o / 512);
      if r.Panic? { return; }
      ghost var g, now := Value(), logged;
      MappedFacts(fs, g, i, o / 512, addr);
      r := Hold(addr, {});
      if r.Panic? { return; }
      ChunkUpdates(fs, g, i, o, addr, bytes);
      ChunkCharged(fs, g, i, o / 512, addr, Splice(view[addr], o % 512, bytes));
      r := LogWrite(addr, Splice(view[addr], o % 512, bytes), {addr});
      if r.Panic? { return; }
      LogOneMore(sb, was, now, Touched(addr, ind), addr);
      assert Touched(addr, ind) + {addr} == Touched(addr, ind);
    }

    /** writei's loop. */
    method WriteLoop(i: nat, off: nat, src: seq<byte>) returns (r: Outcome)
      requires Valid() && i in ino && off + |src| <= MAXBYTES
      requires Traced()
      modifies this`view, this`logged, this`writes, this`ino, this`now
      ensures Traced()
      ensures r.Done? ==> Updated(old(Value()), Value(), i, off, src)
      ensures r.Done? ==> Charged(old(Value()), Value(), i, off / 512, Reach(off, off + |src|))
      ensures r.Panic? ==> PanicMeans(old(Value()), i, off, |src|, old(logged) == [], r.why, quota)
      ensures r.Panic? ==> Overflows(r.why)
      ensures BelowLog(sb, old(logged)) ==> BelowLog(sb, logged)
      ensures r.Done? && NoHoles(old(Value()), i) && off + |src| <= 512 * BlocksFor(old(ino)[i].size) ==>
                ino == old(ino)
      ensures r.Done? && old(logged) == [] && sb.size < BPB ==> |logged| <= Span(off, |src|) + 2
    {
      hide WriteSoFar, Updated, Charged, NeededIn, FreeBlocks, Stuck, LogGrows, PanicMeans, Reach, BelowLog;
      hide NoHoles, BlocksFor, Bounded, Transaction, Addr, RefsMarked, RefsUnique, Reserved, Touched, Span;
      ghost var fs, D: set<nat> := Value(), {};
      WriteStart(fs, logged, i, off, src);
      var tot, o := 0, off;
      while tot < |src|
        invariant Traced() && 0 <= tot <= |src| && o == off + tot
        invariant WriteSoFar(fs, old(logged), Value(), logged, i, off, src, tot, D)
      {
        var m := if |src| - tot < 512 - o % 512 then |src| - tot else 512 - o % 512;
        ghost var g, was := Value(), logged;
        WriteReady(fs, old(logged), g, was, i, off, src, tot, D);
        var addr;
        ghost var ind;
        r, addr, ind := WriteChunk(i, o, src[tot..tot + m]);
        if r.Panic? {
          WriteStuck(fs, old(logged), g, was, logged, i, off, src, tot, D, addr, ind, r.why, quota);
          return;
        }
        UpdatedFacts(g, Value(), i, o, src[tot..tot + m]);
        WriteNext(fs, old(logged), g, was, Value(), logged, i, off, src, tot, m, D, addr);
        D := D + {addr};
        tot, o := tot + m, o + m;
      }
      WriteEnd(fs, old(logged), Value(), logged, i, off, src, D);
      return Done;
    }

    /** One round of readi's loop. */
    method ReadChunk(i: nat, o: nat, k: nat) returns (r: Outcome, part: seq<byte>)
      requires FsInv(Value()) && i in ino && 0 < k && o + k <= ino[i].size && o % 512 + k <= 512
      requires Traced()
      modifies this`view, this`logged, this`writes, this`ino, this`now
      ensures Traced()
      ensures Value() == old(Value()) && logged == old(logged)
      ensures r.Panic? ==> r.why == OutOfBuffers && |logged| + quota >= NBUF
      ensures r.Done? ==> part == Contents(Value(), i)[o..o + k]
    {
      hide Used, GetWord, FreeBlocks, RefsMarked, RefsUnique, Reserved, Ref, Flushed, Contents, Mapped, LogGrows, Stuck;
      ghost var fs := Value();
      assert Addr(fs, i, o / 512) != 0;
      var addr;
      ghost var ind;
      r, addr, ind := Bmap(i, o / 512);
      if r.Panic? { return r, []; }
      MappedFacts(fs, Value(), i, o / 512, addr);
      BlockSlice(fs, i, o, k);
      r := Hold(addr, {});
      if r.Panic? { return r, []; }
      part := view[addr][o % 512..o % 512 + k];
    }

    /** readi on a file or directory: the slice of the flat contents, clipped at the end of the file.
        Nothing is allocated and nothing is logged. */
    method Readi(i: nat, off: nat, n: nat) returns (r: ReadResult)
      requires FsInv(Value()) && i in ino && ino[i].typ != T_DEV && off < WORD_LIMIT && n < WORD_LIMIT
      requires Traced()
      modifies this`view, this`logged, this`writes, this`ino, this`now
      ensures Traced()
      ensures Value() == old(Value()) && logged == old(logged)
      ensures r.ReadRefused? <==> off > ino[i].size || off + n >= WORD_LIMIT
      ensures r.ReadPanic? ==> r.why == OutOfBuffers && |logged| + quota >= NBUF
      ensures r.Read? ==>
                r.data == if off + n <= ino[i].size then Contents(Value(), i)[off..off + n]
                          else Contents(Value(), i)[off..]
    {
      hide RefsMarked, RefsUnique, Reserved, Ref, Flushed, Contents;
      if off > ino[i].size || (off + n) % WORD_LIMIT < off { return ReadRefused; }
      var m := if off + n > ino[i].size then ino[i].size - off else n;
      ghost var fs := Value();
      var data: seq<byte> := [];
      while |data| < m
        invariant Traced()
        invariant |data| <= m && Value() == fs && logged == old(logged)
        invariant data == Contents(fs, i)[off..off + |data|]
      {
        var o := off + |data|;
        var k := if m - |data| < 512 - o % 512 then m - |data| else 512 - o % 512;
        var got, part := ReadChunk(i, o, k);
        if got.Panic? { return ReadPanic(got.why); }
        ghost var c := Contents(fs, i);
        assert c[off..o] + c[o..o + k] == c[off..o + k];
        data := data + part;
      }
      return Read(data);
    }

    /** writei refuses the write: it would leave a hole or exceed the largest file. */
    ghost predicate Refuses(i: nat, off: nat, n: nat)
      requires i in ino
      reads this
    {
      off > ino[i].size || off + n > 140 * 512
    }

    /** writei on a file or directory: an overwrite of the flat contents. */
    method Writei(i: nat, off: nat, src: seq<byte>) returns (r: WriteResult)
      requires FsInv(Value()) && i in ino && ino[i].typ != T_DEV && off < WORD_LIMIT && |src| < WORD_LIMIT
      requires Traced()
      modifies this`view, this`logged, this`writes, this`ino, this`now
      ensures Traced()
      ensures r.WriteRefused? <==> old(Refuses(i, off, |src|))
      ensures r.WriteRefused? ==> Value() == old(Value()) && logged == old(logged) && writes == old(writes)
      ensures r.Wrote? ==> r.n == |src| && WriteDone(old(Value()), Value(), i, off, src)
      ensures r.Wrote? ==> Charged(old(Value()), Value(), i, off / 512, Reach(off, off + |src|))
      ensures r.WritePanic? ==> PanicMeans(old(Value()), i, off, |src|, old(logged) == [], r.why, quota)
      ensures r.WritePanic? ==> Overflows(r.why)
      ensures BelowLog(sb, old(logged)) ==> BelowLog(sb, logged)
      ensures r.Wrote? && old(logged) == [] && sb.size < BPB ==> |logged| <= Span(off, |src|) + 3
    {
      hide Used, GetWord, Updated, FreeBlocks, RefsMarked, RefsUnique, Reserved, WriteDone, PutInode;
      hide Pinned, PinnedAt, NoBuffer, Bounded;
      hide BlocksFor, BelowLog, Transaction;
      hide Charged, NeededIn, Reach, DinodeIs, BootKept, Contents, Flushed, NoHoles;
      if off > ino[i].size || (off + |src|) % WORD_LIMIT < off { return WriteRefused; }
      if off + |src| > MAXBYTES { return WriteRefused; }
      ghost var fs := Value();
      var o := WriteLoop(i, off, src);
      if o.Panic? { return WritePanic(o.why); }
      ghost var f := Value();
      UpdatedFacts(fs, f, i, off, src);
      if |src| > 0 && off + |src| > ino[i].size {
        WriteGrows(fs, f, i, off, src);
        FlushCharged(fs, f, i, off / 512, Reach(off, off + |src|), off + |src|);
        ino := ino[i := ino[i].(size := off + |src|)];
        if BelowLog(sb, logged) { InodeBelowLog(sb, logged, i); }
        o := Iupdate(i);
        if o.Panic? { return WritePanic(o.why); }
      } else {
        InsideBlocks(off + |src|, fs.ino[i].size);
        WriteInside(fs, f, i, off, src);
      }
      return Wrote(|src|);
    }

    /** bfree. */
    method Bfree(b: nat, H: set<nat>) returns (r: Outcome)
      requires Shape(Value()) && b < sb.size
      requires Traced()
      modifies this`view, this`logged, this`writes, this`now
      ensures Traced()
      ensures r == old(var bb := sb.BitmapBlock(b);
                       if NoBuffer(now, H, 1) || NoBuffer(now + 1, H, bb) then Panic(OutOfBuffers)
                       else if !Used(Value(), b) then Panic(FreeingFreeBlock)
                       else if TooBig() then Panic(TransactionTooBig)
                       else if |PinnedAt(now + 2, H + {bb})| >= NBUF then Panic(OutOfBuffers) else Done)
      ensures r == Panic(OutOfBuffers) ==> |logged| + |H| + 1 + quota >= NBUF
      ensures r.Panic? ==> view == old(view) && logged == old(logged)
      ensures r.Done? ==> view == Mark(sb, old(view), b, false) && logged == Record(old(logged), sb.BitmapBlock(b))
    {
      hide PinnedAt, NoBuffer, Bounded, Transaction, PutBitmap;
      r := Hold(1, H);
      if r.Panic? { return; }
      var bb := sb.BitmapBlock(b);
      r := Hold(bb, H);
      if r.Panic? { return; }
      if !TestBit(view[bb][(b % BPB) / 8], b % 8) { return Panic(FreeingFreeBlock); }
      assert |H + {bb}| <= |H| + 1;
      r := LogWrite(bb, PutBitmap(view[bb], b % BPB, false), H + {bb});
    }

    /** Only bitmap blocks have been logged since the transaction had logged `was`. */
    ghost predicate OnlyBitmaps(was: seq<nat>)
      reads this`logged
    {
      was == [] ==> LogBudget(sb, logged, 0, {})
    }

    /** A transaction of one bitmap block and the inode block fits in the log and, with the indirect block and a
        bitmap block held, in the cache. */
    ghost predicate Roomy(was: seq<nat>) {
      was == [] && sb.size < BPB && sb.nlog >= 3 && quota + 3 < NBUF
    }

    lemma RoomLeft(was: seq<nat>)
      requires sb.Ok() && OnlyBitmaps(was) && Roomy(was)
      ensures !TooBig() && |logged| <= 1 && |logged| + 2 + quota < NBUF
    {
      BudgetSize(sb, logged, 0, {});
    }

    /** itrunc panicked: log or cache overflowed, and it was not a transaction of its own with room for it. */
    ghost predicate TruncFails(was: seq<nat>, why: Reason)
      requires sb.Ok()
      reads this`logged
    {
      (why == TransactionTooBig || why == OutOfBuffers) && Overflows(why) && !Roomy(was)
    }

    /** bfree of the next slot of the file being truncated. */
    method FreeSlot(i: nat, ghost fs: Fs, ghost p: nat, b: nat, H: set<nat>, ghost was: seq<nat>) returns (r: Outcome)
      requires Owned(fs) && fs.sb == sb && i in fs.ino && p < SLOTS && b == Ref(fs, i, SlotAt(p)) && |H| <= 1
      requires Freeing(fs, view, Freed(fs, i, p)) && OnlyBitmaps(was) && Shape(Value())
      requires Traced()
      modifies this`view, this`logged, this`writes, this`now
      ensures Traced()
      ensures r.Panic? ==> TruncFails(was, r.why)
      ensures r.Done? ==> Freeing(fs, view, Freed(fs, i, p + 1)) && OnlyBitmaps(was) && |view| == |old(view)|
    {
      hide Ref, Used, Freed, Freeing, Mark, RefsMarked, RefsUnique, Reserved, Bounded, Transaction;
      hide Pinned, PinnedAt, NoBuffer;
      if b == 0 { FreeSkip(fs, i, p); return Done; }
      FreeNext(fs, view, i, p);
      SameViewSameUse(Value(), fs.(view := view), b);
      if Roomy(was) { RoomLeft(was); }
      r := Bfree(b, H);
    }

    /** itrunc's loop over the direct blocks. */
    method FreeDirect(i: nat, ghost was: seq<nat>) returns (r: Outcome)
      requires Owned(Value()) && i in ino && OnlyBitmaps(was)
      requires Traced()
      modifies this`view, this`logged, this`writes, this`ino, this`now
      ensures Traced()
      ensures r.Panic? ==> TruncFails(was, r.why)
      ensures r.Done? ==>
                && Shape(Value()) && OnlyBitmaps(was)
                && ino == old(ino)[i := Cleared(old(ino)[i], NDIRECT)]
                && Freeing(old(Value()), view, Freed(old(Value()), i, NDIRECT))
    {
      hide Freeing, Freed, RefsMarked, RefsUnique, Reserved, OnlyBitmaps, Bounded, Transaction, TruncFails;
      hide Ref, SlotAt, Cleared;
      ghost var fs := Value();
      FreeingStart(fs);
      assert Freed(fs, i, 0) == {} by { NothingFreed(fs, i); }
      ClearNext(ino[i], 0);
      var k := 0;
      while k < NDIRECT
        invariant Traced()
        invariant 0 <= k <= NDIRECT && Shape(Value()) && OnlyBitmaps(was)
        invariant ino == fs.ino[i := Cleared(fs.ino[i], k)]
        invariant Freeing(fs, view, Freed(fs, i, k))
      {
        ClearNext(fs.ino[i], k);
        DirectSlot(fs, i, k);
        var b := ino[i].addrs[k];
        r := FreeSlot(i, fs, k, b, {}, was);
        if r.Panic? { return; }
        ino := ino[i := ino[i].(addrs := ino[i].addrs[k := 0])];
        k := k + 1;
      }
      return Done;
    }

    /** itrunc's loop over the entries of the indirect block. */
    method FreeEntries(i: nat, ghost fs: Fs, ghost was: seq<nat>) returns (r: Outcome)
      requires Owned(fs) && fs.sb == sb && i in fs.ino && i in ino && Shape(Value()) && OnlyBitmaps(was)
      requires ino[i].addrs[INDIRECT] == fs.ino[i].addrs[INDIRECT] != 0
      requires Freeing(fs, view, Freed(fs, i, NDIRECT))
      requires Traced()
      modifies this`view, this`logged, this`writes, this`now
      ensures Traced()
      ensures r.Panic? ==> TruncFails(was, r.why)
      ensures r.Done? ==> Shape(Value()) && OnlyBitmaps(was) && Freeing(fs, view, Freed(fs, i, SLOTS - 1))
    {
      hide Freed, RefsUnique, Reserved, OnlyBitmaps, GetWord, Used, Pinned, PinnedAt, NoBuffer, Bounded, Transaction;
      assert fs.ino[i].addrs[INDIRECT] == Ref(fs, i, INDIRECT);
      var ind := ino[i].addrs[INDIRECT];
      if Roomy(was) { RoomLeft(was); }
      r := Hold(ind, {});
      if r.Panic? { return; }
      var entries := view[ind];
      hide Freeing;
      var j := 0;
      while j < NINDIRECT
        invariant Traced()
        invariant 0 <= j <= NINDIRECT && Shape(Value()) && OnlyBitmaps(was)
        invariant Freeing(fs, view, Freed(fs, i, NDIRECT + j))
      {
        var b := GetWord(entries, j);
        r := FreeSlot(i, fs, NDIRECT + j, b, {ind}, was);
        if r.Panic? { return; }
        j := j + 1;
      }
      return Done;
    }

    /** itrunc's indirect part: the entries, then the indirect block itself. */
    method FreeIndirect(i: nat, ghost fs: Fs, ghost was: seq<nat>) returns (r: Outcome)
      requires Owned(fs) && fs.sb == sb && i in fs.ino && Shape(Value()) && OnlyBitmaps(was)
      requires ino == fs.ino[i := Cleared(fs.ino[i], NDIRECT)]
      requires Freeing(fs, view, Freed(fs, i, NDIRECT))
      requires Traced()
      modifies this`view, this`logged, this`writes, this`ino, this`now
      ensures Traced()
      ensures r.Panic? ==> TruncFails(was, r.why)
      ensures r.Done? ==>
                && Shape(Value()) && OnlyBitmaps(was) && ino == fs.ino[i := Cleared(fs.ino[i], ADDRS)]
                && Freeing(fs, view, Freed(fs, i, SLOTS))
    {
      hide Freed, Freeing, RefsMarked, RefsUnique, Reserved, OnlyBitmaps, GetWord, Bounded, Transaction, TruncFails;
      hide Ref, SlotAt, Cleared;
      LastSlot(fs, i);
      ClearNext(fs.ino[i], INDIRECT);
      if ino[i].addrs[INDIRECT] != 0 {
        r := FreeEntries(i, fs, was);
        if r.Panic? { return; }
        r := FreeSlot(i, fs, SLOTS - 1, ino[i].addrs[INDIRECT], {}, was);
        if r.Panic? { return; }
        ino := ino[i := ino[i].(addrs := ino[i].addrs[INDIRECT := 0])];
      } else {
        NoEntries(fs, i, SLOTS);
        assert ino[i].addrs[INDIRECT := 0] == ino[i].addrs;
      }
      assert ino == fs.ino[i := Cleared(fs.ino[i], ADDRS)];
      return Done;
    }

    /** itrunc: exactly the file's blocks become free. */
    method Itrunc(i: nat) returns (r: Outcome)
      requires FsInv(Value()) && i in ino
      requires Traced()
      modifies this`view, this`logged, this`writes, this`ino, this`now
      ensures Traced()
      ensures r.Panic? ==> TruncFails(old(logged), r.why)
      ensures r.Done? ==> TruncDone(old(Value()), Value(), i)
      ensures r.Done? && old(logged) == [] ==> BelowLog(sb, logged)
      ensures r.Done? && Roomy(old(logged)) ==> |logged| <= 2
    {
      hide Freed, Freeing, RefsMarked, RefsUnique, Reserved, TruncDone, PutInode, LogBudget, NoHoles, Flushed;
      hide Pinned, PinnedAt, NoBuffer;
      hide Bounded, Transaction, BelowLog;
      ghost var fs, was := Value(), logged;
      if was == [] { NothingLogged(sb); }
      r := FreeDirect(i, was);
      if r.Panic? { return; }
      r := FreeIndirect(i, fs, was);
      if r.Panic? { return; }
      ClearNext(fs.ino[i], 0);
      ino := ino[i := ino[i].(size := 0)];
      TruncateDone(fs, view, i);
      assert Value() == Truncated(fs, view, i);
      if Roomy(was) { RoomLeft(was); }
      if was == [] {
        BitmapsBelowLog(sb, logged);
        InodeBelowLog(sb, logged, i);
      }
      r := Iupdate(i);
    }

    /** iput of the last reference to an inode without links: its blocks become free, and so does the inode. */
    method Ifree(i: nat) returns (r: Outcome)
      requires FsInv(Value()) && i in ino
      requires Traced()
      modifies this`view, this`logged, this`writes, this`ino, this`now
      ensures Traced()
      ensures Roomy(old(logged)) && sb.nlog >= 4 ==> r.Done?
      ensures r.Panic? ==> (r.why == TransactionTooBig || r.why == OutOfBuffers) && Overflows(r.why)
      ensures r.Done? ==> FreeDone(old(Value()), Value(), i)
    {
      hide TruncDone, FreeDone, RefsMarked, RefsUnique, Reserved, PutInode, NoHoles, Flushed;
      hide Pinned, PinnedAt, NoBuffer, Bounded, Transaction;
      ghost var fs := Value();
      r := Itrunc(i);
      if r.Panic? { return; }
      UntypedDone(fs, Value(), i);
      assert i in ino by { TruncFrame(fs, Value(), i); }
      ino := ino[i := ino[i].(typ := 0)];
      r := Iupdate(i);
    }
  }

  lemma TruncFrame(fs: Fs, g: Fs, i: nat)
    requires TruncDone(fs, g, i)
    ensures i in g.ino
  {
  }

  lemma InodeInside(sb: Super, i: nat)
    requires sb.Ok() && i < sb.ninodes
    ensures sb.InodeBlock(i) < sb.LogStart() <= sb.size
  {
    assert i / 8 <= sb.ninodes / 8;
  }

  /** What marking and zeroing block b adds to the transaction. */
  lemma TakeLogs(sb: Super, was: seq<nat>, b: nat)
    requires sb.Ok() && b < sb.size
    ensures var now := Record(was, sb.BitmapBlock(b));
            && LogGrows(sb, was, was, {}) && LogGrows(sb, was, now, {}) && LogGrows(sb, was, Record(now, b), {b})
  {
    assert b / 4096 <= sb.size / 4096;
  }

  /** A free block is a data block. */
  lemma LowestIsData(fs: Fs, b: nat)
    requires Owned(fs) && b < fs.sb.size && !Used(fs, b)
    ensures fs.sb.InData(b)
  {
  }

  /** The sectors logged by both halves of bmap. */
  lemma EntryDone(sb: Super, was: seq<nat>, mid: seq<nat>, now: seq<nat>, addr: nat, a: nat, r: Outcome, quota: nat)
    requires sb.Ok() && a != 0 && LogGrows(sb, was, mid, {a}) && LogGrows(sb, mid, now, Touched(addr, a))
    requires r.Panic? && r.why != OutOfBlocks ==> Stuck(sb, mid, now, a, r.why, quota)
    ensures LogGrows(sb, was, now, Touched(addr, a))
    ensures r.Panic? && r.why != OutOfBlocks ==> Stuck(sb, was, now, a, r.why, quota)
  {
    hide LogGrows;
    LogGrowsTrans(sb, was, mid, now, {a}, Touched(addr, a));
    if LogGrows(sb, mid, now, Indirect(a)) { LogGrowsTrans(sb, was, mid, now, {a}, Indirect(a)); }
  }

  lemma NothingFreed(fs: Fs, i: nat)
    requires Shape(fs) && i in fs.ino
    ensures Freed(fs, i, 0) == {}
  {
  }

  lemma BitmapsBelowLog(sb: Super, logged: seq<nat>)
    requires sb.Ok() && LogBudget(sb, logged, 0, {})
    ensures BelowLog(sb, logged)
  {
  }

  lemma NothingLogged(sb: Super)
    ensures LogBudget(sb, [], 0, {})
  {
  }
}
