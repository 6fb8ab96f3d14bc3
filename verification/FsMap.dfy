/** bmap's effect on the block maps, on the free blocks and on the transaction. */
module FsMap {
  import opened Lists
  import opened Words
  import opened LogSpec
  import opened FsLayout
  import opened FsState

  // ----- what bmap may change

  /** Only the indirect block and the slot of file block bn of inode i may go from empty to allocated;
      every other slot, every file's data and the inode area stay. */
  ghost predicate Extends(fs: Fs, fs': Fs, i: nat, bn: nat) {
    && Shape(fs) && Shape(fs') && fs'.sb == fs.sb
    && fs'.ino.Keys == fs.ino.Keys && i in fs.ino && bn < MAXFILE
    && fs'.ino[i] == fs.ino[i].(addrs := fs'.ino[i].addrs)
    && (forall j :: j in fs.ino && j != i ==> fs'.ino[j] == fs.ino[j])
    && (forall j, l :: j in fs.ino && 0 <= l < SLOTS ==>
          Ref(fs', j, l) == Ref(fs, j, l) || (Ref(fs, j, l) == 0 && j == i && (l == INDIRECT || l == SlotOf(bn))))
    && DataKept(fs, fs')
  }

  /** File data and the inode area are the same. */
  ghost predicate DataKept(fs: Fs, fs': Fs)
    requires Shape(fs) && |fs'.view| == |fs.view|
  {
    && (forall j, l :: j in fs.ino && 0 <= l < SLOTS && l != INDIRECT && 0 < Ref(fs, j, l) < fs.sb.size ==>
          fs'.view[Ref(fs, j, l)] == fs.view[Ref(fs, j, l)])
    && (forall s: nat :: s < fs.sb.ninodes / IPB + 3 ==> fs'.view[s] == fs.view[s])
  }

  lemma AllocatedExtends(fs: Fs, fs': Fs, i: nat, k: nat, b: nat, bn: nat)
    requires Owned(fs) && Allocated(fs, fs', i, k, b) && bn < MAXFILE && (k == INDIRECT || k == SlotOf(bn))
    ensures Extends(fs, fs', i, bn)
  {
    hide Used;
    assert Ref(fs, i, INDIRECT) == fs.ino[i].addrs[INDIRECT];
    hide Ref;
    forall j, l | j in fs.ino && 0 <= l < SLOTS && l != INDIRECT && 0 < Ref(fs, j, l) < fs.sb.size
      ensures fs'.view[Ref(fs, j, l)] == fs.view[Ref(fs, j, l)]
    {
      assert Used(fs, Ref(fs, j, l));
    }
  }

  lemma ExtendsSelf(fs: Fs, i: nat, bn: nat)
    requires Shape(fs) && i in fs.ino && bn < MAXFILE
    ensures Extends(fs, fs, i, bn)
  {
  }

  lemma ExtendsTrans(f: Fs, g: Fs, h: Fs, i: nat, bn: nat)
    requires Extends(f, g, i, bn) && Extends(g, h, i, bn)
    ensures Extends(f, h, i, bn)
  {
    hide Ref;
    forall j, l | j in f.ino && 0 <= l < SLOTS
      ensures Ref(h, j, l) == Ref(f, j, l) || (Ref(f, j, l) == 0 && j == i && (l == INDIRECT || l == SlotOf(bn)))
    {
      assert j in g.ino;
    }
    forall j, l | j in f.ino && 0 <= l < SLOTS && l != INDIRECT && 0 < Ref(f, j, l) < f.sb.size
      ensures h.view[Ref(f, j, l)] == f.view[Ref(f, j, l)]
    {
      assert j in g.ino && Ref(g, j, l) == Ref(f, j, l);
    }
  }

  // ----- counting free blocks

  ghost function FreeBlocks(fs: Fs): set<nat>
    requires Shape(fs)
  {
    set b: nat | b < fs.sb.size && fs.sb.InData(b) && !Used(fs, b)
  }

  lemma AllocatedFree(fs: Fs, fs': Fs, i: nat, k: nat, b: nat)
    requires Allocated(fs, fs', i, k, b)
    ensures FreeBlocks(fs') == FreeBlocks(fs) - {b} && b in FreeBlocks(fs)
    ensures |FreeBlocks(fs')| == |FreeBlocks(fs)| - 1
  {
    hide Used, Ref;
  }

  /** balloc takes the lowest clear bit of the whole disk. On an image that marks the metadata but not the log,
      as mkfs writes it, that is a data block exactly as long as a data block is free; then it is the log. */
  lemma LowestFreeIsDataIffRoom(fs: Fs, b: nat)
    requires Shape(fs) && b < fs.sb.size && !Used(fs, b)
    requires forall c: nat :: c < fs.sb.size && (c < b || c < fs.sb.DataStart()) ==> Used(fs, c)
    ensures fs.sb.InData(b) <==> FreeBlocks(fs) != {}
  {
    hide Used;
    if fs.sb.InData(b) { assert b in FreeBlocks(fs); }
    if FreeBlocks(fs) != {} { var c :| c in FreeBlocks(fs); }
  }

  predicate IsBitmap(sb: Super, s: nat) {
    sb.ninodes / IPB + 3 <= s < sb.DataStart()
  }

  /** No block is free. */
  ghost predicate Full(fs: Fs)
    requires Shape(fs)
  {
    forall c: nat :: c < fs.sb.size ==> Used(fs, c)
  }

  lemma BitAt(fs: Fs, b: nat, bi: nat)
    requires Shape(fs) && b % BPB == 0 && bi < BPB && b + bi < fs.sb.size
    ensures fs.sb.BitmapBlock(b) < |fs.view|
    ensures Used(fs, b + bi) == TestBit(fs.view[fs.sb.BitmapBlock(b)][bi / 8], bi % 8)
  {
    hide TestBit;
    BitParts(b, bi);
  }

  lemma BitParts(b: nat, bi: nat)
    requires b % 4096 == 0 && bi < 4096
    ensures (b + bi) / 4096 == b / 4096 && (b + bi) % 4096 == bi && (b + bi) % 8 == bi % 8
  {
    DivParts(b / 4096, bi);
  }

  lemma DivParts(q: nat, m: nat)
    requires m < 4096
    ensures (4096 * q + m) / 4096 == q && (4096 * q + m) % 4096 == m && (4096 * q + m) % 8 == m % 8
  {
    assert 4096 * q + m == 8 * (512 * q) + m;
  }

  lemma FullHasNoFree(fs: Fs)
    requires Shape(fs) && Full(fs)
    ensures FreeBlocks(fs) == {}
  {
  }

  lemma MappedTrans(f: Fs, g: Fs, h: Fs, i: nat, bn: nat, addr: nat)
    requires Owned(f) && Owned(g) && Extends(f, g, i, bn) && Mapped(g, h, i, bn, addr) && bn >= NDIRECT
    requires Ref(f, i, INDIRECT) != 0 ==> g == f
    requires Ref(f, i, INDIRECT) == 0 ==> |FreeBlocks(g)| + 1 == |FreeBlocks(f)|
    requires Ref(g, i, INDIRECT) != 0 && Addr(g, i, bn) == Addr(f, i, bn)
    ensures Mapped(f, h, i, bn, addr)
  {
    hide Used, GetWord;
    ExtendsTrans(f, g, h, i, bn);
    if Ref(f, i, INDIRECT) == 0 {
      assert Addr(f, i, bn) == 0;
    }
  }

  /** File block bn of inode i is block addr now, was possibly allocated for it, and nothing else moved. */
  ghost predicate Mapped(fs: Fs, fs': Fs, i: nat, bn: nat, addr: nat) {
    && Owned(fs') && Extends(fs, fs', i, bn)
    && addr == Addr(fs', i, bn) != 0
    && (Addr(fs, i, bn) != 0 ==> fs' == fs)
    && (if bn >= NDIRECT then Ref(fs', i, INDIRECT) != 0 else Ref(fs', i, INDIRECT) == Ref(fs, i, INDIRECT))
    && |FreeBlocks(fs')| + Needed(fs, i, bn) == |FreeBlocks(fs)|
  }

  /** How many blocks bmap must allocate. */
  ghost function Needed(fs: Fs, i: nat, bn: nat): nat
    requires Shape(fs) && i in fs.ino && bn < MAXFILE
  {
    if Addr(fs, i, bn) != 0 then 0 else if NeedsIndirect(fs, i, bn) then 2 else 1
  }

  ghost predicate NeedsIndirect(fs: Fs, i: nat, bn: nat)
    requires Shape(fs) && i in fs.ino
  {
    bn >= NDIRECT && Ref(fs, i, INDIRECT) == 0
  }

  /** The transaction has logged, beyond what it had, only sectors of `extra` and bitmap blocks. */
  ghost predicate LogGrows(sb: Super, was: seq<nat>, now: seq<nat>, extra: set<nat>) {
    && (Distinct(was) ==> Distinct(now))
    && |was| <= |now|
    && forall s :: s in now ==> s in was || s in extra || IsBitmap(sb, s)
  }

  ghost function Indirect(indirect: nat): set<nat> {
    if indirect == 0 then {} else {indirect}
  }

  /** The sectors a mapped file block brings into the transaction. */
  ghost function Touched(addr: nat, indirect: nat): (r: set<nat>)
    ensures addr in r && (indirect != 0 ==> indirect in r)
  {
    {addr} + Indirect(indirect)
  }

  lemma LogGrowsSelf(sb: Super, was: seq<nat>, extra: set<nat>)
    ensures LogGrows(sb, was, was, extra)
  {
  }

  lemma LogGrowsMore(sb: Super, was: seq<nat>, now: seq<nat>, x: set<nat>, y: set<nat>)
    requires LogGrows(sb, was, now, x) && x <= y
    ensures LogGrows(sb, was, now, y)
  {
  }

  lemma LogGrowsTrans(sb: Super, a: seq<nat>, b: seq<nat>, c: seq<nat>, x: set<nat>, y: set<nat>)
    requires LogGrows(sb, a, b, x) && LogGrows(sb, b, c, y) && x <= y
    ensures LogGrows(sb, a, c, y)
  {
  }

  lemma LogOneMore(sb: Super, was: seq<nat>, now: seq<nat>, extra: set<nat>, s: nat)
    requires LogGrows(sb, was, now, extra)
    ensures LogGrows(sb, was, Record(now, s), extra + {s})
  {
  }

  lemma MappedFacts(fs: Fs, g: Fs, i: nat, bn: nat, addr: nat)
    requires Mapped(fs, g, i, bn, addr)
    ensures g.sb == fs.sb && i in g.ino && Owned(g) && bn < MAXFILE
    ensures Addr(fs, i, bn) != 0 ==> g == fs
    ensures g.ino[i].addrs[INDIRECT] == fs.ino[i].addrs[INDIRECT] || fs.ino[i].addrs[INDIRECT] == 0
    ensures |FreeBlocks(g)| + Needed(fs, i, bn) == |FreeBlocks(fs)|
    ensures g.sb.InData(addr) && addr == Addr(g, i, bn)
    ensures if bn >= NDIRECT then g.ino[i].addrs[INDIRECT] != 0
            else g.ino[i].addrs[INDIRECT] == fs.ino[i].addrs[INDIRECT]
  {
    assert Ref(g, i, INDIRECT) == g.ino[i].addrs[INDIRECT];
    assert Ref(fs, i, INDIRECT) == fs.ino[i].addrs[INDIRECT];
  }

  lemma DataWriteKeepsFree(g: Fs, a: nat, data: Block)
    requires Shape(g) && g.sb.InData(a)
    ensures FreeBlocks(g.(view := g.view[a := data])) == FreeBlocks(g)
  {
    forall c: nat | c < g.sb.size ensures Used(g.(view := g.view[a := data]), c) == Used(g, c) {
      DataWriteKeepsUse(g, a, data, c);
    }
  }

  lemma MappedSelf(fs: Fs, i: nat, bn: nat)
    requires Owned(fs) && i in fs.ino && bn < MAXFILE && Addr(fs, i, bn) != 0
    ensures Mapped(fs, fs, i, bn, Addr(fs, i, bn))
  {
    ExtendsSelf(fs, i, bn);
  }

  lemma AllocMapped(fs: Fs, fs': Fs, i: nat, bn: nat, b: nat)
    requires Owned(fs) && bn < MAXFILE && Allocated(fs, fs', i, SlotOf(bn), b)
    requires bn >= NDIRECT ==> Ref(fs, i, INDIRECT) != 0
    ensures Mapped(fs, fs', i, bn, b)
  {
    hide Used, GetWord;
    AllocatedKeepsOwned(fs, fs', i, SlotOf(bn), b);
    AllocatedExtends(fs, fs', i, SlotOf(bn), b, bn);
    AllocatedFree(fs, fs', i, SlotOf(bn), b);
  }

  // ----- how much a write may log

  /** The transaction logged bitmap blocks, the indirect block (if any) and the blocks D, each once. */
  ghost predicate LogBudget(sb: Super, logged: seq<nat>, indirect: nat, D: set<nat>) {
    && Distinct(logged)
    && forall s :: s in logged ==> s in D || (s == indirect && indirect != 0) || IsBitmap(sb, s)
  }

  lemma BudgetStep(sb: Super, was: seq<nat>, now: seq<nat>, ind: nat, ind': nat, addr: nat, D: set<nat>)
    requires LogBudget(sb, was, ind, D) && (ind != 0 ==> ind' == ind)
    requires LogGrows(sb, was, now, Touched(addr, ind'))
    ensures LogBudget(sb, now, ind', D + {addr})
  {
  }

  /** On a file system with one bitmap block, the budget is a bound on the transaction's length. */
  lemma BudgetSize(sb: Super, logged: seq<nat>, ind: nat, D: set<nat>)
    requires sb.size < BPB && LogBudget(sb, logged, ind, D)
    ensures |logged| <= |D| + 1 + (if ind != 0 then 1 else 0)
  {
    var S := D + {sb.ninodes / IPB + 3} + (if ind != 0 then {ind} else {});
    DistinctCount(logged, S, |logged|);
  }

  // ----- the open transaction

  /** The log_write calls `writes` lead from `base` to `view`, record the sectors `logged`, and fit in the log. */
  ghost predicate Transaction(sb: Super, base: Disk, writes: Tx, view: Disk, logged: seq<nat>)
    requires sb.Ok()
  {
    |base| == |view| && view == Apply(base, writes) && logged == Sectors(writes) && |logged| <= sb.Log().Capacity()
  }

  lemma TransactionGrows(sb: Super, base: Disk, writes: Tx, view: Disk, logged: seq<nat>, s: nat, data: Block)
    requires sb.Ok() && Transaction(sb, base, writes, view, logged) && s < |view| && |logged| < sb.Log().Capacity()
    ensures Transaction(sb, base, writes + [Write(s, data)], view[s := data], Record(logged, s))
  {
    ApplySnoc(base, writes, Write(s, data));
    SectorsSnoc(writes, Write(s, data));
  }

  /** Everything logged lies below the log. */
  ghost predicate BelowLog(sb: Super, logged: seq<nat>) {
    forall s :: s in logged ==> s < sb.LogStart()
  }

  lemma BelowLogGrows(sb: Super, was: seq<nat>, now: seq<nat>, addr: nat, ind: nat)
    requires sb.Ok() && BelowLog(sb, was) && LogGrows(sb, was, now, Touched(addr, ind))
    requires addr < sb.LogStart() && ind < sb.LogStart()
    ensures BelowLog(sb, now)
  {
  }

  lemma IndirectBelowLog(fs: Fs, i: nat)
    requires Owned(fs) && i in fs.ino
    ensures fs.ino[i].addrs[INDIRECT] < fs.sb.LogStart()
  {
    assert fs.ino[i].addrs[INDIRECT] == Ref(fs, i, INDIRECT);
    hide Ref, Used;
  }

  lemma InodeBelowLog(sb: Super, was: seq<nat>, i: nat)
    requires sb.Ok() && i < sb.ninodes && BelowLog(sb, was)
    ensures BelowLog(sb, Record(was, sb.InodeBlock(i)))
  {
    assert i / 8 <= sb.ninodes / 8;
  }
}
