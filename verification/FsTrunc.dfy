/** itrunc: giving back exactly the blocks a file owns. */
module FsTrunc {
  import opened Words
  import opened LogSpec
  import opened FsLayout
  import opened FsState
  import opened FsMap
  import opened FsFile

  /** The order in which itrunc frees slots: direct blocks, then the entries, then the indirect block. */
  function SlotAt(p: nat): (k: nat)
    requires p < SLOTS
    ensures k < SLOTS
  {
    if p < NDIRECT then p else if p < SLOTS - 1 then p + 1 else INDIRECT
  }

  /** Blocks of inode i in the first p slots of that order. */
  ghost function Freed(fs: Fs, i: nat, p: nat): (F: set<nat>)
    requires Shape(fs) && i in fs.ino && p <= SLOTS
    ensures forall b :: b in F <==> exists q :: 0 <= q < p && Ref(fs, i, SlotAt(q)) == b && b != 0
  {
    if p == 0 then {} else
      var b := Ref(fs, i, SlotAt(p - 1));
      if b == 0 then Freed(fs, i, p - 1) else Freed(fs, i, p - 1) + {b}
  }

  /** All blocks of inode i. */
  ghost predicate Owns(fs: Fs, i: nat, b: nat)
    requires Shape(fs) && i in fs.ino
  {
    b != 0 && exists k :: 0 <= k < SLOTS && Ref(fs, i, k) == b
  }

  lemma FreedAll(fs: Fs, i: nat, b: nat)
    requires Shape(fs) && i in fs.ino
    ensures b in Freed(fs, i, SLOTS) <==> Owns(fs, i, b)
  {
    hide Ref;
    if Owns(fs, i, b) {
      var k :| 0 <= k < SLOTS && Ref(fs, i, k) == b;
      var q := if k < NDIRECT then k else if k == INDIRECT then SLOTS - 1 else k - 1;
      assert SlotAt(q) == k;
    }
  }

  /** The bitmap has lost exactly the bits F; everything outside the bitmap is as it was. */
  ghost predicate Freeing(fs: Fs, view: Disk, F: set<nat>)
    requires Shape(fs)
  {
    && |view| == |fs.view|
    && (forall c: nat :: c < fs.sb.size ==> Used(fs.(view := view), c) == (Used(fs, c) && c !in F))
    && (forall s: nat :: s < fs.sb.size && !IsBitmap(fs.sb, s) ==> view[s] == fs.view[s])
  }

  /** The bitmap starts behind the boot block and the superblock. */
  lemma FreeingKeepsBoot(fs: Fs, view: Disk, F: set<nat>)
    requires Shape(fs) && Freeing(fs, view, F)
    ensures BootKept(fs.view, view)
  {
    hide Used;
  }

  lemma FreeingStart(fs: Fs)
    requires Shape(fs)
    ensures Freeing(fs, fs.view, {})
  {
    assert fs.(view := fs.view) == fs;
  }

  /** The next block to free is still marked: bfree cannot panic with "freeing free block". */
  lemma FreeNext(fs: Fs, view: Disk, i: nat, p: nat)
    requires Owned(fs) && i in fs.ino && p < SLOTS && Freeing(fs, view, Freed(fs, i, p))
    requires Ref(fs, i, SlotAt(p)) != 0
    ensures var b := Ref(fs, i, SlotAt(p));
            && b < fs.sb.size && Used(fs.(view := view), b)
            && Freeing(fs, Mark(fs.sb, view, b, false), Freed(fs, i, p + 1))
  {
    hide Ref, Used, Mark;
    var b := Ref(fs, i, SlotAt(p));
    assert b !in Freed(fs, i, p) by {
      forall q | 0 <= q < p ensures Ref(fs, i, SlotAt(q)) != b {
        assert SlotAt(q) != SlotAt(p);
      }
    }
    var g := fs.(view := view);
    forall c: nat | c < fs.sb.size
      ensures Used(fs.(view := Mark(fs.sb, view, b, false)), c) == (Used(fs, c) && c !in Freed(fs, i, p + 1))
    {
      MarkUsed(g, b, false, c);
    }
    MarkFrame(fs.sb, view, b);
  }

  lemma MarkFrame(sb: Super, view: Disk, b: nat)
    requires sb.Ok() && |view| == sb.size && b < sb.size
    ensures forall s: nat :: s < sb.size && !IsBitmap(sb, s) ==> Mark(sb, view, b, false)[s] == view[s]
  {
  }

  lemma FreeSkip(fs: Fs, i: nat, p: nat)
    requires Shape(fs) && i in fs.ino && p < SLOTS && Ref(fs, i, SlotAt(p)) == 0
    ensures Freed(fs, i, p + 1) == Freed(fs, i, p)
  {
  }

  // ----- the state after itrunc

  function Emptied(ip: Inode): Inode {
    ip.(addrs := seq(ADDRS, _ => 0), size := 0)
  }

  /** Freed bits and an emptied inode: the other files own what they owned. */
  lemma EmptiedOwned(fs: Fs, view: Disk, i: nat)
    requires Owned(fs) && i in fs.ino && Freeing(fs, view, Freed(fs, i, SLOTS))
    ensures var g := Fs(fs.sb, view, fs.ino[i := Emptied(fs.ino[i])]);
            && Owned(g)
            && (forall c: nat :: c < fs.sb.size ==> (Used(g, c) <==> Used(fs, c) && !Owns(fs, i, c)))
            && (forall k :: 0 <= k < SLOTS ==> Ref(g, i, k) == 0)
            && (forall j, k :: j in fs.ino && j != i && 0 <= k < SLOTS ==> Ref(g, j, k) == Ref(fs, j, k))
  {
    hide Used, Freed, Ref, Freeing;
    var g := Fs(fs.sb, view, fs.ino[i := Emptied(fs.ino[i])]);
    EmptiedRefs(fs, view, i);
    forall c: nat | c < fs.sb.size ensures Used(g, c) <==> Used(fs, c) && !Owns(fs, i, c) {
      EmptiedUse(fs, view, i, c);
    }
    hide Owns;
    forall j, k | j in g.ino && 0 <= k < SLOTS && Ref(g, j, k) != 0
      ensures g.sb.InData(Ref(g, j, k)) && Used(g, Ref(g, j, k))
    {
      OthersOwn(fs, i, j, k);
    }
    forall b: nat | b < g.sb.size && !g.sb.InData(b) ensures Used(g, b) {
      ReservedNotOwned(fs, i, b);
    }
  }

  lemma EmptiedRefs(fs: Fs, view: Disk, i: nat)
    requires Owned(fs) && i in fs.ino && Freeing(fs, view, Freed(fs, i, SLOTS))
    ensures var g := Fs(fs.sb, view, fs.ino[i := Emptied(fs.ino[i])]);
            && Shape(g)
            && (forall k :: 0 <= k < SLOTS ==> Ref(g, i, k) == 0)
            && (forall j, k :: j in fs.ino && j != i && 0 <= k < SLOTS ==> Ref(g, j, k) == Ref(fs, j, k))
  {
    hide Used, GetWord, Freed, RefsUnique, Reserved;
    forall j, k | j in fs.ino && j != i && 0 <= k < SLOTS
      ensures Ref(Fs(fs.sb, view, fs.ino[i := Emptied(fs.ino[i])]), j, k) == Ref(fs, j, k)
    {
      assert Ref(fs, j, INDIRECT) == fs.ino[j].addrs[INDIRECT];
    }
  }

  lemma EmptiedUse(fs: Fs, view: Disk, i: nat, c: nat)
    requires Owned(fs) && i in fs.ino && Freeing(fs, view, Freed(fs, i, SLOTS)) && c < fs.sb.size
    ensures Used(Fs(fs.sb, view, fs.ino[i := Emptied(fs.ino[i])]), c) <==> Used(fs, c) && !Owns(fs, i, c)
  {
    hide Used, Freed, Ref, Owns, RefsMarked, RefsUnique, Reserved;
    SameViewSameUse(Fs(fs.sb, view, fs.ino[i := Emptied(fs.ino[i])]), fs.(view := view), c);
    FreedAll(fs, i, c);
  }

  lemma OthersOwn(fs: Fs, i: nat, j: nat, k: nat)
    requires Owned(fs) && i in fs.ino && j in fs.ino && j != i && k < SLOTS && Ref(fs, j, k) != 0
    ensures !Owns(fs, i, Ref(fs, j, k))
  {
    hide Used, Ref;
  }

  lemma ReservedNotOwned(fs: Fs, i: nat, b: nat)
    requires Owned(fs) && i in fs.ino && !fs.sb.InData(b)
    ensures !Owns(fs, i, b)
  {
    hide Used, Ref;
  }

  /** What itrunc leaves: exactly the file's bits are cleared, it is empty, the others are untouched. */
  ghost predicate TruncDone(fs: Fs, g: Fs, i: nat) {
    && FsInv(fs) && FsInv(g) && g.sb == fs.sb && i in fs.ino && g.ino == fs.ino[i := Emptied(fs.ino[i])]
    && Contents(g, i) == []
    && (forall j :: j in fs.ino && j != i ==> Contents(g, j) == Contents(fs, j))
    && (forall c: nat :: c < fs.sb.size ==> (Used(g, c) <==> Used(fs, c) && !Owns(fs, i, c)))
    && BootKept(fs.view, g.view)
  }

  lemma EmptiedFiles(fs: Fs, view: Disk, i: nat, j: nat)
    requires FsInv(fs) && i in fs.ino && j in fs.ino && Freeing(fs, view, Freed(fs, i, SLOTS))
    ensures var g := Fs(fs.sb, view, fs.ino[i := Emptied(fs.ino[i])]);
            && Shape(g) && NoHoles(g, j) && (j != i ==> Contents(g, j) == Contents(fs, j) && Flushed(g, j))
  {
    hide Ref, Used, GetInode, Freed;
    EmptiedOwned(fs, view, i);
    var g := Fs(fs.sb, view, fs.ino[i := Emptied(fs.ino[i])]);
    if j != i {
      forall bn | 0 <= bn < BlocksFor(g.ino[j].size) ensures Addr(g, j, bn) != 0 {
        assert Addr(fs, j, bn) != 0;
      }
      forall x | 0 <= x < MAXBYTES && Addr(fs, j, x / 512) != 0 ensures ByteAt(g, j, x) == ByteAt(fs, j, x) {
        var l := SlotOf(x / 512);
        assert fs.sb.InData(Ref(fs, j, l));
        assert Ref(g, j, l) == Ref(fs, j, l);
      }
      SameContents(fs, g, j);
    }
  }

  /** The emptied inode, before and after it is flushed. */
  ghost function Truncated(fs: Fs, view: Disk, i: nat): Fs
    requires i in fs.ino
  {
    Fs(fs.sb, view, fs.ino[i := Emptied(fs.ino[i])])
  }

  lemma TruncateFiles(fs: Fs, view: Disk, i: nat)
    requires FsInv(fs) && i in fs.ino && Freeing(fs, view, Freed(fs, i, SLOTS))
    ensures var g := Truncated(fs, view, i);
            && Owned(g) && fs.sb.InodeBlock(i) < |g.view|
            && var h := FlushInode(g, i);
            && h.sb == fs.sb && h.ino == g.ino && FsInv(h) && Contents(h, i) == []
            && forall j :: j in fs.ino && j != i ==> Contents(h, j) == Contents(fs, j)
  {
    hide Ref, Used, GetInode, Freed, Freeing, Contents, Flushed, FlushInode, PutInode, RefsMarked, RefsUnique, Reserved;
    EmptiedOwned(fs, view, i);
    var g := Truncated(fs, view, i);
    forall j | j in g.ino ensures NoHoles(g, j) { EmptiedFiles(fs, view, i, j); }
    FlushKeepsFiles(g, i);
    FlushFields(g, i);
    forall j | j in fs.ino && j != i ensures Contents(g, j) == Contents(fs, j) && Flushed(g, j) {
      EmptiedFiles(fs, view, i, j);
    }
  }

  lemma TruncateDone(fs: Fs, view: Disk, i: nat)
    requires FsInv(fs) && i in fs.ino && Freeing(fs, view, Freed(fs, i, SLOTS))
    ensures var g := Truncated(fs, view, i);
            Owned(g) && fs.sb.InodeBlock(i) < |g.view| && TruncDone(fs, FlushInode(g, i), i)
  {
    hide Ref, Used, Freed, Freeing, Contents, NoHoles, Flushed, FlushInode, RefsMarked, RefsUnique, Reserved, Owns;
    TruncateFiles(fs, view, i);
    EmptiedOwned(fs, view, i);
    var g := Truncated(fs, view, i);
    FreeingKeepsBoot(fs, view, Freed(fs, i, SLOTS));
    FlushFields(g, i);
    forall c: nat | c < fs.sb.size
      ensures Used(FlushInode(g, i), c) <==> Used(fs, c) && !Owns(fs, i, c)
    {
      FlushKeepsUse(g, i, c);
    }
  }

  /** What freeing an inode leaves: as itrunc, and the inode is marked free, on disk as well. */
  ghost predicate FreeDone(fs: Fs, g: Fs, i: nat) {
    && FsInv(fs) && FsInv(g) && g.sb == fs.sb && i in fs.ino && g.ino == fs.ino[i := Emptied(fs.ino[i]).(typ := 0)]
    && (forall j :: j in fs.ino && j != i ==> Contents(g, j) == Contents(fs, j))
    && (forall c: nat :: c < fs.sb.size ==> (Used(g, c) <==> Used(fs, c) && !Owns(fs, i, c)))
    && BootKept(fs.view, g.view)
  }

  ghost function Untyped(g: Fs, i: nat): Fs
    requires i in g.ino
  {
    g.(ino := g.ino[i := g.ino[i].(typ := 0)])
  }

  /** The type says nothing about where blocks are. */
  lemma UntypedKeeps(g: Fs, i: nat)
    requires FsInv(g) && i in g.ino
    ensures var h := Untyped(g, i);
            && Owned(h) && (forall j :: j in g.ino ==> NoHoles(h, j) && Contents(h, j) == Contents(g, j))
            && (forall j :: j in g.ino && j != i ==> Flushed(h, j))
  {
    hide GetInode, Ref, Used, RefsMarked, RefsUnique, Reserved, ByteAt;
    var h := Untyped(g, i);
    UntypedMap(g, i);
    forall j | j in g.ino ensures NoHoles(h, j) && Contents(h, j) == Contents(g, j) {
      forall bn | 0 <= bn < BlocksFor(g.ino[j].size) ensures Addr(h, j, bn) != 0 { assert Addr(g, j, bn) != 0; }
      assert forall x :: 0 <= x < g.ino[j].size ==> ByteAt(h, j, x) == ByteAt(g, j, x);
    }
  }

  lemma UntypedMap(g: Fs, i: nat)
    requires Owned(g) && i in g.ino
    ensures var h := Untyped(g, i);
            && Owned(h) && (forall j, l :: j in g.ino && 0 <= l < SLOTS ==> Ref(h, j, l) == Ref(g, j, l))
            && (forall j, x :: j in g.ino && 0 <= x < MAXBYTES ==> ByteAt(h, j, x) == ByteAt(g, j, x))
  {
    hide GetWord;
    var h := Untyped(g, i);
    forall j, l | j in g.ino && 0 <= l < SLOTS ensures Ref(h, j, l) == Ref(g, j, l) {}
    forall c: nat | c < g.sb.size ensures Used(h, c) == Used(g, c) {}
  }

  lemma UntypedDone(fs: Fs, g: Fs, i: nat)
    requires TruncDone(fs, g, i)
    ensures var h := Untyped(g, i);
            Owned(h) && fs.sb.InodeBlock(i) < |h.view| && FreeDone(fs, FlushInode(h, i), i)
  {
    hide Ref, Used, Contents, NoHoles, Flushed, FlushInode, RefsMarked, RefsUnique, Reserved, Owns;
    var h := Untyped(g, i);
    UntypedKeeps(g, i);
    FlushKeepsFiles(h, i);
    FlushFields(h, i);
    forall c: nat | c < fs.sb.size ensures Used(FlushInode(h, i), c) <==> Used(g, c) {
      FlushKeepsUse(h, i, c);
      SameViewSameUse(h, g, c);
    }
  }

  lemma FlushKeepsUse(g: Fs, i: nat, c: nat)
    requires Shape(g) && i in g.ino && c < g.sb.size && g.sb.InodeBlock(i) < |g.view|
    ensures |FlushInode(g, i).view| == |g.view| && FlushInode(g, i).sb == g.sb
    ensures Used(FlushInode(g, i), c) == Used(g, c)
  {
    hide PutInode, TestBit;
  }

  /** The inode part-way through the direct blocks: the first k addresses are cleared. */
  function Cleared(ip: Inode, k: nat): Inode
    requires |ip.addrs| == ADDRS && k <= ADDRS
  {
    ip.(addrs := seq(k, _ => 0) + ip.addrs[k..])
  }

  lemma ClearNext(ip: Inode, k: nat)
    requires |ip.addrs| == ADDRS && k < ADDRS
    ensures Cleared(ip, k).addrs[k := 0] == Cleared(ip, k + 1).addrs
    ensures Cleared(ip, k).addrs[k] == ip.addrs[k]
    ensures Cleared(ip, ADDRS).(size := 0) == Emptied(ip) && Cleared(ip, 0) == ip
    ensures |Cleared(ip, k).addrs| == ADDRS && Cleared(ip, k).(addrs := Cleared(ip, k + 1).addrs) == Cleared(ip, k + 1)
  {
  }

  lemma DirectSlot(fs: Fs, i: nat, k: nat)
    requires Shape(fs) && i in fs.ino && k < NDIRECT
    ensures Ref(fs, i, SlotAt(k)) == fs.ino[i].addrs[k]
  {
  }

  /** The last slot itrunc frees is the indirect block. */
  lemma LastSlot(fs: Fs, i: nat)
    requires Shape(fs) && i in fs.ino
    ensures Ref(fs, i, SlotAt(SLOTS - 1)) == fs.ino[i].addrs[INDIRECT]
  {
  }

  /** Without an indirect block there are no entries to free. */
  lemma {:induction false} NoEntries(fs: Fs, i: nat, p: nat)
    requires Shape(fs) && i in fs.ino && fs.ino[i].addrs[INDIRECT] == 0 && NDIRECT <= p <= SLOTS
    ensures Freed(fs, i, p) == Freed(fs, i, NDIRECT)
    decreases p
  {
    if p > NDIRECT {
      NoEntries(fs, i, p - 1);
      FreeSkip(fs, i, p - 1);
    }
  }
}
