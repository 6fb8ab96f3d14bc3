/** The block maps of all inodes together: who owns which block, and what allocation changes. */
module FsState {
  import opened Words
  import opened LogSpec
  import opened FsLayout

  /** Slots of an inode: 0..11 direct blocks, 12 the indirect block, 13..140 its entries. */
  const SLOTS := 141
  const INDIRECT := 12

  function Zero(): Block {
    seq(512, _ => 0)
  }

  /** Logical disk content and the current inodes (in memory if cached, else as on disk). */
  datatype Fs = Fs(sb: Super, view: Disk, ino: map<nat, Inode>)

  ghost predicate Shape(fs: Fs) {
    && fs.sb.Ok() && |fs.view| == fs.sb.size
    && forall i :: i in fs.ino ==> fs.ino[i].Ok() && i < fs.sb.ninodes
  }

  /** The block in slot k of inode i, 0 if none. */
  function Ref(fs: Fs, i: nat, k: nat): (r: nat)
    requires i in fs.ino && |fs.ino[i].addrs| == ADDRS && k < SLOTS
  {
    var a := fs.ino[i].addrs;
    if k <= INDIRECT then a[k]
    else if a[INDIRECT] == 0 || a[INDIRECT] >= |fs.view| then 0
    else GetWord(fs.view[a[INDIRECT]], k - 13)
  }

  /** The slot of file block bn. */
  function SlotOf(bn: nat): nat
    requires bn < MAXFILE
  {
    if bn < NDIRECT then bn else bn + 1
  }

  function Addr(fs: Fs, i: nat, bn: nat): nat
    requires i in fs.ino && |fs.ino[i].addrs| == ADDRS && bn < MAXFILE
  {
    Ref(fs, i, SlotOf(bn))
  }

  predicate Used(fs: Fs, b: nat)
    requires fs.sb.Ok() && |fs.view| == fs.sb.size && b < fs.sb.size
  {
    Bit(fs.sb, fs.view, b)
  }

  /** Every block in use by a file is a data block marked in the bitmap. */
  ghost predicate RefsMarked(fs: Fs)
    requires Shape(fs)
  {
    forall i, k :: i in fs.ino && 0 <= k < SLOTS && Ref(fs, i, k) != 0 ==>
      fs.sb.InData(Ref(fs, i, k)) && Used(fs, Ref(fs, i, k))
  }

  /** No block is reachable from two places. */
  ghost predicate RefsUnique(fs: Fs)
    requires Shape(fs)
  {
    forall i, k, j, l ::
      i in fs.ino && 0 <= k < SLOTS && j in fs.ino && 0 <= l < SLOTS && Ref(fs, i, k) != 0 ==>
        (Ref(fs, i, k) == Ref(fs, j, l) ==> i == j && k == l)
  }

  /** Blocks outside the data area are never free. */
  ghost predicate Reserved(fs: Fs)
    requires Shape(fs)
  {
    forall b: nat :: b < fs.sb.size && !fs.sb.InData(b) ==> Used(fs, b)
  }

  /** Block ownership. */
  ghost predicate Owned(fs: Fs) {
    Shape(fs) && RefsMarked(fs) && RefsUnique(fs) && Reserved(fs)
  }

  /** A block gets allocated to slot k of inode i, and nothing else moves. */
  ghost predicate Allocated(fs: Fs, fs': Fs, i: nat, k: nat, b: nat) {
    && Shape(fs) && Shape(fs') && fs'.sb == fs.sb
    && fs'.ino.Keys == fs.ino.Keys && i in fs.ino && k < SLOTS
    && fs'.ino[i] == fs.ino[i].(addrs := fs'.ino[i].addrs)
    && (forall j :: j in fs.ino && j != i ==> fs'.ino[j] == fs.ino[j])
    && fs.sb.InData(b) && !Used(fs, b) && Ref(fs, i, k) == 0 && fs'.view[b] == Zero()
    && (forall c: nat :: c < fs.sb.size ==> Used(fs', c) == (c == b || Used(fs, c)))
    && (forall j, l :: j in fs.ino && 0 <= l < SLOTS ==>
          Ref(fs', j, l) == if j == i && l == k then b else Ref(fs, j, l))
    && (forall s: nat :: fs.sb.InData(s) && s != b && s != fs.ino[i].addrs[INDIRECT] ==> fs'.view[s] == fs.view[s])
    && (forall s: nat :: s < fs.sb.ninodes / IPB + 3 ==> fs'.view[s] == fs.view[s])
  }

  lemma AllocatedKeepsOwned(fs: Fs, fs': Fs, i: nat, k: nat, b: nat)
    requires Owned(fs) && Allocated(fs, fs', i, k, b)
    ensures Owned(fs')
  {
    hide Ref, Used;
    assert b != 0;
    forall j, l | j in fs'.ino && 0 <= l < SLOTS && Ref(fs', j, l) != 0
      ensures fs.sb.InData(Ref(fs', j, l)) && Used(fs', Ref(fs', j, l))
    {
      assert j in fs.ino;
    }
    forall j, l, m, n | j in fs'.ino && 0 <= l < SLOTS && m in fs'.ino && 0 <= n < SLOTS
      && Ref(fs', j, l) != 0 && Ref(fs', j, l) == Ref(fs', m, n)
      ensures j == m && l == n
    {
      assert j in fs.ino && m in fs.ino;
    }
  }

  // ----- balloc

  /** The bitmap with b marked. */
  function Mark(sb: Super, view: Disk, b: nat, v: bool): (r: Disk)
    requires sb.Ok() && |view| == sb.size && b < sb.size
    ensures |r| == |view|
  {
    view[sb.BitmapBlock(b) := PutBitmap(view[sb.BitmapBlock(b)], b % BPB, v)]
  }

  /** balloc's effect once it has found b: mark it and zero it. */
  function Grab(fs: Fs, b: nat): (r: Fs)
    requires Shape(fs) && b < fs.sb.size
    ensures r.sb == fs.sb && r.ino == fs.ino && |r.view| == |fs.view|
  {
    fs.(view := Mark(fs.sb, fs.view, b, true)[b := Zero()])
  }

  lemma MarkUsed(fs: Fs, b: nat, v: bool, c: nat)
    requires Shape(fs) && b < fs.sb.size && c < fs.sb.size
    ensures Used(fs.(view := Mark(fs.sb, fs.view, b, v)), c) == if c == b then v else Used(fs, c)
  {
    PutBitmapBits(fs.sb, fs.view, b, v, c);
  }

  /** Grabbing a free data block changes only the bitmap and that block; no slot sees it. */
  lemma GrabFrame(fs: Fs, b: nat)
    requires Owned(fs) && fs.sb.InData(b) && !Used(fs, b)
    ensures var g := Grab(fs, b);
            && Shape(g) && g.view[b] == Zero()
            && (forall c: nat :: c < fs.sb.size ==> Used(g, c) == (c == b || Used(fs, c)))
            && (forall j, l :: j in fs.ino && 0 <= l < SLOTS ==> Ref(g, j, l) == Ref(fs, j, l))
            && (forall s: nat :: fs.sb.InData(s) && s != b ==> g.view[s] == fs.view[s])
            && (forall s: nat :: s < fs.sb.ninodes / IPB + 3 ==> g.view[s] == fs.view[s])
  {
    hide GetWord, PutBitmap;
    var g := Grab(fs, b);
    forall c: nat | c < fs.sb.size ensures Used(g, c) == (c == b || Used(fs, c)) {
      MarkUsed(fs, b, true, c);
    }
    forall j, l | j in fs.ino && 0 <= l < SLOTS ensures Ref(g, j, l) == Ref(fs, j, l) {
      assert Ref(fs, j, INDIRECT) == fs.ino[j].addrs[INDIRECT];
    }
  }

  /** A zeroed indirect block has no entries. */
  lemma ZeroWords(k: nat)
    requires k < WORDS_PER_BLOCK
    ensures GetWord(Zero(), k) == 0
  {
  }

  /** balloc stored in the inode: a direct block or the indirect block. */
  lemma AllocInInode(fs: Fs, i: nat, k: nat, b: nat)
    requires Owned(fs) && fs.sb.InData(b) && !Used(fs, b)
    requires i in fs.ino && k <= INDIRECT && fs.ino[i].addrs[k] == 0
    ensures var ip := fs.ino[i];
            Allocated(fs, Grab(fs, b).(ino := fs.ino[i := ip.(addrs := ip.addrs[k := b])]), i, k, b)
  {
    hide GetWord, Grab, Used;
    GrabFrame(fs, b);
    var g := Grab(fs, b);
    var ip := fs.ino[i];
    var f := g.(ino := fs.ino[i := ip.(addrs := ip.addrs[k := b])]);
    forall c: nat | c < fs.sb.size ensures Used(f, c) == Used(g, c) { SameViewSameUse(f, g, c); }
    forall j, l | j in fs.ino && 0 <= l < SLOTS
      ensures Ref(f, j, l) == if j == i && l == k then b else Ref(fs, j, l)
    {
      assert Ref(g, j, l) == Ref(fs, j, l);
      if j == i && k == INDIRECT && l > INDIRECT { ZeroWords(l - 13); }
    }
  }

  lemma SameViewSameUse(f: Fs, g: Fs, c: nat)
    requires f.sb == g.sb && f.view == g.view && f.sb.Ok() && |f.view| == f.sb.size && c < f.sb.size
    ensures Used(f, c) == Used(g, c)
  {
  }

  /** balloc stored in an entry of the indirect block. */
  lemma AllocInEntry(fs: Fs, i: nat, k: nat, b: nat)
    requires Owned(fs) && fs.sb.InData(b) && !Used(fs, b)
    requires i in fs.ino && INDIRECT < k < SLOTS && Ref(fs, i, INDIRECT) != 0 && Ref(fs, i, k) == 0
    ensures var a := fs.ino[i].addrs[INDIRECT];
            && fs.sb.InData(a) && a != b
            && Allocated(fs, Grab(fs, b).(view := Grab(fs, b).view[a := PutWord(fs.view[a], k - 13, b)]), i, k, b)
  {
    hide GetWord, PutWord, Grab, Used;
    GrabFrame(fs, b);
    var a := fs.ino[i].addrs[INDIRECT];
    assert a == Ref(fs, i, INDIRECT);
    var g := Grab(fs, b);
    var f := g.(view := g.view[a := PutWord(fs.view[a], k - 13, b)]);
    forall c: nat | c < fs.sb.size ensures Used(f, c) == Used(g, c) { DataWriteKeepsUse(g, a, f.view[a], c); }
    forall j, l | j in fs.ino && 0 <= l < SLOTS
      ensures Ref(f, j, l) == if j == i && l == k then b else Ref(fs, j, l)
    {
      assert Ref(g, j, l) == Ref(fs, j, l) && Ref(fs, j, INDIRECT) == fs.ino[j].addrs[INDIRECT];
      if j == i && l > INDIRECT { GetPutWord(fs.view[a], k - 13, b, l - 13); }
    }
  }

  /** Writing a data block leaves the bitmap alone. */
  lemma DataWriteKeepsUse(fs: Fs, a: nat, data: Block, c: nat)
    requires Shape(fs) && fs.sb.InData(a) && c < fs.sb.size
    ensures Used(fs.(view := fs.view[a := data]), c) == Used(fs, c)
  {
  }

  // ----- file data

  /** Writing the data of a file block leaves every block map and every other file's data alone. */
  lemma DataWrite(fs: Fs, i: nat, k: nat, data: Block)
    requires Owned(fs) && i in fs.ino && k < SLOTS && k != INDIRECT && Ref(fs, i, k) != 0
    ensures var f := fs.(view := fs.view[Ref(fs, i, k) := data]);
            && Owned(f) && fs.sb.InData(Ref(fs, i, k))
            && forall j, l :: j in fs.ino && 0 <= l < SLOTS ==> Ref(f, j, l) == Ref(fs, j, l)
  {
    hide GetWord, Used;
    var a := Ref(fs, i, k);
    var f := fs.(view := fs.view[a := data]);
    forall j, l | j in fs.ino && 0 <= l < SLOTS ensures Ref(f, j, l) == Ref(fs, j, l) {
      assert Ref(fs, j, INDIRECT) == fs.ino[j].addrs[INDIRECT];
    }
    forall c: nat | c < fs.sb.size ensures Used(f, c) == Used(fs, c) { DataWriteKeepsUse(fs, a, data, c); }
  }
}
