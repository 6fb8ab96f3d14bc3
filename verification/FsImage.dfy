/** Images that meet the file system's invariant: one with an empty file, and what writing to it gives. */
module FsImage {
  import opened Words
  import opened LogSpec
  import opened FsLayout
  import opened FsState
  import opened FsMap
  import opened FsFile
  import opened FsCharge
  import opened FileSystem

  /** A regular file without blocks. */
  function EmptyInode(): (ip: Inode)
    ensures ip.Ok()
  {
    Inode(2, 0, 0, 1, 0, seq(ADDRS, _ => 0))
  }

  function MarkedBlock(sb: Super, i: nat, s: nat): Block {
    if IsBitmap(sb, s) then seq(512, _ => 255)
    else if s == sb.InodeBlock(i) then PutInode(Zero(), i, EmptyInode())
    else Zero()
  }

  /** Every block marked, and inode i stored in its block. */
  function MarkedImage(sb: Super, i: nat): (view: Disk)
    ensures |view| == sb.size
  {
    seq(sb.size, s requires 0 <= s < sb.size => MarkedBlock(sb, i, s))
  }

  /** The same with the data blocks below b cleared in the bitmap. */
  function Unmarked(sb: Super, i: nat, b: nat): (view: Disk)
    requires sb.Ok() && b <= sb.LogStart()
    ensures |view| == sb.size
  {
    if b <= sb.DataStart() then MarkedImage(sb, i) else Mark(sb, Unmarked(sb, i, b - 1), b - 1, false)
  }

  /** What mkfs leaves, with the log marked in the bitmap as well: all metadata, no data, one empty file. */
  function EmptyFs(sb: Super, i: nat): Fs
    requires sb.Ok() && i < sb.ninodes
  {
    Fs(sb, Unmarked(sb, i, sb.LogStart()), map[i := EmptyInode()])
  }

  lemma {:induction false} AllBits(k: nat)
    requires k < 8
    ensures TestBit(255, k)
  {
    assert TestBit(1, 0) && TestBit(3, 1) && TestBit(7, 2) && TestBit(15, 3);
    assert TestBit(31, 4) && TestBit(63, 5) && TestBit(127, 6) && TestBit(255, 7);
    assert TestBit(255, 0) && TestBit(255, 1) && TestBit(255, 2) && TestBit(255, 3);
    assert TestBit(255, 4) && TestBit(255, 5) && TestBit(255, 6);
  }

  lemma {:induction false} UnmarkedUsed(sb: Super, i: nat, b: nat, c: nat)
    requires sb.Ok() && b <= sb.LogStart() && c < sb.size
    ensures Bit(sb, Unmarked(sb, i, b), c) <==> !(sb.DataStart() <= c < b)
    decreases b
  {
    hide TestBit, PutBitmap;
    if b <= sb.DataStart() {
      assert c / 4096 <= sb.size / 4096;
      AllBits(c % 8);
    } else {
      UnmarkedUsed(sb, i, b - 1, c);
      PutBitmapBits(sb, Unmarked(sb, i, b - 1), b - 1, false, c);
    }
  }

  lemma {:induction false} UnmarkedKeeps(sb: Super, i: nat, b: nat, s: nat)
    requires sb.Ok() && b <= sb.LogStart() && s < sb.size && !IsBitmap(sb, s)
    ensures Unmarked(sb, i, b)[s] == MarkedImage(sb, i)[s]
    decreases b
  {
    if b > sb.DataStart() {
      UnmarkedKeeps(sb, i, b - 1, s);
      assert (b - 1) / 4096 <= sb.size / 4096;
    }
  }

  /** The image meets the invariant. */
  lemma EmptyImage(sb: Super, i: nat)
    requires sb.Ok() && i < sb.ninodes
    ensures FsInv(EmptyFs(sb, i))
    ensures FreeBlocks(EmptyFs(sb, i)) == set b: nat | b < sb.size && sb.InData(b)
    ensures forall b: nat :: b in FreeBlocks(EmptyFs(sb, i)) <==>
              sb.ninodes / 8 + 3 + (sb.size / 4096 + 1) <= b < sb.size - sb.nlog
  {
    hide Unmarked, TestBit, PutInode, GetInode, MarkedImage;
    var fs := EmptyFs(sb, i);
    forall c: nat | c < sb.size ensures Used(fs, c) <==> !sb.InData(c) { UnmarkedUsed(sb, i, sb.LogStart(), c); }
    forall k | 0 <= k < SLOTS ensures Ref(fs, i, k) == 0 {}
    assert Owned(fs);
    StoredInode(sb, i);
  }

  lemma StoredInode(sb: Super, i: nat)
    requires sb.Ok() && i < sb.ninodes
    ensures Shape(EmptyFs(sb, i)) && Flushed(EmptyFs(sb, i), i)
  {
    hide PutInode, GetInode, Unmarked;
    var s := sb.InodeBlock(i);
    assert i / 8 <= sb.ninodes / 8;
    UnmarkedKeeps(sb, i, sb.LogStart(), s);
    InodeRoundTrip(Zero(), i, EmptyInode(), i);
  }

  lemma OneBlock(sb: Super, i: nat, n: nat)
    requires sb.Ok() && i < sb.ninodes && 0 < n <= 512 && sb.InData(sb.DataStart())
    ensures Shape(EmptyFs(sb, i)) && NeededFor(EmptyFs(sb, i), i, 0, n) <= 1 <= |FreeBlocks(EmptyFs(sb, i))|
  {
    hide Unmarked, Used, RefsMarked, RefsUnique, Reserved, Flushed;
    EmptyImage(sb, i);
    var fs := EmptyFs(sb, i);
    assert Missing(fs, i, 0, 0) == 0;
    assert sb.DataStart() in FreeBlocks(fs);
    assert |FreeBlocks(fs)| > 0;
  }

  /** Writing to the empty file gives a file system with that file. */
  method FirstFile(sb: Super, i: nat, data: seq<byte>) returns (fs: FileSystem)
    requires sb.Ok() && i < sb.ninodes && sb.size < BPB && sb.nlog >= 5 && sb.InData(sb.DataStart())
    requires 0 < |data| <= 512
    ensures fresh(fs) && FsInv(fs.Value()) && i in fs.ino && fs.ino[i].size == |data|
    ensures Contents(fs.Value(), i) == data
  {
    hide FsInv, Unmarked, PanicMeans, NeededFor, FreeBlocks, Contents;
    var image := EmptyFs(sb, i);
    EmptyImage(sb, i);
    OneBlock(sb, i, |data|);
    fs := new FileSystem(sb, image.view, image.ino, _ => {}, 0);
    assert fs.Value() == image;
    var r := fs.Writei(i, 0, data);
    NoPanic(image, i, |data|, r);
    WrittenWhole(image, fs.Value(), i, data);
  }

  lemma NoPanic(fs: Fs, i: nat, n: nat, r: WriteResult)
    requires Shape(fs) && i in fs.ino && 0 < n <= 512 && fs.sb.size < BPB && fs.sb.nlog >= 5
    requires NeededFor(fs, i, 0, n) <= |FreeBlocks(fs)| && !r.WriteRefused?
    requires r.WritePanic? ==> PanicMeans(fs, i, 0, n, true, r.why, 0)
    ensures r.Wrote?
  {
    hide NeededIn, FreeBlocks;
  }

  lemma WrittenWhole(f: Fs, g: Fs, i: nat, data: seq<byte>)
    requires WriteDone(f, g, i, 0, data) && i in f.ino && f.ino[i].size == 0
    ensures FsInv(g) && i in g.ino && g.ino[i].size == |data| && Contents(g, i) == data
  {
    hide RefsMarked, RefsUnique, Reserved, Flushed;
  }
}
