/** On-disk layout of fs.h: bit operations, the free bitmap, and inodes packed in blocks. */
module FsLayout {
  import opened Words
  import opened LogSpec

  // ----- bits of a byte: x & (1 << k), x | (1 << k), x & ~(1 << k)

  predicate TestBit(x: nat, k: nat) {
    if k == 0 then x % 2 == 1 else TestBit(x / 2, k - 1)
  }

  /** x with bit k replaced by v. */
  function PutBit(x: nat, k: nat, v: bool): (r: nat) {
    if k == 0 then 2 * (x / 2) + (if v then 1 else 0) else 2 * PutBit(x / 2, k - 1, v) + x % 2
  }

  lemma {:induction false} TestPutBit(x: nat, k: nat, v: bool, j: nat)
    ensures TestBit(PutBit(x, k, v), j) == if j == k then v else TestBit(x, j)
    decreases k
  {
    if k > 0 && j > 0 {
      TestPutBit(x / 2, k - 1, v, j - 1);
    }
  }

  function Pow2(n: nat): nat {
    if n == 0 then 1 else 2 * Pow2(n - 1)
  }

  lemma {:induction false} PutBitBound(x: nat, k: nat, v: bool, n: nat)
    requires k < n && x < Pow2(n)
    ensures PutBit(x, k, v) < Pow2(n)
    decreases n
  {
    var h := Pow2(n - 1);
    assert Pow2(n) == 2 * h;
    hide Pow2;
    HalfBound(x, h);
    if k > 0 {
      PutBitBound(x / 2, k - 1, v, n - 1);
    }
  }

  lemma HalfBound(x: nat, h: nat)
    requires x < 2 * h
    ensures x / 2 < h && x % 2 <= 1
  {
  }

  /** A byte stays a byte. */
  function PutBitByte(x: byte, k: nat, v: bool): (r: byte)
    requires k < 8
  {
    assert Pow2(8) == 256 by { assert Pow2(4) == 16; }
    PutBitBound(x, k, v, 8);
    PutBit(x, k, v)
  }

  // ----- where things are

  const BPB := 4096
  const IPB := 8
  const NDIRECT := 12
  const NINDIRECT := 128
  const MAXFILE := 140

  datatype Super = Super(size: nat, ninodes: nat, nlog: nat) {
    function InodeBlock(i: nat): nat {
      i / IPB + 2
    }

    function BitmapBlock(b: nat): nat {
      b / BPB + ninodes / IPB + 3
    }

    /** First block after the boot block, superblock, inodes and bitmap (mkfs: usedblocks). */
    function DataStart(): nat {
      ninodes / IPB + 3 + (size / BPB + 1)
    }

    function LogStart(): int {
      size - nlog
    }

    predicate InData(b: nat) {
      DataStart() <= b < LogStart()
    }

    predicate Ok() {
      nlog >= 1 && DataStart() <= LogStart() && size <= 0x8000_0000
    }

    function Log(): Geometry
      requires Ok()
    {
      Geometry(LogStart(), nlog)
    }
  }

  // ----- the free bitmap

  predicate Bit(sb: Super, view: Disk, b: nat)
    requires |view| == sb.size && sb.Ok() && b < sb.size
  {
    TestBit(view[sb.BitmapBlock(b)][(b % BPB) / 8], b % 8)
  }

  function PutBitmap(block: Block, bi: nat, v: bool): (r: Block)
    requires bi < BPB
  {
    block[bi / 8 := PutBitByte(block[bi / 8], bi % 8, v)]
  }

  /** Storing one bitmap bit changes that bit and no other. */
  lemma PutBitmapBits(sb: Super, view: Disk, b: nat, v: bool, c: nat)
    requires |view| == sb.size && sb.Ok() && b < sb.size && c < sb.size
    ensures var bb := sb.BitmapBlock(b);
            && bb < |view|
            && Bit(sb, view[bb := PutBitmap(view[bb], b % BPB, v)], c) == if c == b then v else Bit(sb, view, c)
  {
    hide TestBit, PutBit;
    BitPlace(b);
    BitPlace(c);
    TestPutBit(view[sb.BitmapBlock(b)][(b % BPB) / 8], b % 8, v, c % 8);
  }

  /** A block number is told by its bitmap block, byte and bit. */
  lemma BitPlace(b: nat)
    ensures b % 4096 % 8 == b % 8 && b == 4096 * (b / 4096) + 8 * (b % 4096 / 8) + b % 8
  {
    var q, m := b / 4096, b % 4096;
    assert b == 8 * (512 * q) + m;
  }

  // ----- inodes

  const ADDRS := 13

  /** struct dinode, and the same fields of the in-memory struct inode. */
  datatype Inode = Inode(typ: nat, major: nat, minor: nat, nlink: nat, size: nat, addrs: seq<nat>) {
    predicate Ok() {
      && typ < 0x1_0000 && major < 0x1_0000 && minor < 0x1_0000 && nlink < 0x1_0000
      && size < WORD_LIMIT && |addrs| == ADDRS
      && forall k :: 0 <= k < ADDRS ==> addrs[k] < WORD_LIMIT
    }

    /** The sixteen words of a dinode: four shorts, the size and the addresses. */
    function Word(k: nat): word
      requires Ok() && k < 16
    {
      if k == 0 then typ + 0x1_0000 * major
      else if k == 1 then minor + 0x1_0000 * nlink
      else if k == 2 then size
      else addrs[k - 3]
    }
  }

  /** Word k of the dinode in slot `i % IPB` of an inode block. */
  function SlotWord(b: Block, i: nat, k: nat): (r: nat)
    requires k < 16
    ensures r < WORD_LIMIT
  {
    GetWord(b, 16 * (i % IPB) + k)
  }

  function GetInode(b: Block, i: nat): Inode {
    Inode(SlotWord(b, i, 0) % 0x1_0000, SlotWord(b, i, 0) / 0x1_0000,
          SlotWord(b, i, 1) % 0x1_0000, SlotWord(b, i, 1) / 0x1_0000,
          SlotWord(b, i, 2), seq(ADDRS, k requires 0 <= k < ADDRS => SlotWord(b, i, 3 + k)))
  }

  /** iupdate's stores: words k.. of the slot. */
  function PutInodeFrom(b: Block, i: nat, ip: Inode, k: nat): Block
    requires ip.Ok() && k <= 16
    decreases 16 - k
  {
    if k == 16 then b else PutInodeFrom(PutWord(b, 16 * (i % IPB) + k, ip.Word(k)), i, ip, k + 1)
  }

  function PutInode(b: Block, i: nat, ip: Inode): Block
    requires ip.Ok()
  {
    PutInodeFrom(b, i, ip, 0)
  }

  lemma {:induction false} PutInodeWord(b: Block, i: nat, ip: Inode, k: nat, j: nat)
    requires ip.Ok() && k <= 16 && j < WORDS_PER_BLOCK
    ensures var w := 16 * (i % IPB);
            GetWord(PutInodeFrom(b, i, ip, k), j) == if w + k <= j < w + 16 then ip.Word(j - w) else GetWord(b, j)
    decreases 16 - k
  {
    hide GetWord, PutWord;
    if k < 16 {
      var w := 16 * (i % IPB);
      PutInodeWord(PutWord(b, w + k, ip.Word(k)), i, ip, k + 1, j);
      GetPutWord(b, w + k, ip.Word(k), j);
    }
  }

  lemma PutInodeSlot(b: Block, i: nat, ip: Inode, j: nat, k: nat)
    requires ip.Ok() && k < 16
    ensures SlotWord(PutInode(b, i, ip), j, k) == if j % IPB == i % IPB then ip.Word(k) else SlotWord(b, j, k)
  {
    hide PutInodeFrom, GetWord;
    PutInodeWord(b, i, ip, 0, 16 * (j % IPB) + k);
  }

  /** What iupdate stores, ilock reads back; the other inodes of the block stay. */
  lemma InodeRoundTrip(b: Block, i: nat, ip: Inode, j: nat)
    requires ip.Ok()
    ensures GetInode(PutInode(b, i, ip), j) == if j % IPB == i % IPB then ip else GetInode(b, j)
  {
    hide PutInode, SlotWord;
    var c := PutInode(b, i, ip);
    forall k | 0 <= k < 16 ensures SlotWord(c, j, k) == if j % IPB == i % IPB then ip.Word(k) else SlotWord(b, j, k) {
      PutInodeSlot(b, i, ip, j, k);
    }
    forall k | 0 <= k < ADDRS
      ensures GetInode(c, j).addrs[k] == if j % IPB == i % IPB then ip.addrs[k] else GetInode(b, j).addrs[k]
    {
      assert SlotWord(c, j, 3 + k) == if j % IPB == i % IPB then ip.Word(3 + k) else SlotWord(b, j, 3 + k);
    }
  }
}
