/** The file system as bytes on the disk, laid out as fs.h says: what any reader of the image finds there. */
module FsOnDisk {
  import opened Words
  import opened LogSpec
  import opened FsLayout
  import opened FsState
  import opened FsFile

  // ----- inodes: 64 bytes each, eight in a block, from block 2 on

  /** The 64 bytes of inode i hold ip: four shorts, the size, and the thirteen addresses. */
  predicate DinodeIs(view: Disk, i: nat, ip: Inode) {
    && 2 + i / 8 < |view| && |ip.addrs| == 13
    && var b, at := view[2 + i / 8], 64 * (i % 8);
    && U16(b, at) == ip.typ && U16(b, at + 2) == ip.major && U16(b, at + 4) == ip.minor && U16(b, at + 6) == ip.nlink
    && U32(b, at + 8) == ip.size
    && forall k :: 0 <= k < 13 ==> U32(b, at + 12 + 4 * k) == ip.addrs[k]
  }

  lemma InodeBytes(b: Block, i: nat)
    ensures var ip, at := GetInode(b, i), 64 * (i % 8);
            && U16(b, at) == ip.typ && U16(b, at + 2) == ip.major
            && U16(b, at + 4) == ip.minor && U16(b, at + 6) == ip.nlink && U32(b, at + 8) == ip.size
            && |ip.addrs| == 13 && forall k :: 0 <= k < 13 ==> U32(b, at + 12 + 4 * k) == ip.addrs[k]
  {
    hide GetWord, U16, U32;
    var s := 16 * (i % 8);
    WordBytes(b, s);
    WordBytes(b, s + 1);
    WordBytes(b, s + 2);
    forall k | 0 <= k < 13 ensures U32(b, 64 * (i % 8) + 12 + 4 * k) == GetInode(b, i).addrs[k] {
      WordBytes(b, s + 3 + k);
    }
  }

  /** An inode that is current on disk is where fs.h puts it. */
  lemma FlushedBytes(fs: Fs, i: nat)
    requires Shape(fs) && i in fs.ino && Flushed(fs, i)
    ensures DinodeIs(fs.view, i, fs.ino[i])
  {
    hide GetInode, U16, U32;
    assert i / 8 <= fs.sb.ninodes / 8;
    InodeBytes(fs.view[fs.sb.InodeBlock(i)], i);
  }

  /** What iupdate stores in block 2 + i / 8. */
  lemma InodeStored(b: Block, i: nat, ip: Inode)
    requires ip.Ok()
    ensures var c, at := PutInode(b, i, ip), 64 * (i % 8);
            && U16(c, at) == ip.typ && U16(c, at + 2) == ip.major
            && U16(c, at + 4) == ip.minor && U16(c, at + 6) == ip.nlink && U32(c, at + 8) == ip.size
            && forall k :: 0 <= k < 13 ==> U32(c, at + 12 + 4 * k) == ip.addrs[k]
  {
    hide GetInode, PutInode, U16, U32;
    InodeRoundTrip(b, i, ip, i);
    InodeBytes(PutInode(b, i, ip), i);
  }

  // ----- files: twelve direct blocks, then 128 through the indirect block

  /** The disk block of file block n of inode i, from the bytes of the disk alone. */
  function RawAddr(view: Disk, i: nat, n: nat): nat
    requires 2 + i / 8 < |view| && n < 140
  {
    var b, at := view[2 + i / 8], 64 * (i % 8) + 12;
    if n < 12 then U32(b, at + 4 * n)
    else
      var ind := U32(b, at + 48);
      if ind < |view| then U32(view[ind], 4 * (n - 12)) else 0
  }

  function RawByte(view: Disk, i: nat, o: nat): byte
    requires 2 + i / 8 < |view| && o < 140 * 512
  {
    var a := RawAddr(view, i, o / 512);
    if a < |view| then view[a][o % 512] else 0
  }

  /** Whoever reads the bytes of the disk finds every inode and every byte of every file. */
  lemma DiskHoldsFiles(fs: Fs, i: nat)
    requires FsInv(fs) && i in fs.ino
    ensures DinodeIs(fs.view, i, fs.ino[i]) && fs.ino[i].size <= 140 * 512
    ensures forall o :: 0 <= o < fs.ino[i].size ==> Contents(fs, i)[o] == RawByte(fs.view, i, o)
  {
    hide RefsMarked, RefsUnique, Reserved, Flushed, GetWord, U16, U32, DinodeIs, RawAddr;
    FlushedBytes(fs, i);
    forall o | 0 <= o < fs.ino[i].size ensures ByteAt(fs, i, o) == RawByte(fs.view, i, o) {
      AddrBytes(fs, i, o / 512);
    }
  }

  lemma AddrBytes(fs: Fs, i: nat, n: nat)
    requires Owned(fs) && i in fs.ino && DinodeIs(fs.view, i, fs.ino[i]) && n < 140 && Addr(fs, i, n) != 0
    ensures RawAddr(fs.view, i, n) == Addr(fs, i, n)
  {
    hide U32, U16, GetWord, RefsMarked, RefsUnique, Reserved;
    if n >= 12 { WordBytes(fs.view[fs.ino[i].addrs[12]], n - 12); }
  }

  // ----- the free bitmap: one bit per block, after the inodes

  function Weight(k: nat): nat
    requires k < 8
  {
    [1, 2, 4, 8, 16, 32, 64, 128][k]
  }

  lemma {:induction false} BitIsQuotient(x: nat, k: nat)
    requires k < 8
    ensures TestBit(x, k) <==> (x / Weight(k)) % 2 == 1
  {
    if k > 0 {
      BitIsQuotient(x / 2, k - 1);
      HalfTwice(x, k - 1);
    }
  }

  lemma HalfTwice(x: nat, k: nat)
    requires k < 7
    ensures (x / 2) / Weight(k) == x / Weight(k + 1)
  {
    assert k in {0, 1, 2, 3, 4, 5, 6};
  }

  /** Block b is in use exactly if its bit is set. */
  lemma BitmapOnDisk(fs: Fs, b: nat)
    requires Shape(fs) && b < fs.sb.size
    ensures var s := 2 + fs.sb.ninodes / 8 + 1 + b / 4096;
            s < |fs.view| && (Used(fs, b) <==> (fs.view[s][b % 4096 / 8] / Weight(b % 8)) % 2 == 1)
  {
    hide TestBit, Weight;
    assert b / 4096 <= fs.sb.size / 4096;
    BitIsQuotient(fs.view[fs.sb.BitmapBlock(b)][b % 4096 / 8], b % 8);
  }

  // ----- a block fresh from balloc

  predicate Zeroed(view: Disk, b: nat) {
    b < |view| && forall k :: 0 <= k < 512 ==> view[b][k] == 0
  }

  lemma ZeroBytes()
    ensures forall k :: 0 <= k < 512 ==> Zero()[k] == 0
  {
  }
}
