/** Files as flat byte arrays, seen through the block maps. */
module FsFile {
  import opened Words
  import opened FsLayout
  import opened FsState
  import opened FsMap

  const MAXBYTES := 71680

  function BlocksFor(size: nat): nat {
    (size + 511) / 512
  }

  /** Every block below the file size is allocated. */
  ghost predicate NoHoles(fs: Fs, i: nat)
    requires Shape(fs) && i in fs.ino
  {
    && fs.ino[i].size <= MAXBYTES
    && forall bn :: 0 <= bn < BlocksFor(fs.ino[i].size) ==> Addr(fs, i, bn) != 0
  }

  /** Byte o of a file, through its block map. */
  function ByteAt(fs: Fs, i: nat, o: nat): byte
    requires Shape(fs) && i in fs.ino && o < MAXBYTES
  {
    var a := Addr(fs, i, o / 512);
    if a < |fs.view| then fs.view[a][o % 512] else 0
  }

  /** The file as the flat array that readi and writei present. */
  function Contents(fs: Fs, i: nat): (r: seq<byte>)
    requires Shape(fs) && i in fs.ino && fs.ino[i].size <= MAXBYTES
    ensures |r| == fs.ino[i].size
  {
    seq(fs.ino[i].size, o requires 0 <= o < fs.ino[i].size => ByteAt(fs, i, o))
  }

  /** The inode as stored on disk equals the current one. */
  ghost predicate Flushed(fs: Fs, i: nat)
    requires Shape(fs) && i in fs.ino
  {
    GetInode(fs.view[fs.sb.InodeBlock(i)], i) == fs.ino[i]
  }

  /** What holds between file system calls. */
  ghost predicate FsInv(fs: Fs) {
    Owned(fs) && forall i :: i in fs.ino ==> NoHoles(fs, i) && Flushed(fs, i)
  }

  /** The bytes from `off` on are `data` now; no other mapped byte of any file changed, no slot in use
      moved, and the inode area is untouched. */
  ghost predicate Updated(fs: Fs, fs': Fs, i: nat, off: nat, data: seq<byte>) {
    && Owned(fs) && Owned(fs') && fs'.sb == fs.sb && fs'.ino.Keys == fs.ino.Keys && i in fs.ino
    && fs'.ino[i] == fs.ino[i].(addrs := fs'.ino[i].addrs)
    && (forall j :: j in fs.ino && j != i ==> fs'.ino[j] == fs.ino[j])
    && (forall j, l :: j in fs.ino && 0 <= l < SLOTS ==>
          Ref(fs', j, l) == Ref(fs, j, l) || (j == i && Ref(fs, j, l) == 0))
    && off + |data| <= MAXBYTES
    && (forall j, x :: j in fs.ino && 0 <= x < MAXBYTES && Addr(fs, j, x / 512) != 0
                       && !(j == i && off <= x < off + |data|) ==>
          ByteAt(fs', j, x) == ByteAt(fs, j, x))
    && (forall x :: off <= x < off + |data| ==> Addr(fs', i, x / 512) != 0 && ByteAt(fs', i, x) == data[x - off])
    && (forall s: nat :: s < fs.sb.ninodes / IPB + 3 ==> fs'.view[s] == fs.view[s])
  }

  lemma UpdatedNone(fs: Fs, i: nat, off: nat)
    requires Owned(fs) && i in fs.ino && off <= MAXBYTES
    ensures Updated(fs, fs, i, off, [])
  {
  }

  /** Two adjacent updates are one. */
  lemma UpdatedTrans(f: Fs, g: Fs, h: Fs, i: nat, off: nat, a: seq<byte>, b: seq<byte>)
    requires Updated(f, g, i, off, a) && Updated(g, h, i, off + |a|, b)
    ensures Updated(f, h, i, off, a + b)
  {
    hide Ref, ByteAt, RefsMarked, RefsUnique, Reserved;
    forall j, l | j in f.ino && 0 <= l < SLOTS
      ensures Ref(h, j, l) == Ref(f, j, l) || (j == i && Ref(f, j, l) == 0)
    {
      assert j in g.ino;
    }
    forall j, x | j in f.ino && 0 <= x < MAXBYTES && Addr(f, j, x / 512) != 0 && !(j == i && off <= x < off + |a + b|)
      ensures ByteAt(h, j, x) == ByteAt(f, j, x)
    {
      assert j in g.ino && Addr(g, j, x / 512) == Addr(f, j, x / 512);
    }
    forall x | off <= x < off + |a + b| ensures Addr(h, i, x / 512) != 0 && ByteAt(h, i, x) == (a + b)[x - off] {
      assert i in g.ino;
      assert x < off + |a| ==> Addr(g, i, x / 512) != 0 && ByteAt(h, i, x) == ByteAt(g, i, x);
    }
  }

  function Splice(b: Block, at: nat, bytes: seq<byte>): Block
    requires at + |bytes| <= 512
  {
    b[..at] + bytes + b[at + |bytes|..]
  }

  /** bmap followed by overwriting part of the block is an update of those bytes. */
  lemma ChunkUpdates(fs: Fs, g: Fs, i: nat, o: nat, addr: nat, bytes: seq<byte>)
    requires Owned(fs) && i in fs.ino && o < MAXBYTES && o % 512 + |bytes| <= 512
    requires Mapped(fs, g, i, o / 512, addr)
    ensures addr < |g.view|
    ensures Updated(fs, g.(view := g.view[addr := Splice(g.view[addr], o % 512, bytes)]), i, o, bytes)
  {
    hide Used, GetWord;
    var k := SlotOf(o / 512);
    var h := g.(view := g.view[addr := Splice(g.view[addr], o % 512, bytes)]);
    DataWrite(g, i, k, h.view[addr]);
    forall j, x | j in fs.ino && 0 <= x < MAXBYTES && Addr(fs, j, x / 512) != 0 && !(j == i && o <= x < o + |bytes|)
      ensures ByteAt(h, j, x) == ByteAt(fs, j, x)
    {
      SameByte(fs, g, h, i, o, addr, bytes, j, x);
    }
    forall x | o <= x < o + |bytes| ensures Addr(h, i, x / 512) != 0 && ByteAt(h, i, x) == bytes[x - o] {
      assert x / 512 == o / 512 && x % 512 == o % 512 + (x - o);
      assert Ref(h, i, k) == Ref(g, i, k) == addr;
    }
  }

  lemma SameByte(fs: Fs, g: Fs, h: Fs, i: nat, o: nat, addr: nat, bytes: seq<byte>, j: nat, x: nat)
    requires Owned(fs) && i in fs.ino && o < MAXBYTES && o % 512 + |bytes| <= 512
    requires Mapped(fs, g, i, o / 512, addr) && addr < |g.view| && Owned(h)
    requires h == g.(view := g.view[addr := Splice(g.view[addr], o % 512, bytes)])
    requires forall j, l :: j in g.ino && 0 <= l < SLOTS ==> Ref(h, j, l) == Ref(g, j, l)
    requires j in fs.ino && x < MAXBYTES && Addr(fs, j, x / 512) != 0 && !(j == i && o <= x < o + |bytes|)
    ensures ByteAt(h, j, x) == ByteAt(fs, j, x)
  {
    hide Used, GetWord;
    var k, l := SlotOf(o / 512), SlotOf(x / 512);
    assert j in g.ino && Ref(h, j, l) == Ref(g, j, l) == Ref(fs, j, l);
    var a := Ref(fs, j, l);
    assert fs.sb.InData(a) && g.view[a] == fs.view[a];
    if a == addr {
      assert j == i && l == k by { assert Ref(g, j, l) == Ref(g, i, k); }
      assert x / 512 == o / 512;
    }
  }

  // ----- metadata

  /** Writing the superblock or an inode block leaves block maps, bitmap and file data alone. */
  lemma MetaWrite(fs: Fs, s: nat, data: Block)
    requires Owned(fs) && s < fs.sb.ninodes / IPB + 3
    ensures var f := fs.(view := fs.view[s := data]);
            && Owned(f)
            && (forall j, l :: j in fs.ino && 0 <= l < SLOTS ==> Ref(f, j, l) == Ref(fs, j, l))
            && (forall j, x :: j in fs.ino && 0 <= x < MAXBYTES && Addr(fs, j, x / 512) != 0 ==>
                  ByteAt(f, j, x) == ByteAt(fs, j, x))
  {
    hide GetWord;
    var f := fs.(view := fs.view[s := data]);
    forall j, l | j in fs.ino && 0 <= l < SLOTS ensures Ref(f, j, l) == Ref(fs, j, l) {
      assert Ref(fs, j, INDIRECT) == fs.ino[j].addrs[INDIRECT];
    }
    forall c: nat | c < fs.sb.size ensures Used(f, c) == Used(fs, c) {}
  }

  /** iupdate: the on-disk copy of inode i becomes the current one; no other inode is affected. */
  lemma InodeWrite(fs: Fs, i: nat)
    requires Owned(fs) && i in fs.ino
    ensures var s := fs.sb.InodeBlock(i);
            && s < fs.sb.ninodes / IPB + 3 && s < |fs.view|
            && var f := fs.(view := fs.view[s := PutInode(fs.view[s], i, fs.ino[i])]);
            && Flushed(f, i)
            && (forall j :: j in fs.ino && j != i ==> (Flushed(f, j) <==> Flushed(fs, j)))
  {
    hide PutInode, GetInode, RefsMarked, RefsUnique, Reserved;
    var s := fs.sb.InodeBlock(i);
    var f := fs.(view := fs.view[s := PutInode(fs.view[s], i, fs.ino[i])]);
    InodeRoundTrip(fs.view[s], i, fs.ino[i], i);
    forall j | j in fs.ino && j != i ensures Flushed(f, j) <==> Flushed(fs, j) {
      InodeRoundTrip(fs.view[s], i, fs.ino[i], j);
      assert fs.sb.InodeBlock(j) == s ==> j % IPB != i % IPB;
    }
  }

  // ----- the flat-file law

  function Max(a: nat, b: nat): nat {
    if a < b then b else a
  }

  /** c with the bytes from `off` on replaced by `data`, growing if need be. */
  function Overwrite(c: seq<byte>, off: nat, data: seq<byte>): (r: seq<byte>)
    requires off <= |c|
  {
    c[..off] + data + (if off + |data| <= |c| then c[off + |data|..] else [])
  }

  function WithSize(fs: Fs, i: nat, n: nat): Fs
    requires i in fs.ino
  {
    fs.(ino := fs.ino[i := fs.ino[i].(size := n)])
  }

  /** The size says nothing about where blocks are. */
  lemma ResizeKeepsMap(fs: Fs, i: nat, n: nat)
    requires Owned(fs) && i in fs.ino && n <= MAXBYTES
    ensures var g := WithSize(fs, i, n);
            && Owned(g)
            && (forall j, l :: j in fs.ino && 0 <= l < SLOTS ==> Ref(g, j, l) == Ref(fs, j, l))
            && (forall j, x :: j in fs.ino && 0 <= x < MAXBYTES ==> ByteAt(g, j, x) == ByteAt(fs, j, x))
  {
    hide GetWord;
    var g := WithSize(fs, i, n);
    forall j, l | j in fs.ino && 0 <= l < SLOTS ensures Ref(g, j, l) == Ref(fs, j, l) {}
    forall c: nat | c < fs.sb.size ensures Used(g, c) == Used(fs, c) {}
  }

  /** After an update and the new size there is still no hole. */
  lemma UpdatedNoHoles(fs: Fs, f: Fs, i: nat, off: nat, data: seq<byte>, j: nat)
    requires Updated(fs, f, i, off, data) && off <= fs.ino[i].size
    requires j in fs.ino && NoHoles(fs, i) && NoHoles(fs, j)
    ensures var g := WithSize(f, i, Max(fs.ino[i].size, off + |data|));
            Shape(g) && NoHoles(g, j)
  {
    hide Ref, ByteAt, RefsMarked, RefsUnique, Reserved;
    var n := Max(fs.ino[i].size, off + |data|);
    var g := WithSize(f, i, n);
    ResizeKeepsMap(f, i, n);
    forall bn | 0 <= bn < BlocksFor(g.ino[j].size) ensures Addr(g, j, bn) != 0 {
      if bn < BlocksFor(fs.ino[j].size) {
        assert Addr(fs, j, bn) != 0;
      } else {
        assert off <= 512 * bn < off + |data| && (512 * bn) / 512 == bn;
        assert Addr(f, i, (512 * bn) / 512) != 0;
      }
    }
  }

  /** An update followed by setting the size is an overwrite of the flat contents. */
  lemma UpdatedContents(fs: Fs, f: Fs, i: nat, off: nat, data: seq<byte>)
    requires Updated(fs, f, i, off, data) && NoHoles(fs, i) && off <= fs.ino[i].size
    ensures var g := WithSize(f, i, Max(fs.ino[i].size, off + |data|));
            Owned(g) && Contents(g, i) == Overwrite(Contents(fs, i), off, data)
  {
    hide Ref, ByteAt, RefsMarked, RefsUnique, Reserved, Addr, Updated, NoHoles;
    UpdatedFacts(fs, f, i, off, data);
    var n := Max(fs.ino[i].size, off + |data|);
    var g := WithSize(f, i, n);
    SizesOk(fs, f, i, off, data);
    var c, d := Contents(fs, i), Contents(g, i);
    assert |d| == n == |Overwrite(c, off, data)|;
    forall x | 0 <= x < n ensures d[x] == Overwrite(c, off, data)[x] {
      UpdatedByte(fs, f, i, off, data, x);
      ResizedByte(f, i, n, x);
    }
  }

  lemma SizesOk(fs: Fs, f: Fs, i: nat, off: nat, data: seq<byte>)
    requires Updated(fs, f, i, off, data) && NoHoles(fs, i)
    ensures fs.ino[i].size <= MAXBYTES
    ensures Owned(WithSize(f, i, Max(fs.ino[i].size, off + |data|)))
  {
    ResizeKeepsMap(f, i, Max(fs.ino[i].size, off + |data|));
  }

  lemma ResizedByte(f: Fs, i: nat, n: nat, x: nat)
    requires Owned(f) && i in f.ino && n <= MAXBYTES && x < MAXBYTES
    ensures Shape(WithSize(f, i, n)) && ByteAt(WithSize(f, i, n), i, x) == ByteAt(f, i, x)
  {
    ResizeKeepsMap(f, i, n);
  }

  lemma UpdatedByte(fs: Fs, f: Fs, i: nat, off: nat, data: seq<byte>, x: nat)
    requires Updated(fs, f, i, off, data) && NoHoles(fs, i) && off <= fs.ino[i].size
    requires x < Max(fs.ino[i].size, off + |data|)
    ensures ByteAt(f, i, x) == if off <= x < off + |data| then data[x - off] else ByteAt(fs, i, x)
  {
    hide Ref, ByteAt, RefsMarked, RefsUnique, Reserved;
    if !(off <= x < off + |data|) {
      assert Addr(fs, i, x / 512) != 0;
    }
  }

  /** Every other file keeps its contents. */
  lemma UpdatedOthers(fs: Fs, f: Fs, i: nat, off: nat, data: seq<byte>, n: nat, j: nat)
    requires Updated(fs, f, i, off, data) && n <= MAXBYTES && j in fs.ino && j != i && NoHoles(fs, j)
    ensures var g := WithSize(f, i, n);
            Shape(g) && Contents(g, j) == Contents(fs, j)
  {
    hide Ref, ByteAt, RefsMarked, RefsUnique, Reserved;
    var g := WithSize(f, i, n);
    ResizeKeepsMap(f, i, n);
    forall x | 0 <= x < fs.ino[j].size ensures ByteAt(g, j, x) == ByteAt(fs, j, x) {
      assert Addr(fs, j, x / 512) != 0;
    }
  }

  /** Equal bytes and size, equal contents. */
  lemma SameContents(f: Fs, g: Fs, j: nat)
    requires Owned(f) && Shape(g) && j in f.ino && j in g.ino && NoHoles(f, j) && f.ino[j] == g.ino[j]
    requires forall x :: 0 <= x < MAXBYTES && Addr(f, j, x / 512) != 0 ==> ByteAt(g, j, x) == ByteAt(f, j, x)
    ensures Contents(g, j) == Contents(f, j)
  {
    forall x | 0 <= x < f.ino[j].size ensures ByteAt(g, j, x) == ByteAt(f, j, x) {
      assert Addr(f, j, x / 512) != 0;
    }
  }

  // ----- what an update says about the inode and its map

  lemma UpdatedFacts(fs: Fs, g: Fs, i: nat, off: nat, data: seq<byte>)
    requires Updated(fs, g, i, off, data)
    ensures Owned(fs) && Owned(g) && g.sb == fs.sb && i in fs.ino && i in g.ino
    ensures g.ino[i].size == fs.ino[i].size && off + |data| <= MAXBYTES
    ensures BootKept(fs.view, g.view)
  {
  }

  lemma UpdatedInodes(fs: Fs, g: Fs, i: nat, off: nat, data: seq<byte>)
    requires Updated(fs, g, i, off, data)
    ensures g.sb == fs.sb && g.ino.Keys == fs.ino.Keys && i in fs.ino && Owned(g) && off + |data| <= MAXBYTES
    ensures g.ino[i] == fs.ino[i].(addrs := g.ino[i].addrs)
    ensures forall j :: j in fs.ino && j != i ==> g.ino[j] == fs.ino[j]
    ensures BootKept(fs.view, g.view)
  {
  }

  lemma StillMapped(fs: Fs, g: Fs, i: nat, off: nat, data: seq<byte>, o: nat)
    requires Updated(fs, g, i, off, data) && NoHoles(fs, i) && o < 512 * BlocksFor(fs.ino[i].size)
    ensures o < MAXBYTES && Addr(g, i, o / 512) != 0
  {
    hide Ref, ByteAt, RefsMarked, RefsUnique, Reserved;
    assert Addr(fs, i, o / 512) != 0;
  }

  // ----- the whole of writei

  /** The boot block and the superblock are as they were. */
  predicate BootKept(a: seq<Block>, b: seq<Block>) {
    |a| >= 2 && |b| >= 2 && b[0] == a[0] && b[1] == a[1]
  }

  /** What a completed writei leaves: the invariant, file i overwritten, every other file as it was. */
  ghost predicate WriteDone(fs: Fs, g: Fs, i: nat, off: nat, data: seq<byte>) {
    && FsInv(fs) && FsInv(g) && g.sb == fs.sb && g.ino.Keys == fs.ino.Keys && i in fs.ino && off <= fs.ino[i].size
    && g.ino[i] == fs.ino[i].(addrs := g.ino[i].addrs, size := Max(fs.ino[i].size, off + |data|))
    && Contents(g, i) == Overwrite(Contents(fs, i), off, data)
    && (forall j :: j in fs.ino && j != i ==> g.ino[j] == fs.ino[j] && Contents(g, j) == Contents(fs, j))
    && BootKept(fs.view, g.view)
  }

  /** iupdate as a change of state. */
  function FlushInode(fs: Fs, i: nat): Fs
    requires Shape(fs) && i in fs.ino && fs.sb.InodeBlock(i) < |fs.view|
  {
    fs.(view := fs.view[fs.sb.InodeBlock(i) := PutInode(fs.view[fs.sb.InodeBlock(i)], i, fs.ino[i])])
  }

  lemma FlushKeepsFiles(fs: Fs, i: nat)
    requires Owned(fs) && i in fs.ino && forall j :: j in fs.ino ==> NoHoles(fs, j)
    ensures fs.sb.InodeBlock(i) < |fs.view|
    ensures var g := FlushInode(fs, i);
            && Owned(g) && (forall j :: j in fs.ino ==> NoHoles(g, j) && Contents(g, j) == Contents(fs, j))
            && Flushed(g, i) && (forall j :: j in fs.ino && j != i ==> (Flushed(g, j) <==> Flushed(fs, j)))
  {
    hide Ref, ByteAt, RefsMarked, RefsUnique, Reserved, PutInode, GetInode, Contents;
    InodeWrite(fs, i);
    var s := fs.sb.InodeBlock(i);
    MetaWrite(fs, s, PutInode(fs.view[s], i, fs.ino[i]));
    var g := FlushInode(fs, i);
    forall j | j in fs.ino ensures NoHoles(g, j) && Contents(g, j) == Contents(fs, j) {
      SameContents(fs, g, j);
      forall bn | 0 <= bn < BlocksFor(g.ino[j].size) ensures Addr(g, j, bn) != 0 {
        assert Addr(fs, j, bn) != 0;
      }
    }
  }

  /** An update keeps the on-disk copy of every inode whose in-memory copy did not change. */
  lemma UpdatedFlushed(fs: Fs, f: Fs, i: nat, off: nat, data: seq<byte>, j: nat)
    requires Updated(fs, f, i, off, data) && j in fs.ino && Flushed(fs, j)
    requires f.ino[j] == fs.ino[j]
    ensures Flushed(f, j)
  {
    hide GetInode, Ref, ByteAt, RefsMarked, RefsUnique, Reserved;
  }

  /** The size did not grow: the map did not change either, so nothing needs flushing. */
  lemma WriteInside(fs: Fs, f: Fs, i: nat, off: nat, data: seq<byte>)
    requires FsInv(fs) && Updated(fs, f, i, off, data) && f.ino == fs.ino && off + |data| <= fs.ino[i].size
    ensures WriteDone(fs, f, i, off, data)
  {
    hide Ref, ByteAt, RefsMarked, RefsUnique, Reserved, GetInode, Contents, Overwrite, Updated;
    UpdatedFacts(fs, f, i, off, data);
    var n := fs.ino[i].size;
    assert WithSize(f, i, n) == f;
    forall j | j in fs.ino ensures NoHoles(f, j) && Flushed(f, j) {
      UpdatedNoHoles(fs, f, i, off, data, j);
      UpdatedFlushed(fs, f, i, off, data, j);
    }
    UpdatedContents(fs, f, i, off, data);
    forall j | j in fs.ino && j != i ensures Contents(f, j) == Contents(fs, j) {
      UpdatedOthers(fs, f, i, off, data, n, j);
    }
  }

  /** The size grew: the new size and map are flushed together. */
  lemma WriteGrows(fs: Fs, f: Fs, i: nat, off: nat, data: seq<byte>)
    requires FsInv(fs) && Updated(fs, f, i, off, data) && off <= fs.ino[i].size < off + |data|
    ensures var g := WithSize(f, i, off + |data|);
            && Owned(g) && fs.sb.InodeBlock(i) < |g.view| && WriteDone(fs, FlushInode(g, i), i, off, data)
  {
    hide Ref, ByteAt, RefsMarked, RefsUnique, Reserved, GetInode, Contents, Overwrite, FlushInode, Flushed, Updated;
    UpdatedInodes(fs, f, i, off, data);
    var n := off + |data|;
    var g := WithSize(f, i, n);
    UpdatedContents(fs, f, i, off, data);
    forall j | j in fs.ino ensures NoHoles(g, j) {
      UpdatedNoHoles(fs, f, i, off, data, j);
    }
    FlushKeepsFiles(g, i);
    forall j | j in fs.ino && j != i ensures Contents(g, j) == Contents(fs, j) && Flushed(g, j) {
      UpdatedOthers(fs, f, i, off, data, n, j);
      UpdatedFlushed(fs, f, i, off, data, j);
      FlushedSame(f, g, j);
    }
    FlushFields(g, i);
  }

  lemma FlushedSame(f: Fs, g: Fs, j: nat)
    requires Shape(f) && Shape(g) && f.sb == g.sb && f.view == g.view && j in f.ino && j in g.ino
    requires f.ino[j] == g.ino[j]
    ensures Flushed(f, j) <==> Flushed(g, j)
  {
  }

  lemma FlushFields(fs: Fs, i: nat)
    requires Shape(fs) && i in fs.ino && fs.sb.InodeBlock(i) < |fs.view|
    ensures FlushInode(fs, i).sb == fs.sb && FlushInode(fs, i).ino == fs.ino
    ensures BootKept(fs.view, FlushInode(fs, i).view)
  {
  }

  lemma InsideBlocks(o: nat, size: nat)
    requires o <= size
    ensures o <= 512 * BlocksFor(size)
  {
  }

  /** Within one block, the flat contents are a slice of the block. */
  lemma BlockSlice(fs: Fs, i: nat, o: nat, k: nat)
    requires Owned(fs) && i in fs.ino && NoHoles(fs, i) && 0 < k && o + k <= fs.ino[i].size && o % 512 + k <= 512
    ensures o / 512 < MAXFILE && Addr(fs, i, o / 512) < |fs.view|
    ensures Contents(fs, i)[o..o + k] == fs.view[Addr(fs, i, o / 512)][o % 512..o % 512 + k]
  {
    hide Ref, Used, RefsUnique, Reserved;
    assert Addr(fs, i, o / 512) != 0;
    var blk := fs.view[Addr(fs, i, o / 512)];
    var file, part := Contents(fs, i)[o..o + k], blk[o % 512..o % 512 + k];
    forall x | 0 <= x < k ensures file[x] == part[x] {
      assert (o + x) / 512 == o / 512 && (o + x) % 512 == o % 512 + x;
    }
  }
}
