/** fs.c: directories as files of 16-byte records, searched through readi and extended through writei. */
module FsDir {
  import opened Words
  import CacheSpec
  import opened FsState
  import opened FsFile
  import opened FsCharge
  import opened FileSystem
  import opened PathSpec
  import opened Panics
  import Path

  const T_DIR := 1

  // ----- struct dirent

  /** A record: the inode number in two bytes, and the name in fourteen. */
  function RecordOf(b: seq<byte>): (e: Dirent)
    requires |b| == 16
    ensures Field(e.name)
  {
    Dirent((b[0] as int) + 0x100 * (b[1] as int), seq(DIRSIZ, k requires 0 <= k < DIRSIZ => b[2 + k] as char))
  }

  predicate Storable(e: Dirent) {
    e.inum < 0x1_0000 && Field(e.name) && forall k :: 0 <= k < DIRSIZ ==> e.name[k] as int < 256
  }

  function Encode(e: Dirent): (b: seq<byte>)
    requires Storable(e)
    ensures |b| == 16
  {
    [e.inum % 0x100, e.inum / 0x100] + seq(DIRSIZ, k requires 0 <= k < DIRSIZ => e.name[k] as byte)
  }

  lemma EncodeRoundTrip(e: Dirent)
    requires Storable(e)
    ensures RecordOf(Encode(e)) == e
  {
    var n := RecordOf(Encode(e)).name;
    forall k | 0 <= k < DIRSIZ ensures n[k] == e.name[k] {}
    assert n == e.name;
  }

  /** The directory in a file's contents; a trailing part of a record is no entry. */
  function Entries(c: seq<byte>): (es: seq<Dirent>) {
    seq(|c| / 16, k requires 0 <= k < |c| / 16 => RecordOf(c[16 * k..16 * k + 16]))
  }

  /** Entry k as bytes 16 k.. of the file. */
  lemma EntryBytes(c: seq<byte>, k: nat)
    requires k < |c| / 16
    ensures Entries(c)[k].inum == (c[16 * k] as int) + 256 * (c[16 * k + 1] as int) && |Entries(c)[k].name| == 14
    ensures forall j :: 0 <= j < 14 ==> Entries(c)[k].name[j] as int == c[16 * k + 2 + j] as int
  {
    var b := c[16 * k..16 * k + 16];
    assert Entries(c)[k] == RecordOf(b);
    forall j | 0 <= j < 14 ensures RecordOf(b).name[j] as int == c[16 * k + 2 + j] as int {
      assert b[2 + j] == c[16 * k + (2 + j)];
    }
  }

  /** Overwriting one record, or appending one, is that on the list of entries. */
  lemma OverwriteEntry(c: seq<byte>, k: nat, e: Dirent)
    requires |c| % 16 == 0 && k <= |c| / 16 && Storable(e)
    ensures Entries(Overwrite(c, 16 * k, Encode(e))) == if k < |c| / 16 then Entries(c)[k := e] else Entries(c) + [e]
  {
    EncodeRoundTrip(e);
    var d, rec := Overwrite(c, 16 * k, Encode(e)), Encode(e);
    var es := if k < |c| / 16 then Entries(c)[k := e] else Entries(c) + [e];
    assert |d| == if k < |c| / 16 then |c| else |c| + 16;
    hide RecordOf, Encode;
    forall j | 0 <= j < |d| / 16 ensures d[16 * j..16 * j + 16] == if j == k then rec else c[16 * j..16 * j + 16] {
      if j < k { assert d[16 * j..16 * j + 16] == c[16 * j..16 * j + 16]; }
      if j > k { assert d[16 * j..16 * j + 16] == c[16 * j..16 * j + 16]; }
    }
    assert |Entries(d)| == |es|;
  }

  // ----- the tree of directories

  /** The tree that path names are resolved in: the allocated inodes, with the entries of the directories. */
  ghost function TreeOf(fs: Fs): map<nat, Node>
    requires FsInv(fs)
  {
    map i | i in fs.ino && fs.ino[i].typ != 0 :: NodeOf(fs, i)
  }

  ghost function NodeOf(fs: Fs, i: nat): Node
    requires FsInv(fs) && i in fs.ino
  {
    Node(fs.ino[i].typ == 1, if fs.ino[i].typ == 1 then Entries(Contents(fs, i)) else [])
  }

  /** Writing a record at the first free place is dirlink on the tree. */
  lemma LinkWritten(f: Fs, g: Fs, d: nat, e: Dirent)
    requires FsInv(f) && d in f.ino && f.ino[d].typ == T_DIR && f.ino[d].size % 16 == 0 && Storable(e)
    requires WriteDone(f, g, d, 16 * FirstFree(Entries(Contents(f, d)), 0), Encode(e))
    ensures FsInv(g) && TreeOf(g) == TreeOf(f)[d := Node(true, Linked(Entries(Contents(f, d)), e))]
  {
    hide RefsMarked, RefsUnique, Reserved, Flushed, NoHoles, Contents, Entries, Overwrite, Encode, FirstFree;
    SizeBound(f, d);
    var c := Contents(f, d);
    EntriesLength(c);
    OverwriteEntry(c, FirstFree(Entries(c), 0), e);
    assert NodeOf(g, d) == Node(true, Linked(Entries(c), e));
    forall i | i in f.ino && i != d ensures NodeOf(g, i) == NodeOf(f, i) {}
  }

  lemma EntriesLength(c: seq<byte>)
    ensures |Entries(c)| == |c| / 16
  {
  }

  // ----- dirlookup and dirlink

  /** What a search gives: an entry, none, a record cut short ("dirlink read"), or no buffer to read with. */
  datatype DirLook = AtEntry(k: nat, inum: nat) | NoSuch | ShortRead | LookPanic(why: Reason)

  datatype NewEntry = Added | DirectoryFull | AddPanic(why: Reason)

  /** readi of record k. */
  method ReadEntry(fs: FileSystem, d: nat, k: nat) returns (r: ReadResult)
    requires FsInv(fs.Value()) && fs.Traced() && d in fs.ino && fs.ino[d].typ == T_DIR && 16 * k < fs.ino[d].size
    modifies fs`view, fs`logged, fs`writes, fs`ino, fs`now
    ensures fs.Traced() && fs.Value() == old(fs.Value()) && fs.logged == old(fs.logged)
    ensures r.ReadPanic? ==> r.why == OutOfBuffers && |fs.logged| + fs.quota >= CacheSpec.NBUF
    ensures !r.ReadRefused?
    ensures r.Read? ==> (|r.data| == 16 <==> k < |Entries(Contents(fs.Value(), d))|)
    ensures r.Read? && |r.data| == 16 ==> RecordOf(r.data) == Entries(Contents(fs.Value(), d))[k]
  {
    hide FsInv, Contents, RecordOf;
    SizeBound(fs.Value(), d);
    r := fs.Readi(d, 16 * k, 16);
  }

  lemma SizeBound(fs: Fs, d: nat)
    requires FsInv(fs) && d in fs.ino
    ensures Shape(fs) && fs.ino[d].size <= MAXBYTES
  {
  }

  /** dirlookup's search. */
  method FindEntry(fs: FileSystem, d: nat, name: string) returns (r: DirLook)
    requires FsInv(fs.Value()) && fs.Traced() && d in fs.ino && fs.ino[d].typ == T_DIR && Field(name)
    modifies fs`view, fs`logged, fs`writes, fs`ino, fs`now
    ensures fs.Traced() && fs.Value() == old(fs.Value()) && fs.logged == old(fs.logged)
    ensures var es := Entries(Contents(fs.Value(), d));
            var k := Find(es, NameOf(name), 0);
            match r
            case AtEntry(i, inum) => i == k < |es| && inum == Lookup(es, NameOf(name)) != 0
            case NoSuch => Lookup(es, NameOf(name)) == 0 && fs.ino[d].size % 16 == 0
            case ShortRead => Lookup(es, NameOf(name)) == 0 && fs.ino[d].size % 16 != 0
            case LookPanic(why) => why == OutOfBuffers && |fs.logged| + fs.quota >= CacheSpec.NBUF
  {
    hide FsInv, Contents, NameOf, RecordOf, Find, Lookup;
    ghost var f := fs.Value();
    SizeBound(f, d);
    ghost var es := Entries(Contents(f, d));
    EntriesLength(Contents(f, d));
    LookupFound(es, NameOf(name));
    var k := 0;
    while 16 * k < fs.ino[d].size
      invariant fs.Traced() && fs.Value() == f && fs.logged == old(fs.logged)
      invariant 0 <= k <= |es| && Find(es, NameOf(name), 0) == Find(es, NameOf(name), k)
      decreases |es| - k
    {
      FindStep(es, NameOf(name), k);
      var de := ReadEntry(fs, d, k);
      if de.ReadPanic? { return LookPanic(de.why); }
      if |de.data| != 16 { return ShortRead; }
      if RecordOf(de.data).inum != 0 {
        var same := Path.Namecmp(name, RecordOf(de.data).name);
        if same { return AtEntry(k, RecordOf(de.data).inum); }
      }
      k := k + 1;
    }
    FindStep(es, NameOf(name), k);
    return NoSuch;
  }

  lemma LookupFound(es: seq<Dirent>, name: string)
    ensures var k := Find(es, name, 0); Lookup(es, name) == if k < |es| then es[k].inum else 0
  {
  }

  lemma FindStep(es: seq<Dirent>, name: string, k: nat)
    requires k <= |es|
    ensures Find(es, name, k) == if k < |es| && !Binds(es[k], name) then Find(es, name, k + 1) else k
  {
  }

  /** dirlink's search for an unused record, in a directory of whole records. */
  method FindFree(fs: FileSystem, d: nat) returns (r: Outcome, k: nat)
    requires FsInv(fs.Value()) && fs.Traced() && d in fs.ino && fs.ino[d].typ == T_DIR && fs.ino[d].size % 16 == 0
    modifies fs`view, fs`logged, fs`writes, fs`ino, fs`now
    ensures fs.Traced() && fs.Value() == old(fs.Value()) && fs.logged == old(fs.logged)
    ensures r.Panic? ==> r.why == OutOfBuffers && |fs.logged| + fs.quota >= CacheSpec.NBUF
    ensures r.Done? ==> k == FirstFree(Entries(Contents(fs.Value(), d)), 0)
  {
    hide FsInv, Contents, RecordOf, FirstFree;
    ghost var f := fs.Value();
    SizeBound(f, d);
    ghost var es := Entries(Contents(f, d));
    EntriesLength(Contents(f, d));
    k := 0;
    while 16 * k < fs.ino[d].size
      invariant fs.Traced() && fs.Value() == f && fs.logged == old(fs.logged)
      invariant 0 <= k <= |es| && FirstFree(es, 0) == FirstFree(es, k)
      decreases |es| - k
    {
      FreeStep(es, k);
      var de := ReadEntry(fs, d, k);
      if de.ReadPanic? { return Panic(de.why), k; }
      if RecordOf(de.data).inum == 0 { return Done, k; }
      k := k + 1;
    }
    FreeStep(es, k);
    return Done, k;
  }

  lemma FreeStep(es: seq<Dirent>, k: nat)
    requires k <= |es|
    ensures FirstFree(es, k) == if k < |es| && es[k].inum != 0 then FirstFree(es, k + 1) else k
  {
  }

  /** dirlink once the name is known to be free: the directory's file gets exactly the record that binds it. */
  method AddEntry(fs: FileSystem, d: nat, name: string, inum: nat) returns (r: NewEntry)
    requires FsInv(fs.Value()) && fs.Traced() && d in fs.ino && fs.ino[d].typ == T_DIR && fs.ino[d].size % 16 == 0
    requires Field(name) && forall k :: 0 <= k < DIRSIZ ==> name[k] as int < 256
    modifies fs`view, fs`logged, fs`writes, fs`ino, fs`now
    ensures fs.Traced()
    ensures var f, es := old(fs.Value()), Entries(Contents(old(fs.Value()), d));
            match r
            case Added =>
              && FirstFree(es, 0) < 4480 && FsInv(fs.Value())
              && TreeOf(fs.Value()) == TreeOf(f)[d := Node(true, Linked(es, Dirent(inum % 0x1_0000, PadField(name))))]
              && HoldsRecord(fs.Value(), d, FirstFree(es, 0), name, inum)
            case DirectoryFull => FirstFree(es, 0) >= 4480 && fs.Value() == f
            case AddPanic(why) =>
              || (why == OutOfBuffers && |fs.logged| + fs.quota >= CacheSpec.NBUF)
              || (&& FirstFree(es, 0) < 4480 && fs.Overflows(why)
                  && PanicMeans(f, d, 16 * FirstFree(es, 0), 16, old(fs.logged) == [], why, fs.quota))
  {
    hide FsInv, Contents, NameOf, RecordOf, FirstFree, PanicMeans, WriteDone, Entries, Encode, Storable, HoldsRecord;
    ghost var f := fs.Value();
    SizeBound(f, d);
    EntriesLength(Contents(f, d));
    var o, k := FindFree(fs, d);
    if o.Panic? { return AddPanic(o.why); }
    StorableField(name, inum);
    var de := Dirent(inum % 0x1_0000, PadField(name));
    var w := fs.Writei(d, 16 * k, Encode(de));
    match w {
      case WriteRefused => return DirectoryFull;
      case WritePanic(why) => return AddPanic(why);
      case Wrote(_) =>
        LinkWritten(f, fs.Value(), d, de);
        RecordWritten(f, fs.Value(), d, k, name, inum);
        return Added;
    }
  }

  lemma StorableField(name: string, inum: nat)
    requires Field(name) && forall k :: 0 <= k < DIRSIZ ==> name[k] as int < 256
    ensures Storable(Dirent(inum % 0x1_0000, PadField(name)))
  {
    hide NameOf;
  }

  /** The record at byte `at`: the inode number's low byte, its high byte, the name, and NULs up to 16 bytes. */
  ghost predicate RecordAt(c: seq<byte>, at: nat, name: string, inum: nat) {
    && at + 16 <= |c| && |name| == 14
    && c[at] == inum % 256 && c[at + 1] == inum / 256 % 256
    && forall j :: 0 <= j < 14 ==> c[at + 2 + j] == if '\0' in name[..j + 1] then 0 else name[j] as int
  }

  /** Record k of the directory's file. */
  ghost predicate HoldsRecord(g: Fs, d: nat, k: nat, name: string, inum: nat) {
    FsInv(g) && d in g.ino && RecordAt(Contents(g, d), 16 * k, name, inum)
  }

  lemma EncodedRecord(name: string, inum: nat)
    requires Field(name) && Storable(Dirent(inum % 0x1_0000, PadField(name)))
    ensures RecordAt(Encode(Dirent(inum % 0x1_0000, PadField(name))), 0, name, inum)
  {
    hide NameOf, PadField;
    var b := Encode(Dirent(inum % 0x1_0000, PadField(name)));
    LowHigh(inum);
    forall j | 0 <= j < 14 ensures b[0 + 2 + j] == if '\0' in name[..j + 1] then 0 else name[j] as int {
      PaddedAt(name, j);
    }
  }

  lemma PlacedRecord(c: seq<byte>, at: nat, b: seq<byte>, name: string, inum: nat)
    requires at <= |c| && |b| == 16 && RecordAt(b, 0, name, inum)
    ensures RecordAt(Overwrite(c, at, b), at, name, inum)
  {
    var d := Overwrite(c, at, b);
    assert forall k :: at <= k < at + 16 ==> d[k] == b[k - at];
    hide Overwrite;
    forall j | 0 <= j < 14 ensures d[at + 2 + j] == if '\0' in name[..j + 1] then 0 else name[j] as int {
      assert d[at + 2 + j] == b[0 + 2 + j];
    }
  }

  lemma RecordWritten(f: Fs, g: Fs, d: nat, k: nat, name: string, inum: nat)
    requires Field(name) && Storable(Dirent(inum % 0x1_0000, PadField(name)))
    requires WriteDone(f, g, d, 16 * k, Encode(Dirent(inum % 0x1_0000, PadField(name))))
    ensures HoldsRecord(g, d, k, name, inum)
  {
    hide Contents, Encode, Storable, RecordAt, Overwrite, FsInv;
    SizeBound(f, d);
    EncodedRecord(name, inum);
    PlacedRecord(Contents(f, d), 16 * k, Encode(Dirent(inum % 0x1_0000, PadField(name))), name, inum);
  }

  lemma LowHigh(inum: nat)
    ensures inum % 0x1_0000 % 0x100 == inum % 256 && inum % 0x1_0000 / 0x100 == inum / 256 % 256
  {
    var q, r := inum / 0x1_0000, inum % 0x1_0000;
    assert inum == 0x100 * (0x100 * q) + r;
    assert inum / 256 == 0x100 * q + r / 256;
  }

  /** strncpy: the name's characters, then NULs. */
  lemma PaddedAt(name: string, j: nat)
    requires Field(name) && j < 14
    ensures PadField(name)[j] == if '\0' in name[..j + 1] then '\0' else name[j]
  {
    var n := NameOf(name);
    hide NameOf;
    if j < |n| {
      assert name[..j + 1] == n[..j + 1];
    } else if |n| < 14 {
      assert name[..j + 1][|n|] == '\0';
    }
  }
}
