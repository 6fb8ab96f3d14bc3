/** fs.c: directory search, linking and path resolution over the directories' files, with the inode cache. */
module FsPath {
  import opened CStrings
  import CacheSpec
  import opened FsState
  import opened FsFile
  import opened FsCharge
  import opened FileSystem
  import opened FsDir
  import opened PathSpec
  import opened Path
  import opened Panics

  /** The names are those in the directories' files. */
  ghost predicate OnDisk(fs: FileSystem, names: Names)
    reads fs, names
  {
    FsInv(fs.Value()) && fs.Traced() && OneEntry(names.cache) && names.TreeOk() && names.tree == TreeOf(fs.Value())
  }

  /** The directory locked in cache entry dp. */
  ghost predicate AtDir(fs: FileSystem, names: Names, dp: nat)
    requires |names.cache| == NINODE
    reads fs, names
  {
    && dp < NINODE && names.cache[dp].ref > 0
    && names.cache[dp].inum in fs.ino && fs.ino[names.cache[dp].inum].typ == T_DIR
  }

  ghost function EntriesOf(fs: Fs, d: nat): seq<Dirent>
    requires FsInv(fs) && d in fs.ino
  {
    Entries(Contents(fs, d))
  }

  datatype DirGet = Bound(slot: nat) | Unbound | InodesFull | CutShort | GetPanic(why: Reason)

  /** dirlookup: readi record by record, namecmp, and iget of the inode found. */
  method Dirlookup(fs: FileSystem, names: Names, dp: nat, name: string) returns (r: DirGet)
    requires OnDisk(fs, names) && AtDir(fs, names, dp) && Field(name)
    modifies fs`view, fs`logged, fs`writes, fs`ino, fs`now, names`cache
    ensures OnDisk(fs, names) && fs.Value() == old(fs.Value()) && fs.logged == old(fs.logged)
    ensures var d := old(names.cache)[dp].inum;
            var n, c := Lookup(EntriesOf(fs.Value(), d), NameOf(name)), old(names.cache);
            match r
            case Bound(slot) =>
              && n != 0 && CanGet(c, n) && RefsBy(c, names.cache, n, 1)
              && slot < NINODE && names.cache[slot].inum == n && names.cache[slot].ref > 0
            case Unbound => n == 0 && names.cache == c && fs.ino[d].size % 16 == 0
            case CutShort => n == 0 && names.cache == c && fs.ino[d].size % 16 != 0
            case InodesFull => n != 0 && !CanGet(c, n) && names.cache == c
            case GetPanic(why) => why == OutOfBuffers && |fs.logged| + fs.quota >= CacheSpec.NBUF
  {
    hide FsInv, Contents, NameOf, Lookup, Find, Entries, TreeOf, RefsBy, CanGet, DirOk, fs.Traced;
    var d := names.cache[dp].inum;
    var look := FindEntry(fs, d, name);
    match look {
      case LookPanic(why) => return GetPanic(why);
      case ShortRead => return CutShort;
      case NoSuch => return Unbound;
      case AtEntry(_, inum) =>
        var found, slot := names.Iget(inum);
        return if found then Bound(slot) else InodesFull;
    }
  }

  datatype DirLink = NowLinked | AlreadyBound | DirlinkRead | DirlinkFull | NoInodes | LinkHalts(why: Reason)

  /** dirlink: dirlookup, iput if the name is bound, else one record through writei. References are balanced. */
  method Dirlink(fs: FileSystem, names: Names, dp: nat, name: string, inum: nat) returns (r: DirLink)
    requires OnDisk(fs, names) && AtDir(fs, names, dp) && Field(name)
    requires forall k :: 0 <= k < DIRSIZ ==> name[k] as int < 256
    modifies fs`view, fs`logged, fs`writes, fs`ino, fs`now, names
    ensures r == NowLinked || r == AlreadyBound ==> OnDisk(fs, names) && RefsBy(old(names.cache), names.cache, 0, 0)
    ensures var f, d, c := old(fs.Value()), old(names.cache)[dp].inum, old(names.cache);
            var es := EntriesOf(f, d);
            var n := Lookup(es, NameOf(name));
            match r
            case NowLinked =>
              && n == 0 && FirstFree(es, 0) < 4480
              && names.tree == old(names.tree)[d := Node(true, Linked(es, Dirent(inum % 0x1_0000, PadField(name))))]
            case AlreadyBound => n != 0 && CanGet(c, n) && fs.Value() == f && names.tree == old(names.tree)
            case NoInodes => n != 0 && !CanGet(c, n)
            case DirlinkRead => n == 0 && f.ino[d].size % 16 != 0
            case DirlinkFull => n == 0 && FirstFree(es, 0) >= 4480
            case LinkHalts(why) =>
              || (why == OutOfBuffers && |fs.logged| + fs.quota >= CacheSpec.NBUF)
              || (&& n == 0 && FirstFree(es, 0) < 4480 && fs.sb.Ok() && fs.Overflows(why) && Shape(f)
                  && PanicMeans(f, d, 16 * FirstFree(es, 0), 16, old(fs.logged) == [], why, fs.quota))
  {
    hide FsInv, Contents, NameOf, Lookup, Find, Entries, TreeOf, RefsBy, CanGet, DirOk, fs.Traced, FirstFree;
    hide PanicMeans, fs.Overflows, Linked;
    ghost var f, c, es := fs.Value(), names.cache, EntriesOf(fs.Value(), names.cache[dp].inum);
    var d := names.cache[dp].inum;
    SizeBound(f, d);
    RefsSame(c);
    var look := Dirlookup(fs, names, dp, name);
    match look {
      case GetPanic(why) => return LinkHalts(why);
      case CutShort => return DirlinkRead;
      case InodesFull => return NoInodes;
      case Bound(slot) =>
        ghost var mid, n := names.cache, names.cache[slot].inum;
        names.Iput(slot);
        RefsByUndo(c, mid, names.cache, n);
        return AlreadyBound;
      case Unbound =>
    }
    var added := AddEntry(fs, d, name, inum);
    match added {
      case AddPanic(why) => return LinkHalts(why);
      case DirectoryFull => return DirlinkFull;
      case Added =>
        var de := Dirent(inum % 0x1_0000, PadField(name));
        LinkedOk(f, d, names.tree, name, de);
        names.tree := names.tree[d := Node(true, Linked(names.tree[d].entries, de))];
        return NowLinked;
    }
  }

  /** The new entry keeps the directory well formed. */
  lemma LinkedOk(f: Fs, d: nat, tree: map<nat, Node>, name: string, de: Dirent)
    requires FsInv(f) && d in f.ino && f.ino[d].typ == T_DIR && tree == TreeOf(f)
    requires forall i :: i in tree ==> DirOk(tree[i].entries)
    requires Field(name) && de.name == PadField(name) && Lookup(EntriesOf(f, d), NameOf(name)) == 0
    ensures d in tree && tree[d].entries == EntriesOf(f, d) && DirOk(Linked(EntriesOf(f, d), de))
  {
    hide FsInv, Contents, NameOf, Entries, PadField, NoDuplicates;
    assert NodeOf(f, d) == TreeOf(f)[d];
    var es := EntriesOf(f, d);
    PadFieldName(name);
    assert Find(es, NameOf(name), 0) == |es|;
    LinkNoDuplicates(es, de);
  }

  // ----- paths

  /** Following components through the directories' files. */
  ghost function Follow(fs: Fs, i: nat, comps: seq<string>): nat
    requires FsInv(fs)
    decreases |comps|
  {
    if comps == [] then i
    else if i !in fs.ino || fs.ino[i].typ != T_DIR then 0
    else
      var next := Lookup(EntriesOf(fs, i), comps[0]);
      if next == 0 then 0 else Follow(fs, next, comps[1..])
  }

  lemma {:induction false} ResolveIsFollow(fs: Fs, i: nat, comps: seq<string>)
    requires FsInv(fs)
    ensures Resolve(TreeOf(fs), i, comps) == Follow(fs, i, comps)
    decreases |comps|
  {
    hide FsInv, Contents, Entries, Lookup;
    if comps != [] && i in fs.ino && fs.ino[i].typ == T_DIR {
      assert TreeOf(fs)[i] == NodeOf(fs, i);
      var next := Lookup(EntriesOf(fs, i), comps[0]);
      if next != 0 { ResolveIsFollow(fs, next, comps[1..]); }
    }
  }

  /** namex over the directories' files: the inode the path leads to, or the directory for its last component. */
  method Namex(fs: FileSystem, names: Names, path: CString, parent: bool, cwd: nat, stale: string)
    returns (r: NameResult, name: string)
    requires OnDisk(fs, names) && names.Valid() && cwd < NINODE && names.cache[cwd].ref > 0 && Field(stale)
    modifies names`cache
    ensures r.Name? || r.NoName? ==> OnDisk(fs, names) && names.Valid()
    ensures var f, c := fs.Value(), old(names.cache);
            var start := if path != "" && path[0] == '/' then 1 else c[cwd].inum;
            var comps := Components(path, 0);
            var at := Follow(f, start, if parent && comps != [] then comps[..|comps| - 1] else comps);
            var found := at != 0 && (parent ==> comps != [] && at in f.ino && f.ino[at].typ == T_DIR);
            && (r.Name? ==> found && r.slot < NINODE && names.cache[r.slot].ref > 0 && names.cache[r.slot].inum == at)
            && (r.Name? ==> RefsMoved(c, names.cache, 0, at))
            && (r.Name? && parent ==> NameOf(name) == comps[|comps| - 1])
            && (r.NoName? ==> !found && RefsMoved(c, names.cache, 0, 0))
            && (r.NamePanic? <==>
                  || (path != "" && path[0] == '/' && NoPlace(InUse(c), 1))
                  || WalkHalts(TreeOf(f), InUse(c), start, comps, parent))
  {
    hide FsInv, Contents, NameOf, Lookup, Entries, RefsMoved, DirOk, Components, InUse, NoPlace, WalkHalts, Follow;
    hide Resolve, TreeOf, Target, fs.Traced;
    ghost var f := fs.Value();
    ghost var start := if Absolute(path) then ROOTINO else names.cache[cwd].inum;
    ghost var comps := Components(path, 0);
    TargetOnDisk(f, start, comps, parent);
    r, name := names.Namex(path, parent, cwd, stale);
  }

  lemma TargetOnDisk(f: Fs, start: nat, comps: seq<string>, parent: bool)
    requires FsInv(f)
    ensures var at := Follow(f, start, if parent && comps != [] then comps[..|comps| - 1] else comps);
            Target(TreeOf(f), start, comps, parent) ==
            if parent then (if comps != [] && at in f.ino && f.ino[at].typ == T_DIR then at else 0) else at
  {
    hide FsInv, Contents, Entries, Lookup, Resolve, Follow;
    if !parent {
      ResolveIsFollow(f, start, comps);
    } else if comps != [] {
      ResolveIsFollow(f, start, comps[..|comps| - 1]);
      var at := Follow(f, start, comps[..|comps| - 1]);
      if at in f.ino && f.ino[at].typ != 0 { assert TreeOf(f)[at] == NodeOf(f, at); }
    }
  }
}
