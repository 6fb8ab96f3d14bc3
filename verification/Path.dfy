/** fs.c in place: the inode cache, directory search and linking, and path resolution. */
module Path {
  import opened CStrings
  import opened PathSpec

  datatype Look = NoEntry | Entry(slot: nat) | CacheFull
  datatype LinkResult = LinkDone | Exists | LinkPanic(why: string)
  datatype NameResult = Name(slot: nat) | NoName | NamePanic(why: string)

  method PassSlashes(path: CString, from: nat) returns (p: nat)
    requires from <= |path|
    ensures p == SkipSlashes(path, from)
  {
    p := from;
    while p < |path| && path[p] == '/'
      invariant from <= p <= |path| && SkipSlashes(path, from) == SkipSlashes(path, p)
    {
      p := p + 1;
    }
  }

  /** skipelem: the position after the next component and its slashes; the name goes into a field of 14. */
  method Skipelem(path: CString, from: nat, stale: string) returns (found: bool, next: nat, name: string)
    requires from <= |path| && Field(stale)
    ensures found <==> Components(path, from) != []
    ensures found ==>
              from < next <= |path| && Field(name) && Components(path, from) == [NameOf(name)] + Components(path, next)
    ensures found ==> (next == |path| <==> Components(path, next) == [])
    ensures found ==> Copied(path, from, next, name)
    ensures !found ==> name == stale && next == |path| && forall k :: from <= k < |path| ==> path[k] == '/'
  {
    hide SkipSlashes, ElemEnd, NameOf, CutName, Copied;
    var s := PassSlashes(path, from);
    if s == |path| { return false, s, stale; }
    var p := s;
    while p < |path| && path[p] != '/'
      invariant s <= p <= |path| && forall k :: s <= k < p ==> path[k] != '/'
    {
      p := p + 1;
    }
    assert p == ElemEnd(path, s);
    name := StoreName(path[s..p], stale);
    next := PassSlashes(path, p);
    ComponentsFrom(path, p, next);
    CopiedIs(path, from, s, p, next, name);
    return true, next, name;
  }

  /** The element at a..b is the first after from, and next is where the one after it starts. */
  ghost predicate IsElement(path: CString, from: nat, a: nat, b: nat, next: nat) {
    && from <= a < b <= next <= |path|
    && (forall k :: from <= k < a || b <= k < next ==> path[k] == '/')
    && (forall k :: a <= k < b ==> path[k] != '/')
    && (b == |path| || path[b] == '/') && (next == |path| || path[next] != '/')
  }

  /** The name field holds the first 14 characters of the first element. */
  ghost predicate Copied(path: CString, from: nat, next: nat, name: string) {
    exists a, b :: && 0 <= a <= b && IsElement(path, from, a, b, next) && |name| == 14
                   && NameOf(name) == path[a..if b - a < 14 then b else a + 14]
                   && name[..|NameOf(name)|] == NameOf(name) && (b - a < 14 ==> name[b - a] == '\0')
  }

  lemma CopiedIs(path: CString, from: nat, a: nat, b: nat, next: nat, name: string)
    requires IsElement(path, from, a, b, next) && |name| == 14 && NameOf(name) == CutName(path[a..b])
    ensures Copied(path, from, next, name)
  {
    hide CutName, NameOf;
    assert CutName(path[a..b]) == path[a..b][..|CutName(path[a..b])|] == path[a..if b - a < 14 then b else a + 14];
  }

  method StoreName(elem: string, stale: string) returns (name: string)
    requires '\0' !in elem && Field(stale)
    ensures Field(name) && NameOf(name) == CutName(elem)
  {
    hide NameOf;
    var len := |elem|;
    if len >= DIRSIZ {
      name := elem[..DIRSIZ];
      PadName(name, []);
      assert name + [] == name;
      assert len == DIRSIZ ==> elem[..DIRSIZ] == elem;
    } else {
      name := elem + ['\0'] + stale[len + 1..];
      PadName(elem, ['\0'] + stale[len + 1..]);
      assert name == elem + (['\0'] + stale[len + 1..]);
    }
  }

  lemma ComponentsFrom(path: CString, e: nat, p: nat)
    requires e <= p <= |path| && p == SkipSlashes(path, e)
    ensures Components(path, e) == Components(path, p) && (p == |path| <==> Components(path, p) == [])
  {
    assert SkipSlashes(path, p) == p;
  }

  /** namecmp: strncmp over 14 characters. */
  method Namecmp(s: string, t: string) returns (same: bool)
    requires Field(s) && Field(t)
    ensures same <==> NameOf(s) == NameOf(t)
  {
    hide NameOf;
    var i := 0;
    assert s[0..] == s && t[0..] == t;
    while i < DIRSIZ && s[i] != '\0' && s[i] == t[i]
      invariant 0 <= i <= DIRSIZ && (NameOf(s) == NameOf(t) <==> NameOf(s[i..]) == NameOf(t[i..]))
    {
      NamesDiffer(s[i..], t[i..]);
      assert s[i..][1..] == s[i + 1..] && t[i..][1..] == t[i + 1..];
      i := i + 1;
    }
    if i == DIRSIZ {
      assert s[i..] == t[i..] == [];
      return true;
    }
    NamesDiffer(s[i..], t[i..]);
    return s[i] == t[i];
  }

  lemma NamesDiffer(s: string, t: string)
    requires s != [] && t != []
    ensures NameOf(s) == NameOf(t) <==> s[0] == t[0] && (s[0] == '\0' || NameOf(s[1..]) == NameOf(t[1..]))
  {
    assert s[0] != '\0' ==> NameOf(s)[0] == s[0] && NameOf(s)[1..] == NameOf(s[1..]);
    assert t[0] != '\0' ==> NameOf(t)[0] == t[0] && NameOf(t)[1..] == NameOf(t[1..]);
  }

  lemma RefsNone(a: seq<Cached>, b: seq<Cached>, inum: nat)
    requires RefsBy(a, b, inum, 0)
    ensures RefsBy(a, b, 0, 0)
  {
    hide Refs;
  }

  lemma RefsSame(a: seq<Cached>)
    requires |a| == NINODE
    ensures RefsBy(a, a, 0, 0)
  {
    hide Refs;
  }

  datatype Descent = Reached(slot: nat) | Stopped | Gone | Halts(why: string)

  /** One reference has been dropped at `from` and one taken at `to` (0: none). */
  ghost predicate RefsMoved(a: seq<Cached>, b: seq<Cached>, from: nat, to: nat) {
    && |a| == |b| == NINODE
    && forall i: nat :: Refs(b, i, NINODE) ==
         Refs(a, i, NINODE) - (if i == from && i != 0 then 1 else 0) + (if i == to && i != 0 then 1 else 0)
  }

  lemma MovedNone(a: seq<Cached>, b: seq<Cached>, c: seq<Cached>)
    requires RefsBy(a, b, 0, 0) && RefsBy(b, c, 0, 0)
    ensures RefsMoved(a, c, 0, 0)
  {
    hide Refs;
    forall i: nat ensures Refs(c, i, NINODE) == Refs(a, i, NINODE) { assert Refs(b, i, NINODE) == Refs(a, i, NINODE); }
  }

  lemma MovedOff(a: seq<Cached>, b: seq<Cached>, c: seq<Cached>, x: seq<Cached>, from: nat)
    requires RefsBy(a, b, 0, 0) && RefsBy(b, c, 0, 0) && RefsBy(c, x, from, -1) && from != 0
    ensures RefsMoved(a, x, from, 0)
  {
    hide Refs;
    forall i: nat ensures Refs(x, i, NINODE) == Refs(a, i, NINODE) - if i == from then 1 else 0 {
      assert Refs(b, i, NINODE) == Refs(a, i, NINODE) && Refs(c, i, NINODE) == Refs(b, i, NINODE);
    }
  }

  lemma MovedTo(a: seq<Cached>, b: seq<Cached>, c: seq<Cached>, x: seq<Cached>, y: seq<Cached>, from: nat, to: nat)
    requires RefsBy(a, b, 0, 0) && RefsBy(b, c, to, 1) && RefsBy(c, x, 0, 0) && RefsBy(x, y, from, -1)
    requires from != 0 && to != 0
    ensures RefsMoved(a, y, from, to)
  {
    hide Refs;
    forall i: nat
      ensures Refs(y, i, NINODE) == Refs(a, i, NINODE) - (if i == from then 1 else 0) + (if i == to then 1 else 0)
    {
      assert Refs(b, i, NINODE) == Refs(a, i, NINODE);
      assert Refs(c, i, NINODE) == Refs(b, i, NINODE) + if i == to then 1 else 0;
      assert Refs(x, i, NINODE) == Refs(c, i, NINODE);
    }
  }

  lemma MovedOn(a: seq<Cached>, b: seq<Cached>, to: nat)
    requires RefsBy(a, b, to, 1) && to != 0
    ensures RefsMoved(a, b, 0, to)
  {
    hide Refs;
    forall i: nat ensures Refs(b, i, NINODE) == Refs(a, i, NINODE) + if i == to then 1 else 0 {}
  }

  lemma MovedBack(a: seq<Cached>, b: seq<Cached>, c: seq<Cached>, at: nat)
    requires RefsMoved(a, b, 0, at) && RefsMoved(b, c, at, 0)
    ensures RefsMoved(a, c, 0, 0)
  {
    hide Refs;
    forall i: nat ensures Refs(c, i, NINODE) == Refs(a, i, NINODE) {
      assert Refs(b, i, NINODE) == Refs(a, i, NINODE) + if i == at && i != 0 then 1 else 0;
    }
  }

  lemma MovedStill(a: seq<Cached>, b: seq<Cached>, c: seq<Cached>, at: nat)
    requires RefsMoved(a, b, 0, at) && RefsMoved(b, c, 0, 0)
    ensures RefsMoved(a, c, 0, at)
  {
    hide Refs;
    forall i: nat ensures Refs(c, i, NINODE) == Refs(a, i, NINODE) + if i == at && i != 0 then 1 else 0 {
      assert Refs(c, i, NINODE) == Refs(b, i, NINODE);
    }
  }

  lemma MovedAlong(a: seq<Cached>, b: seq<Cached>, c: seq<Cached>, from: nat, to: nat)
    requires RefsMoved(a, b, 0, from) && RefsMoved(b, c, from, to)
    ensures RefsMoved(a, c, 0, to)
  {
    hide Refs;
    forall i: nat ensures Refs(c, i, NINODE) == Refs(a, i, NINODE) + if i == to && i != 0 then 1 else 0 {
      assert Refs(b, i, NINODE) == Refs(a, i, NINODE) + if i == from && i != 0 then 1 else 0;
    }
  }

  /** While one more inode is referenced. */
  lemma UsedWith(a: seq<Cached>, b: seq<Cached>, cur: nat)
    requires RefsMoved(a, b, 0, cur) && cur != 0
    ensures InUse(b) == InUse(a) + {cur}
  {
    hide Refs, InUse;
    forall x: nat ensures x in InUse(b) <==> x in InUse(a) + {cur} {
      InUseIs(a, x);
      InUseIs(b, x);
      assert Refs(b, x, NINODE) == Refs(a, x, NINODE) + if x == cur then 1 else 0;
    }
  }

  /** ilock changes nobody's references. */
  lemma PlaceAfterLock(a: seq<Cached>, b: seq<Cached>, inum: nat)
    requires OneEntry(b) && RefsBy(a, b, 0, 0)
    ensures inum != 0 ==> (CanGet(b, inum) <==> !NoPlace(InUse(a), inum))
    ensures inum == 0 ==> !NoPlace(InUse(a), inum)
  {
    hide Refs, InUse;
    if inum != 0 {
      CanGetIff(b, inum);
      forall x: nat ensures x in InUse(b) <==> x in InUse(a) {
        InUseIs(a, x);
        InUseIs(b, x);
        assert Refs(b, x, NINODE) == Refs(a, x, NINODE);
      }
      assert InUse(a) == InUse(b);
    }
  }

  /** The walk ended at `done` without halting there. */
  lemma NoHaltAfter(tree: map<nat, Node>, used: set<nat>, start: nat, done: seq<string>, n: string, rest: seq<string>,
                    parent: bool)
    requires var cur := Resolve(tree, start, done);
             cur != 0 && cur in tree && (!tree[cur].isDir || Lookup(tree[cur].entries, n) == 0)
    requires var comps := done + ([n] + rest);
             forall k :: 0 <= k <= |done| ==> !HaltsAt(tree, used, start, comps, parent, k)
    ensures !WalkHalts(tree, used, start, done + ([n] + rest), parent)
  {
    hide HaltsAt, Resolve, Lookup;
    var comps := done + ([n] + rest);
    forall k | 0 <= k < |comps| ensures !HaltsAt(tree, used, start, comps, parent, k) {
      if k > |done| { GoneNoHalt(tree, used, start, done, n, rest, parent, k); }
    }
  }

  predicate Absolute(path: CString) {
    path != "" && path[0] == '/'
  }

  lemma ResolveNone(tree: map<nat, Node>, inum: nat)
    ensures Resolve(tree, inum, []) == inum
  {
  }

  /** All components have been followed; looking for a parent, there were none. */
  lemma TargetEnd(tree: map<nat, Node>, start: nat, comps: seq<string>, parent: bool)
    ensures !parent ==> Target(tree, start, comps, parent) == Resolve(tree, start, comps)
    ensures parent && comps == [] ==> Target(tree, start, comps, parent) == 0
  {
  }

  lemma {:induction false} NoRefsTo(cache: seq<Cached>, inum: nat, n: nat)
    requires n <= |cache| && forall i :: 0 <= i < |cache| ==> cache[i].ref == 0
    ensures Refs(cache, inum, n) == 0
  {
    if n > 0 { NoRefsTo(cache, inum, n - 1); }
  }

  lemma NoRefs(cache: seq<Cached>)
    requires |cache| == NINODE && forall i :: 0 <= i < |cache| ==> cache[i].ref == 0
    ensures forall i: nat :: Refs(cache, i, NINODE) == 0
  {
    hide Refs;
    forall i: nat ensures Refs(cache, i, NINODE) == 0 { NoRefsTo(cache, i, NINODE); }
  }

  class Names {
    var tree: map<nat, Node>
    var cache: seq<Cached>

    /** One cache entry per inode in use, nothing locked, and well-formed directories without duplicate names. */
    ghost predicate Valid()
      reads this
    {
      OneEntry(cache) && Unlocked(cache) && TreeOk()
    }

    ghost predicate TreeOk()
      reads this`tree
    {
      forall i :: i in tree ==> DirOk(tree[i].entries)
    }

    constructor (tree: map<nat, Node>)
      requires forall i :: i in tree ==> DirOk(tree[i].entries)
      ensures Valid() && this.tree == tree && forall i: nat :: Refs(cache, i, NINODE) == 0
    {
      this.tree := tree;
      cache := seq(NINODE, _ => Cached(0, 0, false));
      new;
      NoRefs(cache);
    }

    /** iget; a full cache panics. */
    method Iget(inum: nat) returns (found: bool, slot: nat)
      requires OneEntry(cache) && inum != 0
      modifies this`cache
      ensures OneEntry(cache)
      ensures found ==>
                slot < NINODE && cache[slot].inum == inum && cache[slot].ref > 0 && RefsBy(old(cache), cache, inum, 1)
      ensures found ==> forall i :: 0 <= i < NINODE && old(cache)[i].ref > 0 ==>
                cache[i].inum == old(cache)[i].inum && cache[i].ref > 0 && cache[i].busy == old(cache)[i].busy
      ensures found ==> cache[slot].ref == (if old(cache)[slot].ref > 0 then old(cache)[slot].ref + 1 else 1)
      ensures forall i :: 0 <= i < NINODE && cache[i].busy ==> old(cache)[i].busy
      ensures found <==> CanGet(old(cache), inum)
      ensures !found ==> cache == old(cache) && AllInUse(cache)
    {
      hide Refs, RefsBy;
      var empty := NINODE;
      var ip := 0;
      while ip < NINODE
        invariant 0 <= ip <= NINODE && cache == old(cache)
        invariant forall i :: 0 <= i < ip ==> !(cache[i].ref > 0 && cache[i].inum == inum)
        invariant 0 <= empty <= NINODE && (empty < NINODE ==> cache[empty].ref == 0)
        invariant empty == NINODE ==> forall i :: 0 <= i < ip ==> cache[i].ref > 0
        decreases NINODE - ip
      {
        if cache[ip].ref > 0 && cache[ip].inum == inum {
          RefsChange(cache, ip, cache[ip].(ref := cache[ip].ref + 1));
          cache := cache[ip := cache[ip].(ref := cache[ip].ref + 1)];
          return true, ip;
        }
        if empty == NINODE && cache[ip].ref == 0 { empty := ip; }
        ip := ip + 1;
      }
      if empty == NINODE { return false, 0; }
      RefsChange(cache, empty, Cached(1, inum, false));
      cache := cache[empty := Cached(1, inum, false)];
      return true, empty;
    }

    /** dirlookup in a locked directory. */
    method Dirlookup(dp: nat, name: string) returns (r: Look, off: nat)
      requires OneEntry(cache) && TreeOk() && Field(name) && dp < NINODE && cache[dp].ref > 0
      requires cache[dp].inum in tree && tree[cache[dp].inum].isDir
      modifies this`cache
      ensures OneEntry(cache)
      ensures var es := tree[old(cache)[dp].inum].entries;
              && (r == NoEntry <==> Lookup(es, NameOf(name)) == 0)
              && (r == CacheFull <==> Lookup(es, NameOf(name)) != 0 && !CanGet(old(cache), Lookup(es, NameOf(name))))
              && (r == NoEntry || r == CacheFull ==> cache == old(cache)) && (r == CacheFull ==> AllInUse(cache))
              && (r.Entry? ==>
                    && off == Find(es, NameOf(name), 0) && r.slot < NINODE && cache[r.slot].ref > 0
                    && cache[r.slot].inum == Lookup(es, NameOf(name))
                    && RefsBy(old(cache), cache, Lookup(es, NameOf(name)), 1)
                    && cache[r.slot].ref == (if old(cache)[r.slot].ref > 0 then old(cache)[r.slot].ref + 1 else 1))
      ensures forall i :: 0 <= i < NINODE && cache[i].busy ==> old(cache)[i].busy
      ensures forall i :: 0 <= i < NINODE && old(cache)[i].ref > 0 ==>
                cache[i].inum == old(cache)[i].inum && cache[i].ref > 0 && cache[i].busy == old(cache)[i].busy
    {
      hide Refs, RefsBy, NameOf;
      var es := tree[cache[dp].inum].entries;
      off := 0;
      while off < |es|
        invariant 0 <= off <= |es| && cache == old(cache) && Find(es, NameOf(name), off) == Find(es, NameOf(name), 0)
      {
        if es[off].inum != 0 {
          var same := Namecmp(name, es[off].name);
          if same {
            var found, slot := Iget(es[off].inum);
            return if found then Entry(slot) else CacheFull, off;
          }
        }
        off := off + 1;
      }
      return NoEntry, off;
    }

    /** idup. */
    method Idup(slot: nat)
      requires OneEntry(cache) && slot < NINODE && cache[slot].ref > 0
      modifies this`cache
      ensures OneEntry(cache) && RefsBy(old(cache), cache, old(cache)[slot].inum, 1)
      ensures cache == old(cache)[slot := old(cache)[slot].(ref := old(cache)[slot].ref + 1)]
    {
      hide Refs, RefsBy;
      RefsChange(cache, slot, cache[slot].(ref := cache[slot].ref + 1));
      cache := cache[slot := cache[slot].(ref := cache[slot].ref + 1)];
    }

    /** iput, for an inode that still has links. */
    method Iput(slot: nat)
      requires OneEntry(cache) && slot < NINODE && cache[slot].ref > 0
      modifies this`cache
      ensures OneEntry(cache) && RefsBy(old(cache), cache, old(cache)[slot].inum, -1)
      ensures cache == old(cache)[slot := old(cache)[slot].(ref := old(cache)[slot].ref - 1)]
    {
      hide Refs, RefsBy;
      RefsChange(cache, slot, cache[slot].(ref := cache[slot].ref - 1));
      cache := cache[slot := cache[slot].(ref := cache[slot].ref - 1)];
    }

    /** ilock, once nobody else holds the lock; a free inode panics. */
    method Ilock(slot: nat) returns (ok: bool)
      requires OneEntry(cache) && slot < NINODE && cache[slot].ref > 0 && !cache[slot].busy
      modifies this`cache
      ensures OneEntry(cache) && (ok <==> cache[slot].inum in tree) && RefsBy(old(cache), cache, 0, 0)
      ensures cache == old(cache)[slot := old(cache)[slot].(busy := true)]
    {
      hide Refs, RefsBy;
      RefsChange(cache, slot, cache[slot].(busy := true));
      RefsNone(cache, cache[slot := cache[slot].(busy := true)], cache[slot].inum);
      cache := cache[slot := cache[slot].(busy := true)];
      ok := cache[slot].inum in tree;
    }

    method Iunlock(slot: nat)
      requires OneEntry(cache) && slot < NINODE && cache[slot].ref > 0 && cache[slot].busy
      modifies this`cache
      ensures OneEntry(cache) && RefsBy(old(cache), cache, 0, 0)
      ensures cache == old(cache)[slot := old(cache)[slot].(busy := false)]
    {
      hide Refs, RefsBy;
      RefsChange(cache, slot, cache[slot].(busy := false));
      RefsNone(cache, cache[slot := cache[slot].(busy := false)], cache[slot].inum);
      cache := cache[slot := cache[slot].(busy := false)];
    }

    /** dirlink in a locked directory. */
    method Dirlink(dp: nat, name: string, inum: nat) returns (r: LinkResult)
      requires OneEntry(cache) && TreeOk() && Field(name) && dp < NINODE && cache[dp].ref > 0 && inum != 0
      requires cache[dp].inum in tree && tree[cache[dp].inum].isDir
      modifies this
      ensures OneEntry(cache) && TreeOk() && RefsBy(old(cache), cache, 0, 0)
      ensures r != LinkDone ==> tree == old(tree)
      ensures var es := old(tree)[old(cache)[dp].inum].entries;
              var bound := Lookup(es, NameOf(name));
              && (r == Exists <==> bound != 0 && CanGet(old(cache), bound))
              && (r.LinkPanic? <==>
                    (bound != 0 && !CanGet(old(cache), bound)) || (bound == 0 && FirstFree(es, 0) >= 4480))
              && (r == LinkDone <==> bound == 0 && FirstFree(es, 0) < 4480)
      ensures r == LinkDone ==>
                var d := old(cache)[dp].inum;
                && d in tree && tree[d].isDir
                && tree == old(tree)[d := Node(true, Linked(old(tree)[d].entries, Dirent(inum, PadField(name))))]
                && forall n :: Lookup(tree[d].entries, n) ==
                     if n == NameOf(name) then inum else Lookup(old(tree)[d].entries, n)
    {
      hide Refs, RefsBy, NameOf, Lookup;
      var d := cache[dp].inum;
      RefsSame(cache);
      var look, _ := Dirlookup(dp, name);
      if look == CacheFull { return LinkPanic("iget: no inodes"); }
      if look.Entry? {
        ghost var c := cache;
        ghost var i := cache[look.slot].inum;
        Iput(look.slot);
        RefsByUndo(old(cache), c, cache, i);
        return Exists;
      }
      var es := tree[d].entries;
      var off := 0;
      while off < |es| && es[off].inum != 0
        invariant 0 <= off <= |es| && forall i :: 0 <= i < off ==> es[i].inum != 0
      {
        off := off + 1;
      }
      assert off == FirstFree(es, 0);
      if off >= MAXENTRIES { return LinkPanic("dirlink"); }
      var de := Dirent(inum, PadField(name));
      PadFieldName(name);
      forall n
        ensures Lookup(Linked(es, de), n) == if n == NameOf(name) then inum else Lookup(es, n)
      {
        LinkAddsOne(es, de, n);
      }
      assert NoDuplicates(Linked(es, de)) by { LinkAddsOne(es, de, ""); }
      tree := tree[d := Node(true, if off < |es| then es[off := de] else es + [de])];
      return LinkDone;
    }

    /** One component of namex: from the directory at ip to the entry `name`, or no further if `stop`. */
    method Descend(ip: nat, name: string, stop: bool) returns (d: Descent)
      requires Valid() && ip < NINODE && cache[ip].ref > 0 && Field(name)
      modifies this`cache
      ensures |cache| == NINODE && (!d.Halts? ==> Valid())
      ensures var i := old(cache)[ip].inum;
              && (d.Halts? <==> i !in tree || (tree[i].isDir && !stop
                                               && NoPlace(InUse(old(cache)), Lookup(tree[i].entries, NameOf(name)))))
              && (d.Gone? ==> RefsMoved(old(cache), cache, i, 0) && i in tree)
              && (d.Gone? ==> !tree[i].isDir || (!stop && Lookup(tree[i].entries, NameOf(name)) == 0))
              && (d.Stopped? ==> stop && i in tree && tree[i].isDir && RefsMoved(old(cache), cache, 0, 0))
              && (d.Stopped? ==> cache[ip].inum == i && cache[ip].ref > 0)
              && (d.Reached? ==>
                    && !stop && i in tree && tree[i].isDir && d.slot < NINODE && cache[d.slot].ref > 0
                    && cache[d.slot].inum == Lookup(tree[i].entries, NameOf(name)) != 0
                    && RefsMoved(old(cache), cache, i, cache[d.slot].inum))
    {
      hide Refs, RefsBy, RefsMoved, NameOf, Lookup, NoDuplicates, InUse, CanGet, NoPlace;
      ghost var c0, i := cache, cache[ip].inum;
      var ok := Ilock(ip);
      if !ok { return Halts("ilock: no type"); }
      ghost var c1 := cache;
      if !tree[cache[ip].inum].isDir {
        Iunlock(ip);
        ghost var c2 := cache;
        Iput(ip);
        MovedOff(c0, c1, c2, cache, i);
        return Gone;
      }
      if stop {
        Iunlock(ip);
        MovedNone(c0, c1, cache);
        return Stopped;
      }
      ghost var next := Lookup(tree[i].entries, NameOf(name));
      PlaceAfterLock(c0, c1, next);
      var look, _ := Dirlookup(ip, name);
      if look == CacheFull { return Halts("iget: no inodes"); }
      ghost var c2 := cache;
      Iunlock(ip);
      ghost var c3 := cache;
      Iput(ip);
      if look == NoEntry {
        MovedOff(c0, c1, c3, cache, i);
        return Gone;
      }
      MovedTo(c0, c1, c2, c3, cache, i, cache[look.slot].inum);
      return Reached(look.slot);
    }

    /** Where namex starts. */
    method StartAt(path: CString, cwd: nat) returns (found: bool, ip: nat)
      requires Valid() && cwd < NINODE && cache[cwd].ref > 0
      modifies this`cache
      ensures |cache| == NINODE && (found ==> Valid())
      ensures found <==> !(Absolute(path) && NoPlace(InUse(old(cache)), ROOTINO))
      ensures var start := if Absolute(path) then ROOTINO else old(cache)[cwd].inum;
              found ==>
                && start != 0 && ip < NINODE && cache[ip].ref > 0 && cache[ip].inum == start
                && RefsMoved(old(cache), cache, 0, start)
    {
      hide Refs, RefsBy, RefsMoved, NoDuplicates, InUse, NoPlace, CanGet;
      CanGetIff(cache, ROOTINO);
      if Absolute(path) {
        found, ip := Iget(ROOTINO);
      } else {
        Idup(cwd);
        found, ip := true, cwd;
      }
      if found { MovedOn(old(cache), cache, cache[ip].inum); }
    }

    /** The end of namex when a parent was asked for and there is no component left. */
    method GiveBack(ip: nat)
      requires Valid() && ip < NINODE && cache[ip].ref > 0
      modifies this`cache
      ensures Valid() && cache[ip].inum == old(cache)[ip].inum && RefsMoved(old(cache), cache, old(cache)[ip].inum, 0)
    {
      hide Refs, RefsBy, RefsMoved, NoDuplicates;
      RefsSame(cache);
      Iput(ip);
      MovedOff(old(cache), old(cache), old(cache), cache, cache[ip].inum);
    }

    /** namex; cwd is the cache entry of the current directory. */
    method Namex(path: CString, parent: bool, cwd: nat, stale: string) returns (r: NameResult, name: string)
      requires Valid() && cwd < NINODE && cache[cwd].ref > 0 && Field(stale)
      modifies this`cache
      ensures r.Name? || r.NoName? ==> Valid()
      ensures var start := if path != "" && path[0] == '/' then 1 else old(cache)[cwd].inum;
              var comps := Components(path, 0);
              && (r.Name? ==>
                    && r.slot < NINODE && cache[r.slot].ref > 0
                    && cache[r.slot].inum == Target(tree, start, comps, parent) != 0
                    && RefsMoved(old(cache), cache, 0, cache[r.slot].inum)
                    && (parent ==> comps != [] && NameOf(name) == comps[|comps| - 1]))
              && (r.NoName? ==> Target(tree, start, comps, parent) == 0 && RefsMoved(old(cache), cache, 0, 0))
              && (r.NamePanic? <==>
                    || (path != "" && path[0] == '/' && NoPlace(InUse(old(cache)), 1))
                    || WalkHalts(tree, InUse(old(cache)), start, comps, parent))
    {
      hide Refs, RefsBy, RefsMoved, NameOf, Lookup, Resolve, Components, Valid, Target, HaltsAt, InUse, NoPlace;
      name := stale;
      ghost var used := InUse(cache);
      ghost var comps := Components(path, 0);
      var found, ip := StartAt(path, cwd);
      if !found { return NamePanic("iget: no inodes"), name; }
      ghost var start := cache[ip].inum;
      ghost var done: seq<string> := [];
      ResolveNone(tree, start);
      var more, s;
      more, s, name := Skipelem(path, 0, name);
      while more
        invariant Valid() && ip < NINODE == |cache| && cache[ip].ref > 0 && cache[ip].inum != 0 && Field(name)
        invariant s <= |path|
        invariant RefsMoved(old(cache), cache, 0, cache[ip].inum) && Resolve(tree, start, done) == cache[ip].inum
        invariant comps == done + if more then [NameOf(name)] + Components(path, s) else []
        invariant more ==> (s == |path| <==> Components(path, s) == [])
        invariant parent && done != [] ==> more
        invariant forall k :: 0 <= k < |done| ==> !HaltsAt(tree, used, start, comps, parent, k)
        decreases more, |path| - s
      {
        ghost var c, cur, rest := cache, cache[ip].inum, Components(path, s);
        UsedWith(old(cache), cache, cur);
        HaltsHere(tree, used, start, done, NameOf(name), rest, parent);
        var d := Descend(ip, name, parent && s == |path|);
        match d
        case Halts(why) =>
          return NamePanic(why), name;
        case Gone =>
          NoHaltAfter(tree, used, start, done, NameOf(name), rest, parent);
          TargetGone(tree, start, done, NameOf(name), rest, parent);
          MovedBack(old(cache), c, cache, cur);
          return NoName, name;
        case Stopped =>
          TargetStop(tree, start, done, NameOf(name));
          MovedStill(old(cache), c, cache, cur);
          return Name(ip), name;
        case Reached(slot) =>
          ResolveStep(tree, start, done, NameOf(name), []);
          ResolveNone(tree, cache[slot].inum);
          MovedAlong(old(cache), c, cache, cur, cache[slot].inum);
          ip := slot;
          assert done + ([NameOf(name)] + rest) == (done + [NameOf(name)]) + rest;
          assert [NameOf(name)] + [] == [NameOf(name)];
          done := done + [NameOf(name)];
          more, s, name := Skipelem(path, s, name);
      }
      assert comps == done;
      TargetEnd(tree, start, comps, parent);
      if parent {
        ghost var c, cur := cache, cache[ip].inum;
        GiveBack(ip);
        MovedBack(old(cache), c, cache, cur);
        return NoName, name;
      }
      return Name(ip), name;
    }
  }
}
