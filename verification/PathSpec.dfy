/** fs.c: directories as name-to-inode maps, path names as component lists, and reference counts of cached inodes. */
module PathSpec {
  import opened CStrings

  const DIRSIZ := 14
  const NINODE := 50
  const ROOTINO := 1
  const MAXENTRIES := 4480

  // ----- path names

  function SkipSlashes(path: CString, i: nat): (r: nat)
    requires i <= |path|
    ensures i <= r <= |path| && (r < |path| ==> path[r] != '/') && forall k :: i <= k < r ==> path[k] == '/'
    decreases |path| - i
  {
    if i < |path| && path[i] == '/' then SkipSlashes(path, i + 1) else i
  }

  function ElemEnd(path: CString, i: nat): (r: nat)
    requires i <= |path|
    ensures i <= r <= |path| && (r < |path| ==> path[r] == '/') && forall k :: i <= k < r ==> path[k] != '/'
    decreases |path| - i
  {
    if i < |path| && path[i] != '/' then ElemEnd(path, i + 1) else i
  }

  /** The first 14 characters. */
  function CutName(s: string): (r: string)
    ensures r <= s && |r| == if |s| < 14 then |s| else 14
  {
    if |s| > DIRSIZ then s[..DIRSIZ] else s
  }

  /** The components from i on, as skipelem delivers them. */
  function Components(path: CString, i: nat): seq<string>
    requires i <= |path|
    decreases |path| - i
  {
    var a := SkipSlashes(path, i);
    if a == |path| then [] else
      var b := ElemEnd(path, a);
      [CutName(path[a..b])] + Components(path, b)
  }

  /** The path split at every slash, empty pieces included; `start` is where the current piece began. */
  function Pieces(path: CString, start: nat, i: nat): seq<string>
    requires start <= i <= |path|
    decreases |path| - i
  {
    if i == |path| then [path[start..i]]
    else if path[i] == '/' then [path[start..i]] + Pieces(path, i + 1, i + 1)
    else Pieces(path, start, i + 1)
  }

  function NonEmptyCut(pieces: seq<string>): seq<string> {
    if pieces == [] then [] else (if pieces[0] == "" then [] else [CutName(pieces[0])]) + NonEmptyCut(pieces[1..])
  }

  lemma {:induction false} PiecesToEnd(path: CString, start: nat, i: nat)
    requires start <= i <= |path|
    ensures var e := ElemEnd(path, i);
            Pieces(path, start, i) == [path[start..e]] + if e == |path| then [] else Pieces(path, e + 1, e + 1)
    decreases |path| - i
  {
    if i < |path| && path[i] != '/' { PiecesToEnd(path, start, i + 1); }
  }

  lemma FilterCons(p: string, rest: seq<string>)
    ensures NonEmptyCut([p] + rest) == (if p == "" then [] else [CutName(p)]) + NonEmptyCut(rest)
  {
    assert ([p] + rest)[1..] == rest;
  }

  function NonEmpty(pieces: seq<string>): seq<string> {
    if pieces == [] then [] else (if pieces[0] == "" then [] else [pieces[0]]) + NonEmpty(pieces[1..])
  }

  /** Each string of cut is the first 14 characters of the string of whole at its place. */
  ghost predicate CutTo14(cut: seq<string>, whole: seq<string>) {
    && |cut| == |whole|
    && forall k :: 0 <= k < |whole| ==>
         cut[k] <= whole[k] && |cut[k]| == if |whole[k]| < 14 then |whole[k]| else 14
  }

  lemma {:induction false} CutsAre(pieces: seq<string>)
    ensures CutTo14(NonEmptyCut(pieces), NonEmpty(pieces))
  {
    hide CutName;
    if pieces != [] { CutsAre(pieces[1..]); }
  }

  /** The pieces with a slash between any two of them. */
  function Joined(pieces: seq<string>): string {
    if pieces == [] then "" else if |pieces| == 1 then pieces[0] else pieces[0] + "/" + Joined(pieces[1..])
  }

  /** Splitting at the slashes: no piece has a slash, and together they are the path. */
  lemma {:induction false} PiecesJoin(path: CString, start: nat, i: nat)
    requires start <= i <= |path| && '/' !in path[start..i]
    ensures var ps := Pieces(path, start, i);
            && ps != [] && Joined(ps) == path[start..]
            && forall k :: 0 <= k < |ps| ==> '/' !in ps[k]
    decreases |path| - i
  {
    if i < |path| {
      if path[i] == '/' {
        PiecesJoin(path, i + 1, i + 1);
        var rest := Pieces(path, i + 1, i + 1);
        assert ([path[start..i]] + rest)[1..] == rest;
        assert path[start..] == path[start..i] + "/" + path[i + 1..];
      } else {
        assert path[start..i + 1] == path[start..i] + [path[i]];
        PiecesJoin(path, start, i + 1);
      }
    }
  }

  /** skipelem's components are the non-empty slash-separated pieces, cut to 14 characters. */
  lemma {:induction false} ComponentsAreNonEmptyPieces(path: CString, i: nat)
    requires i <= |path|
    ensures Components(path, i) == NonEmptyCut(Pieces(path, i, i))
    ensures CutTo14(Components(path, i), NonEmpty(Pieces(path, i, i)))
    decreases |path| - i
  {
    CutsAre(Pieces(path, i, i));
    PiecesToEnd(path, i, i);
    var e := ElemEnd(path, i);
    var rest := if e == |path| then [] else Pieces(path, e + 1, e + 1);
    FilterCons(path[i..e], rest);
    ComponentsStep(path, i);
    if e < |path| {
      ComponentsAreNonEmptyPieces(path, e + 1);
      ComponentsSlash(path, e);
    }
  }

  lemma ComponentsStep(path: CString, i: nat)
    requires i <= |path|
    ensures var e := ElemEnd(path, i);
            Components(path, i) == (if path[i..e] == "" then [] else [CutName(path[i..e])]) + Components(path, e)
  {
    if i < |path| && path[i] != '/' { assert SkipSlashes(path, i) == i; }
  }

  lemma ComponentsSlash(path: CString, e: nat)
    requires e < |path| && path[e] == '/'
    ensures Components(path, e) == Components(path, e + 1)
  {
  }

  // ----- directories

  /** A directory entry: a free one has inode number 0; names shorter than 14 are padded with NULs. */
  datatype Dirent = Dirent(inum: nat, name: string)

  /** The name in a 14-character field: what comes before the first NUL. */
  function NameOf(field: string): (n: string)
    ensures n <= field && '\0' !in n && (|n| < |field| ==> field[|n|] == '\0')
  {
    if field == [] || field[0] == '\0' then [] else [field[0]] + NameOf(field[1..])
  }

  predicate Field(f: string) { |f| == DIRSIZ }

  /** strncpy: copy and pad. */
  function Pad(name: string): (f: string)
    requires |name| <= DIRSIZ
    ensures Field(f)
  {
    name + seq(DIRSIZ - |name|, _ => '\0')
  }

  lemma {:induction false} PadName(name: string, tail: string)
    requires '\0' !in name && (tail == [] || tail[0] == '\0')
    ensures NameOf(name + tail) == name
  {
    if name == [] {
      assert name + tail == tail;
    } else {
      assert (name + tail)[1..] == name[1..] + tail;
      PadName(name[1..], tail);
    }
  }

  /** strncpy of a 14-character field: the characters after the first NUL become NULs. */
  function PadField(field: string): (f: string)
    requires Field(field)
    ensures Field(f)
  {
    Pad(NameOf(field))
  }

  lemma PadFieldName(field: string)
    requires Field(field)
    ensures NameOf(PadField(field)) == NameOf(field)
  {
    PadName(NameOf(field), seq(DIRSIZ - |NameOf(field)|, _ => '\0'));
  }

  /** The first used entry with the name from k on, or the end. */
  function Find(es: seq<Dirent>, name: string, k: nat): (r: nat)
    requires k <= |es|
    ensures k <= r <= |es| && (r < |es| ==> Binds(es[r], name)) && forall i :: k <= i < r ==> !Binds(es[i], name)
    decreases |es| - k
  {
    if k == |es| || Binds(es[k], name) then k else Find(es, name, k + 1)
  }

  predicate Binds(e: Dirent, name: string) {
    e.inum != 0 && NameOf(e.name) == name
  }

  /** The directory as a map: the inode number bound to the name, or 0. */
  function Lookup(es: seq<Dirent>, name: string): nat {
    var r := Find(es, name, 0);
    if r < |es| then es[r].inum else 0
  }

  ghost predicate DirOk(es: seq<Dirent>) {
    NoDuplicates(es) && forall k :: 0 <= k < |es| ==> Field(es[k].name)
  }

  ghost predicate NoDuplicates(es: seq<Dirent>) {
    forall i, j :: 0 <= i < j < |es| && es[i].inum != 0 && es[j].inum != 0 ==> NameOf(es[i].name) != NameOf(es[j].name)
  }

  /** With no duplicates, a binding entry is the one that is found. */
  lemma LookupIs(es: seq<Dirent>, name: string, i: nat)
    requires NoDuplicates(es) && i < |es| && Binds(es[i], name)
    ensures Lookup(es, name) == es[i].inum
  {
    var r := Find(es, name, 0);
    assert r == i;
  }

  /** The first free entry, or the end. */
  function FirstFree(es: seq<Dirent>, k: nat): (r: nat)
    requires k <= |es|
    ensures k <= r <= |es| && (r < |es| ==> es[r].inum == 0) && forall i :: k <= i < r ==> es[i].inum != 0
    decreases |es| - k
  {
    if k == |es| || es[k].inum == 0 then k else FirstFree(es, k + 1)
  }

  function Linked(es: seq<Dirent>, e: Dirent): seq<Dirent> {
    var r := FirstFree(es, 0);
    if r < |es| then es[r := e] else es + [e]
  }

  /** dirlink adds exactly one binding, and no duplicate. */
  lemma LinkAddsOne(es: seq<Dirent>, e: Dirent, name: string)
    requires NoDuplicates(es) && e.inum != 0 && Lookup(es, NameOf(e.name)) == 0
    ensures NoDuplicates(Linked(es, e))
    ensures Lookup(Linked(es, e), name) == if name == NameOf(e.name) then e.inum else Lookup(es, name)
  {
    var n, r, es' := NameOf(e.name), FirstFree(es, 0), Linked(es, e);
    assert Find(es, n, 0) == |es|;
    hide NameOf, Find;
    LinkNoDuplicates(es, e);
    if name == n {
      LookupIs(es', name, r);
    } else {
      LinkOthers(es, e, name);
    }
  }

  lemma LinkNoDuplicates(es: seq<Dirent>, e: Dirent)
    requires NoDuplicates(es) && forall i :: 0 <= i < |es| ==> !Binds(es[i], NameOf(e.name))
    ensures NoDuplicates(Linked(es, e))
  {
    hide NameOf;
    var es' := Linked(es, e);
    forall i, j | 0 <= i < j < |es'| && es'[i].inum != 0 && es'[j].inum != 0
      ensures NameOf(es'[i].name) != NameOf(es'[j].name)
    {
      assert i < |es| && es'[i] == es[i] ==> !Binds(es[i], NameOf(e.name));
      assert j < |es| && es'[j] == es[j] ==> !Binds(es[j], NameOf(e.name));
    }
  }

  lemma LinkOthers(es: seq<Dirent>, e: Dirent, name: string)
    requires NoDuplicates(es) && NoDuplicates(Linked(es, e)) && name != NameOf(e.name)
    ensures Lookup(Linked(es, e), name) == Lookup(es, name)
  {
    var es', k := Linked(es, e), Find(es, name, 0);
    hide NameOf, Find;
    if k < |es| {
      assert es'[k] == es[k];
      LookupIs(es', name, k);
    }
  }

  // ----- the tree

  datatype Node = Node(isDir: bool, entries: seq<Dirent>)

  /** Following components from an inode: 0 if a component is missing or is looked up in something that is not a
      directory. */
  function Resolve(tree: map<nat, Node>, inum: nat, comps: seq<string>): nat
    decreases |comps|
  {
    if comps == [] then inum
    else if inum !in tree || !tree[inum].isDir then 0
    else
      var next := Lookup(tree[inum].entries, comps[0]);
      if next == 0 then 0 else Resolve(tree, next, comps[1..])
  }

  lemma {:induction false} ResolveAppend(tree: map<nat, Node>, inum: nat, a: seq<string>, b: seq<string>)
    ensures Resolve(tree, inum, a + b) ==
            (var m := Resolve(tree, inum, a); if m == 0 && a != [] then 0 else Resolve(tree, m, b))
    decreases |a|
  {
    if a == [] {
      assert a + b == b;
    } else {
      assert (a + b)[1..] == a[1..] + b;
      if inum in tree && tree[inum].isDir {
        var next := Lookup(tree[inum].entries, a[0]);
        if next != 0 { ResolveAppend(tree, next, a[1..], b); }
      }
    }
  }

  /** The inodes met on the way: each but the last is a directory with an entry for the next under its name. */
  ghost predicate Trail(tree: map<nat, Node>, nodes: seq<nat>, comps: seq<string>) {
    && |nodes| == |comps| + 1
    && forall k :: 0 <= k < |comps| ==>
         nodes[k] in tree && tree[nodes[k]].isDir && HasEntry(tree[nodes[k]].entries, comps[k], nodes[k + 1])
  }

  predicate HasEntry(es: seq<Dirent>, name: string, inum: nat) {
    inum != 0 && exists i :: 0 <= i < |es| && es[i].inum == inum && NameOf(es[i].name) == name
  }

  lemma LookupIsEntry(es: seq<Dirent>, name: string, inum: nat)
    requires NoDuplicates(es) && inum != 0
    ensures Lookup(es, name) == inum <==> HasEntry(es, name, inum)
  {
    hide NameOf;
    if HasEntry(es, name, inum) {
      var i :| 0 <= i < |es| && es[i].inum == inum && NameOf(es[i].name) == name;
      LookupIs(es, name, i);
    }
  }

  /** A path leads to an inode exactly if there is a trail of entries to it. */
  lemma {:induction false} ResolveIsTrail(tree: map<nat, Node>, from: nat, comps: seq<string>, to: nat)
    requires (forall i :: i in tree ==> NoDuplicates(tree[i].entries)) && to != 0
    ensures Resolve(tree, from, comps) == to <==>
            exists nodes :: Trail(tree, nodes, comps) && nodes[0] == from && nodes[|comps|] == to
    decreases |comps|
  {
    hide Lookup, HasEntry, NoDuplicates;
    if comps == [] {
      assert Trail(tree, [from], []);
    } else if from in tree && tree[from].isDir {
      var next := Lookup(tree[from].entries, comps[0]);
      if Resolve(tree, from, comps) == to {
        LookupIsEntry(tree[from].entries, comps[0], next);
        ResolveIsTrail(tree, next, comps[1..], to);
        var rest :| Trail(tree, rest, comps[1..]) && rest[0] == next && rest[|comps| - 1] == to;
        TrailCons(tree, from, rest, comps);
      }
      if nodes :| Trail(tree, nodes, comps) && nodes[0] == from && nodes[|comps|] == to {
        EntryNotZero(tree[from].entries, comps[0], nodes[1]);
        LookupIsEntry(tree[from].entries, comps[0], nodes[1]);
        TrailTail(tree, nodes, comps);
        ResolveIsTrail(tree, nodes[1], comps[1..], to);
      }
    }
  }

  lemma EntryNotZero(es: seq<Dirent>, name: string, inum: nat)
    requires HasEntry(es, name, inum)
    ensures inum != 0
  {
  }

  lemma TrailCons(tree: map<nat, Node>, from: nat, rest: seq<nat>, comps: seq<string>)
    requires comps != [] && Trail(tree, rest, comps[1..])
    requires from in tree && tree[from].isDir && HasEntry(tree[from].entries, comps[0], rest[0])
    ensures Trail(tree, [from] + rest, comps)
  {
    hide HasEntry;
    var nodes := [from] + rest;
    forall k | 0 <= k < |comps|
      ensures nodes[k] in tree && tree[nodes[k]].isDir && HasEntry(tree[nodes[k]].entries, comps[k], nodes[k + 1])
    {
      if k > 0 { assert nodes[k] == rest[k - 1] && nodes[k + 1] == rest[k] && comps[k] == comps[1..][k - 1]; }
    }
  }

  lemma TrailTail(tree: map<nat, Node>, nodes: seq<nat>, comps: seq<string>)
    requires comps != [] && Trail(tree, nodes, comps)
    ensures Trail(tree, nodes[1..], comps[1..])
  {
    hide HasEntry;
    forall k | 0 <= k < |comps| - 1
      ensures && nodes[1..][k] in tree && tree[nodes[1..][k]].isDir
              && HasEntry(tree[nodes[1..][k]].entries, comps[1..][k], nodes[1..][k + 1])
    {
      assert nodes[k + 1] in tree && HasEntry(tree[nodes[k + 1]].entries, comps[k + 1], nodes[k + 2]);
    }
  }

  /** What namex computes: the inode the path leads to, or the directory that should hold its last component;
      0 if there is none. */
  function Target(tree: map<nat, Node>, start: nat, comps: seq<string>, parent: bool): nat {
    if !parent then Resolve(tree, start, comps)
    else if comps == [] then 0
    else
      var d := Resolve(tree, start, comps[..|comps| - 1]);
      if d in tree && tree[d].isDir then d else 0
  }

  /** namex halts at component k, having come there while the inodes `used` are referenced: the inode it locks is not
      allocated, or the entry it found needs a place in a full inode cache. */
  ghost predicate HaltsAt(tree: map<nat, Node>, used: set<nat>, start: nat, comps: seq<string>, parent: bool, k: nat)
    requires k < |comps|
  {
    var cur := Resolve(tree, start, comps[..k]);
    && cur != 0
    && (cur !in tree || (tree[cur].isDir && !(parent && k == |comps| - 1)
                         && NoPlace(used + {cur}, Lookup(tree[cur].entries, comps[k]))))
  }

  /** The inode (0: none) is not referenced, and as many are as the cache has entries. */
  predicate NoPlace(used: set<nat>, inum: nat) {
    inum != 0 && inum !in used && |used| >= 50
  }

  ghost predicate WalkHalts(tree: map<nat, Node>, used: set<nat>, start: nat, comps: seq<string>, parent: bool) {
    exists k :: 0 <= k < |comps| && HaltsAt(tree, used, start, comps, parent, k)
  }

  /** The component after `done` is where the walk has come to. */
  lemma HaltsHere(tree: map<nat, Node>, used: set<nat>, start: nat, done: seq<string>, n: string, rest: seq<string>,
                  parent: bool)
    ensures var comps, cur := done + ([n] + rest), Resolve(tree, start, done);
            HaltsAt(tree, used, start, comps, parent, |done|) <==>
              && cur != 0
              && (cur !in tree || (tree[cur].isDir && !(parent && rest == [])
                                   && NoPlace(used + {cur}, Lookup(tree[cur].entries, n))))
  {
    assert (done + ([n] + rest))[..|done|] == done;
  }

  /** Where the walk ends early it does not halt later. */
  lemma GoneNoHalt(tree: map<nat, Node>, used: set<nat>, start: nat, done: seq<string>, n: string, rest: seq<string>,
                   parent: bool, k: nat)
    requires var cur := Resolve(tree, start, done);
             cur != 0 && cur in tree && (!tree[cur].isDir || Lookup(tree[cur].entries, n) == 0)
    requires |done| < k < |done + ([n] + rest)|
    ensures !HaltsAt(tree, used, start, done + ([n] + rest), parent, k)
  {
    hide Lookup, Resolve;
    var comps := done + ([n] + rest);
    var m := k - |done| - 1;
    assert comps[..k] == done + ([n] + rest[..m]);
    ResolveStep(tree, start, done, n, rest[..m]);
  }

  lemma ResolveStep(tree: map<nat, Node>, start: nat, done: seq<string>, n: string, rest: seq<string>)
    requires Resolve(tree, start, done) != 0
    ensures var cur := Resolve(tree, start, done);
            Resolve(tree, start, done + ([n] + rest)) ==
            if cur !in tree || !tree[cur].isDir || Lookup(tree[cur].entries, n) == 0 then 0
            else Resolve(tree, Lookup(tree[cur].entries, n), rest)
  {
    ResolveAppend(tree, start, done, [n] + rest);
    assert ([n] + rest)[1..] == rest;
    hide Lookup;
  }

  /** The walk cannot go on at `cur`: there is no target. */
  lemma TargetGone(tree: map<nat, Node>, start: nat, done: seq<string>, n: string, rest: seq<string>, parent: bool)
    requires var cur := Resolve(tree, start, done);
             && cur != 0 && cur in tree
             && (!tree[cur].isDir || (!(parent && rest == []) && Lookup(tree[cur].entries, n) == 0))
    ensures Target(tree, start, done + ([n] + rest), parent) == 0
  {
    hide Lookup, Resolve;
    var comps := done + ([n] + rest);
    ResolveStep(tree, start, done, n, rest);
    if parent {
      if rest == [] {
        assert comps[..|comps| - 1] == done;
      } else {
        var init := rest[..|rest| - 1];
        assert comps[..|comps| - 1] == done + ([n] + init);
        ResolveStep(tree, start, done, n, init);
      }
    }
  }

  lemma TargetStop(tree: map<nat, Node>, start: nat, done: seq<string>, n: string)
    requires var cur := Resolve(tree, start, done); cur in tree && tree[cur].isDir
    ensures Target(tree, start, done + ([n] + []), true) == Resolve(tree, start, done)
  {
    var comps := done + ([n] + []);
    assert comps[..|comps| - 1] == done;
  }

  // ----- the inode cache

  datatype Cached = Cached(ref: nat, inum: nat, busy: bool)

  /** References to an inode among the first n entries. */
  function Refs(cache: seq<Cached>, inum: nat, n: nat): nat
    requires n <= |cache|
  {
    if n == 0 then 0 else Refs(cache, inum, n - 1) + if cache[n - 1].inum == inum then cache[n - 1].ref else 0
  }

  lemma {:induction false} RefsSet(cache: seq<Cached>, k: nat, c: Cached, inum: nat, n: nat)
    requires k < |cache| && n <= |cache|
    ensures Refs(cache[k := c], inum, n) ==
            if k < n then
              Refs(cache, inum, n) - (if cache[k].inum == inum then cache[k].ref else 0)
              + (if c.inum == inum then c.ref else 0)
            else Refs(cache, inum, n)
  {
    if n > 0 { RefsSet(cache, k, c, inum, n - 1); }
  }

  /** An inode in use has one entry. */
  ghost predicate OneEntry(cache: seq<Cached>) {
    && |cache| == NINODE
    && (forall i :: 0 <= i < NINODE && cache[i].ref > 0 ==> cache[i].inum != 0)
    && (forall i, j :: 0 <= i < j < NINODE && cache[i].ref > 0 && cache[j].ref > 0 ==> cache[i].inum != cache[j].inum)
  }

  /** iget has an entry for the inode or a free one. */
  predicate CanGet(cache: seq<Cached>, inum: nat) {
    exists i :: 0 <= i < |cache| && (cache[i].ref == 0 || cache[i].inum == inum)
  }

  /** The inodes with a reference. */
  ghost function InUse(cache: seq<Cached>): set<nat> {
    set i | 0 <= i < |cache| && cache[i].ref > 0 :: cache[i].inum
  }

  ghost predicate AllInUse(cache: seq<Cached>) {
    forall i :: 0 <= i < |cache| ==> cache[i].ref > 0
  }

  ghost predicate Unlocked(cache: seq<Cached>) {
    forall i :: 0 <= i < |cache| ==> !cache[i].busy
  }

  /** The reference count of inode i has changed by d, all others are the same. */
  ghost predicate RefsBy(before: seq<Cached>, after: seq<Cached>, inum: nat, d: int) {
    && |before| == |after| == NINODE
    && forall i: nat :: Refs(after, i, NINODE) == Refs(before, i, NINODE) + if i == inum then d else 0
  }

  lemma RefsChange(cache: seq<Cached>, k: nat, c: Cached)
    requires |cache| == NINODE && k < NINODE && (c.inum == cache[k].inum || cache[k].ref == 0)
    ensures RefsBy(cache, cache[k := c], c.inum, c.ref - cache[k].ref)
  {
    hide Refs;
    forall i: nat
      ensures Refs(cache[k := c], i, NINODE) == Refs(cache, i, NINODE) + if i == c.inum then c.ref - cache[k].ref else 0
    {
      RefsSet(cache, k, c, i, NINODE);
    }
  }

  lemma RefsByUndo(a: seq<Cached>, b: seq<Cached>, c: seq<Cached>, inum: nat)
    requires RefsBy(a, b, inum, 1) && RefsBy(b, c, inum, -1)
    ensures RefsBy(a, c, 0, 0)
  {
    hide Refs;
    forall i: nat ensures Refs(c, i, NINODE) == Refs(a, i, NINODE) {
      assert Refs(b, i, NINODE) == Refs(a, i, NINODE) + if i == inum then 1 else 0;
      assert Refs(c, i, NINODE) == Refs(b, i, NINODE) + if i == inum then -1 else 0;
    }
  }

  // ----- how full the cache is

  lemma {:induction false} RefsPositive(cache: seq<Cached>, inum: nat, n: nat)
    requires n <= |cache|
    ensures Refs(cache, inum, n) > 0 <==> exists i :: 0 <= i < n && cache[i].ref > 0 && cache[i].inum == inum
  {
    if n > 0 { RefsPositive(cache, inum, n - 1); }
  }

  lemma InUseIs(cache: seq<Cached>, inum: nat)
    requires |cache| == NINODE
    ensures inum in InUse(cache) <==> Refs(cache, inum, NINODE) > 0
  {
    hide Refs;
    RefsPositive(cache, inum, NINODE);
  }

  /** Inodes in use among the first n entries, one for each entry in use. */
  lemma {:induction false} InUseCount(cache: seq<Cached>, n: nat)
    requires OneEntry(cache) && n <= NINODE
    ensures |InUse(cache[..n])| <= n
    ensures |InUse(cache[..n])| == n <==> forall i :: 0 <= i < n ==> cache[i].ref > 0
  {
    hide InUse;
    if n > 0 {
      InUseCount(cache, n - 1);
      var c := cache[n - 1];
      assert cache[..n] == cache[..n - 1] + [c];
      InUseNext(cache[..n - 1], c);
      if c.ref > 0 { NewInUse(cache, n - 1); }
    } else {
      assert InUse(cache[..0]) == {} by { NoneInUse(cache[..0]); }
    }
  }

  lemma NoneInUse(cache: seq<Cached>)
    requires cache == []
    ensures InUse(cache) == {}
  {
  }

  lemma NewInUse(cache: seq<Cached>, n: nat)
    requires OneEntry(cache) && n < NINODE && cache[n].ref > 0
    ensures cache[n].inum !in InUse(cache[..n])
  {
  }

  lemma InUseNext(cache: seq<Cached>, c: Cached)
    ensures InUse(cache + [c]) == InUse(cache) + if c.ref > 0 then {c.inum} else {}
  {
    var more := cache + [c];
    forall x | x in InUse(cache) + (if c.ref > 0 then {c.inum} else {}) ensures x in InUse(more) {
      if x in InUse(cache) {
        var i :| 0 <= i < |cache| && cache[i].ref > 0 && cache[i].inum == x;
        assert more[i] == cache[i];
      } else {
        assert more[|cache|] == c;
      }
    }
  }

  /** iget finds no entry exactly if the inode is not referenced and NINODE others are. */
  lemma CanGetIff(cache: seq<Cached>, inum: nat)
    requires OneEntry(cache) && inum != 0
    ensures CanGet(cache, inum) <==> !NoPlace(InUse(cache), inum)
  {
    assert cache[..NINODE] == cache;
    InUseCount(cache, NINODE);
    if inum in InUse(cache) {
      var i :| 0 <= i < |cache| && cache[i].ref > 0 && cache[i].inum == inum;
    }
    if CanGet(cache, inum) {
      var i :| 0 <= i < |cache| && (cache[i].ref == 0 || cache[i].inum == inum);
      if cache[i].ref > 0 { assert inum in InUse(cache); }
    }
  }
}
