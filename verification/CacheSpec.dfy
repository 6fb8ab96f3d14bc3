/** The buffer cache as a transition system: what each step of bio.c does to the buffers, the
    recency order and the disk, and what every run of such steps keeps. */
module CacheSpec {
  import opened Lists
  import opened Words
  import opened LogSpec

  const NBUF := 10
  const NODEV := -1
  const ROOTDEV := 1

  /** struct buf without its list links: identity, flags and data. */
  datatype Buf = Buf(dev: int, sector: nat, busy: bool, valid: bool, dirty: bool, data: Block) {
    predicate Holds(dev: int, sector: nat) {
      this.dev == dev && this.sector == sector
    }

    /** May be recycled by bget. */
    predicate Idle() {
      !busy && !dirty
    }
  }

  /** `order` lists the buffers from most to least recently released. */
  datatype Cache = Cache(bufs: seq<Buf>, order: seq<nat>, disk: Disk)

  ghost predicate Permutation(order: seq<nat>) {
    && |order| == NBUF
    && (forall k :: 0 <= k < NBUF ==> order[k] < NBUF)
    && Distinct(order)
    && (forall b: nat :: b < NBUF ==> b in order)
  }

  /** No sector is cached twice. */
  ghost predicate Unique(bufs: seq<Buf>) {
    forall i, j :: 0 <= i < j < |bufs| && bufs[i].dev != NODEV ==> !bufs[j].Holds(bufs[i].dev, bufs[i].sector)
  }

  ghost predicate BufOk(b: Buf, d: Disk) {
    && (b.dev == NODEV || b.busy || b.valid)
    && (b.dev == NODEV ==> !b.busy && !b.valid && !b.dirty)
    && (b.dirty ==> b.valid)
    && (b.valid ==> b.dev == ROOTDEV && b.sector < |d|)
    && (b.valid && b.Idle() ==> b.data == d[b.sector])
  }

  /** A free or clean buffer agrees with the disk; only busy or dirty ones may differ. */
  ghost predicate Inv(c: Cache) {
    && |c.bufs| == NBUF
    && Permutation(c.order)
    && Unique(c.bufs)
    && forall i :: 0 <= i < NBUF ==> BufOk(c.bufs[i], c.disk)
  }

  /** The buffer caching a sector among the first n, or -1. */
  function Find(bufs: seq<Buf>, n: nat, dev: int, s: nat): (r: int)
    requires n <= |bufs|
    ensures -1 <= r < n
    ensures r >= 0 ==> bufs[r].Holds(dev, s)
    ensures r == -1 ==> forall i :: 0 <= i < n ==> !bufs[i].Holds(dev, s)
  {
    if n == 0 then -1 else if bufs[n - 1].Holds(dev, s) then n - 1 else Find(bufs, n - 1, dev, s)
  }

  /** Logical content of a sector: the valid cached copy if there is one, else the disk. */
  function Content(c: Cache, s: nat): Block
    requires s < |c.disk|
  {
    var i := Find(c.bufs, |c.bufs|, ROOTDEV, s);
    if i >= 0 && c.bufs[i].valid then c.bufs[i].data else c.disk[s]
  }

  lemma FindUnique(bufs: seq<Buf>, i: nat)
    requires Unique(bufs) && i < |bufs| && bufs[i].dev != NODEV
    ensures Find(bufs, |bufs|, bufs[i].dev, bufs[i].sector) == i
  {
    var r := Find(bufs, |bufs|, bufs[i].dev, bufs[i].sector);
    assert bufs[i].Holds(bufs[r].dev, bufs[r].sector);
  }

  /** Position in `order` of the least recently released idle buffer among the first n, or -1. */
  function Victim(bufs: seq<Buf>, order: seq<nat>, n: nat): (r: int)
    requires n <= |order| && forall k :: 0 <= k < |order| ==> order[k] < |bufs|
    ensures -1 <= r < n
    ensures r >= 0 ==> bufs[order[r]].Idle()
    ensures forall k :: r < k < n ==> !bufs[order[k]].Idle()
  {
    if n == 0 then -1 else if bufs[order[n - 1]].Idle() then n - 1 else Victim(bufs, order, n - 1)
  }

  datatype Got = Hit(b: nat) | MustSleep(b: nat) | Recycled(b: nat) | NoBuffers

  /** bget, one pass: find the sector, or wait for its holder, or recycle, or panic. */
  function Lookup(c: Cache, dev: int, s: nat): (r: Got)
    requires |c.bufs| == NBUF && forall k :: 0 <= k < |c.order| ==> c.order[k] < NBUF
  {
    var i := Find(c.bufs, NBUF, dev, s);
    if i >= 0 then (if c.bufs[i].busy then MustSleep(i) else Hit(i))
    else
      var v := Victim(c.bufs, c.order, |c.order|);
      if v >= 0 then Recycled(c.order[v]) else NoBuffers
  }

  function Get(c: Cache, dev: int, s: nat): (r: Cache)
    requires |c.bufs| == NBUF && forall k :: 0 <= k < |c.order| ==> c.order[k] < NBUF
  {
    match Lookup(c, dev, s)
    case Hit(b) => c.(bufs := c.bufs[b := c.bufs[b].(busy := true)])
    case Recycled(b) =>
      c.(bufs := c.bufs[b := c.bufs[b].(dev := dev, sector := s, busy := true, valid := false, dirty := false)])
    case _ => c
  }

  /** iderw on a buffer that is neither dirty nor valid: read the sector. */
  function Fill(c: Cache, b: nat): (r: Cache)
    requires b < |c.bufs| && c.bufs[b].sector < |c.disk|
  {
    c.(bufs := c.bufs[b := c.bufs[b].(data := c.disk[c.bufs[b].sector], valid := true)])
  }

  /** bread once bget has succeeded. */
  function Read(c: Cache, s: nat): (r: Cache)
    requires Inv(c) && s < |c.disk|
  {
    var c1 := Get(c, ROOTDEV, s);
    match Lookup(c, ROOTDEV, s)
    case Recycled(b) => Fill(c1, b)
    case _ => c1
  }

  /** The holder stores new data; `log` also marks the buffer dirty (log_write). */
  function Modify(c: Cache, b: nat, data: Block, log: bool): (r: Cache)
    requires b < |c.bufs|
  {
    c.(bufs := c.bufs[b := c.bufs[b].(data := data, dirty := c.bufs[b].dirty || log)])
  }

  /** bwrite: mark dirty, then iderw writes the sector and clears the mark. */
  function Flush(c: Cache, b: nat): (r: Cache)
    requires b < |c.bufs| && c.bufs[b].sector < |c.disk|
  {
    c.(bufs := c.bufs[b := c.bufs[b].(dirty := false, valid := true)],
       disk := c.disk[c.bufs[b].sector := c.bufs[b].data])
  }

  /** Where b stands in the recency order. */
  function Position(order: seq<nat>, b: nat): (k: nat)
    ensures k <= |order|
    ensures k < |order| ==> order[k] == b
    ensures k == |order| ==> b !in order
  {
    if order == [] then 0 else if order[0] == b then 0 else 1 + Position(order[1..], b)
  }

  /** The entry at position k moves to the front; the entries before it shift by one. */
  function ToFront(order: seq<nat>, k: nat): (r: seq<nat>)
    requires k < |order|
  {
    seq(|order|, j requires 0 <= j < |order| =>
      if j == 0 then order[k] else if j <= k then order[j - 1] else order[j])
  }

  /** brelse. */
  function Release(c: Cache, b: nat): (r: Cache)
    requires b < |c.bufs| && b in c.order
  {
    Cache(c.bufs[b := c.bufs[b].(busy := false)], ToFront(c.order, Position(c.order, b)), c.disk)
  }

  lemma ToFrontPermutes(order: seq<nat>, k: nat)
    requires Permutation(order) && k < NBUF
    ensures Permutation(ToFront(order, k))
  {
    var r := ToFront(order, k);
    forall b: nat | b < NBUF ensures b in r {
      assert b in order;
      var j :| 0 <= j < NBUF && order[j] == b;
      assert r[if j == k then 0 else if j < k then j + 1 else j] == b;
    }
  }
}
