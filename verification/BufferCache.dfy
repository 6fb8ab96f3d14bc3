/** bio.c over the synchronous disk of memide.c: buffers on a doubly linked ring. */
module BufferCache {
  import opened Lists
  import opened Words
  import opened LogSpec
  import opened CacheSpec
  import opened CacheRuns
  import opened Panics

  /** Index of the list head among the links. */
  const HEAD := NBUF

  function At(order: seq<nat>, i: int): nat {
    if 0 <= i < |order| then order[i] else HEAD
  }

  /** The links form one ring: HEAD, then the buffers of `order`, and back. */
  ghost predicate Ring(next: seq<nat>, prev: seq<nat>, order: seq<nat>) {
    && |next| == |prev| == NBUF + 1
    && (forall k :: 0 <= k < |order| ==> order[k] < NBUF)
    && Distinct(order)
    && (forall i :: -1 <= i < |order| ==> next[At(order, i)] == At(order, i + 1))
    && (forall i :: 0 <= i <= |order| ==> prev[At(order, i)] == At(order, i - 1))
  }

  function Drop(order: seq<nat>, k: nat): (r: seq<nat>)
    requires k < |order|
  {
    seq(|order| - 1, j requires 0 <= j < |order| - 1 => if j < k then order[j] else order[j + 1])
  }

  /** Taking entry k out of the ring by joining its neighbours. */
  lemma UnlinkRing(next: seq<nat>, prev: seq<nat>, order: seq<nat>, k: nat)
    requires Ring(next, prev, order) && k < |order|
    ensures var b := order[k];
            && next[b] <= NBUF && prev[b] <= NBUF
            && Ring(next[prev[b] := next[b]], prev[next[b] := prev[b]], Drop(order, k))
  {
    var b := order[k];
    assert At(order, k) == b;
    assert next[b] == At(order, k + 1) && prev[b] == At(order, k - 1);
    var o, n, p := Drop(order, k), next[prev[b] := next[b]], prev[next[b] := prev[b]];
    forall i | -1 <= i < |o| ensures n[At(o, i)] == At(o, i + 1) {
      UnlinkAt(next, prev, order, k, i);
    }
    forall i | 0 <= i <= |o| ensures p[At(o, i)] == At(o, i - 1) {
      UnlinkAt(next, prev, order, k, i);
      UnlinkAt(next, prev, order, k, i - 1);
    }
  }

  /** Where ring position i stood before entry k was taken out. */
  lemma UnlinkAt(next: seq<nat>, prev: seq<nat>, order: seq<nat>, k: nat, i: int)
    requires Ring(next, prev, order) && k < |order| && -1 <= i < |order|
    ensures var o, j := Drop(order, k), if i < k then i else i + 1;
            && At(o, i) == At(order, j)
            && At(o, i + 1) == At(order, if i + 1 < k then i + 1 else i + 2)
            && (At(o, i) == At(order, k - 1) <==> j == k - 1 || (j == |order| && k == 0))
            && (At(o, i) == At(order, k + 1) <==> j == k + 1 || (j == -1 && k == |order| - 1))
  {
  }

  /** Inserting a buffer right after the head. */
  lemma PushRing(next: seq<nat>, prev: seq<nat>, order: seq<nat>, b: nat)
    requires Ring(next, prev, order) && b < NBUF && b !in order
    ensures next[HEAD] <= NBUF
    ensures Ring(next[b := next[HEAD]][HEAD := b], prev[b := HEAD][next[HEAD] := b], [b] + order)
  {
    var f := next[HEAD];
    assert At(order, -1) == HEAD && f == At(order, 0);
    var o, n, p := [b] + order, next[b := f][HEAD := b], prev[b := HEAD][f := b];
    forall i | -1 <= i < |o| ensures n[At(o, i)] == At(o, i + 1) {
      if i >= 1 { assert At(o, i) == At(order, i - 1) && At(o, i + 1) == At(order, i); }
    }
    forall i | 0 <= i <= |o| ensures p[At(o, i)] == At(o, i - 1) {
      if i >= 1 { assert At(o, i) == At(order, i - 1); }
      if i >= 2 { assert At(o, i - 1) == At(order, i - 2); }
    }
  }

  datatype ReadOutcome = Held(b: nat) | Wait(b: nat) | ReadPanic(why: Reason)

  class BufferCache {
    var bufs: seq<Buf>
    var next: seq<nat>
    var prev: seq<nat>
    var disk: Disk
    ghost var order: seq<nat>
    ghost var trace: seq<Write>

    ghost function Value(): Cache
      reads this
    {
      Cache(bufs, order, disk)
    }

    ghost predicate Valid()
      reads this
    {
      |bufs| == NBUF && Inv(Value()) && Ring(next, prev, order) && Settled(Value())
    }

    /** Logical content of the disk, as the holders of buffers see it. */
    ghost function Seen(): (r: Disk)
      reads this
      ensures |r| == |disk|
    {
      View(Value())
    }

    ghost function Held(): set<nat>
      reads this
    {
      HeldSectors(Value())
    }

    ghost function Marked(): set<nat>
      reads this
    {
      DirtySectors(Value())
    }

    /** Every buffer is held or marked. */
    ghost predicate Full()
      reads this
    {
      |Held() + Marked()| >= NBUF
    }

    /** binit: every buffer on the ring, none of them caching anything. */
    constructor (disk: Disk)
      ensures Valid() && this.disk == disk && trace == [] && |bufs| == 10
      ensures forall i :: 0 <= i < NBUF ==> bufs[i].dev == NODEV
      ensures Held() == {} && Marked() == {} && Seen() == disk
    {
      var blank := Buf(NODEV, 0, false, false, false, seq(512, _ => 0));
      var n: seq<nat> := seq(NBUF + 1, _ => HEAD);
      var p: seq<nat> := n;
      ghost var o: seq<nat> := [];
      var b: nat := 0;
      while b < NBUF
        invariant 0 <= b <= NBUF && |o| == b
        invariant Ring(n, p, o)
        invariant forall x: nat :: x in o <==> x < b
      {
        PushRing(n, p, o, b);
        var f := n[HEAD];
        n := n[b := f];
        p := p[b := HEAD];
        p := p[f := b];
        n := n[HEAD := b];
        o := [b] + o;
        b := b + 1;
      }
      this.bufs := seq(NBUF, _ => blank);
      this.next, this.prev, this.disk := n, p, disk;
      this.order, this.trace := o, [];
    }

    /** bget's first loop: walk the ring forward for the sector; HEAD if it is not cached. */
    method FindCached(dev: int, s: nat) returns (b: nat)
      requires Valid() && dev != NODEV
      ensures b == HEAD || b < NBUF
      ensures Find(bufs, NBUF, dev, s) == if b == HEAD then -1 else b
    {
      assert At(order, -1) == HEAD;
      b := next[HEAD];
      ghost var k := 0;
      while b != HEAD
        invariant 0 <= k <= NBUF && b == At(order, k)
        invariant forall j :: 0 <= j < k ==> !bufs[order[j]].Holds(dev, s)
        decreases NBUF - k
      {
        if bufs[b].Holds(dev, s) {
          FindUnique(bufs, b);
          return;
        }
        b, k := next[b], k + 1;
      }
      NotCached(Value(), dev, s, k);
    }

    /** bget's second loop: walk the ring backward for an idle buffer; HEAD if there is none. */
    method FindVictim() returns (b: nat)
      requires Valid()
      ensures b == HEAD || b < NBUF
      ensures var v := Victim(bufs, order, NBUF);
              if b == HEAD then v == -1 else v >= 0 && order[v] == b
    {
      assert At(order, NBUF) == HEAD;
      b := prev[HEAD];
      ghost var k := NBUF - 1;
      while b != HEAD
        invariant -1 <= k < NBUF && b == At(order, k)
        invariant forall j :: k < j < NBUF ==> !bufs[order[j]].Idle()
        decreases k
      {
        if bufs[b].Idle() {
          return;
        }
        b, k := prev[b], k - 1;
      }
    }

    /** bget, one pass from the label `loop`; MustSleep is the pass that sleeps and starts over. */
    method Bget(dev: int, s: nat) returns (got: Got)
      requires Valid() && dev != NODEV
      modifies this
      ensures Inv(Value()) && Ring(next, prev, order)
      ensures got == Lookup(old(Value()), dev, s)
      ensures Value() == Get(old(Value()), dev, s)
      ensures trace == old(trace)
    {
      hide Ring;
      GetKeeps(Value(), dev, s);
      var b := FindCached(dev, s);
      if b != HEAD {
        if !bufs[b].busy {
          bufs := bufs[b := bufs[b].(busy := true)];
          return Hit(b);
        }
        return MustSleep(b);
      }
      b := FindVictim();
      if b != HEAD {
        bufs := bufs[b := bufs[b].(dev := dev, sector := s, busy := true, valid := false, dirty := false)];
        return Recycled(b);
      }
      return NoBuffers;
    }

    /** memide.c: sync a busy buffer with the disk. */
    method Iderw(b: nat) returns (r: Outcome)
      requires b < |bufs|
      modifies this`bufs, this`disk, this`trace
      ensures r.Done? <==> old(bufs[b].busy && (bufs[b].dirty || !bufs[b].valid)
                               && bufs[b].dev == ROOTDEV && bufs[b].sector < |disk|)
      ensures r.Panic? ==> bufs == old(bufs) && disk == old(disk) && trace == old(trace)
      ensures r.Done? && old(bufs[b].dirty) ==>
                && Value() == Flush(old(Value()), b)
                && trace == old(trace) + [Write(old(bufs[b].sector), old(bufs[b].data))]
      ensures r.Done? && !old(bufs[b].dirty) ==> Value() == Fill(old(Value()), b) && trace == old(trace)
    {
      if !bufs[b].busy { return Panic(BufferNotBusy); }
      if bufs[b].valid && !bufs[b].dirty { return Panic(NothingToDo); }
      if bufs[b].dev != ROOTDEV { return Panic(WrongDevice); }
      if bufs[b].sector >= |disk| { return Panic(SectorOutOfRange); }
      var s := bufs[b].sector;
      if bufs[b].dirty {
        bufs := bufs[b := bufs[b].(dirty := false)];
        disk := disk[s := bufs[b].data];
        trace := trace + [Write(s, bufs[b].data)];
      } else {
        bufs := bufs[b := bufs[b].(data := disk[s])];
      }
      bufs := bufs[b := bufs[b].(valid := true)];
      return Done;
    }

    /** bread: Held is the busy buffer with the sector's logical content. */
    method Bread(dev: int, s: nat) returns (r: ReadOutcome)
      requires Valid() && dev != NODEV
      modifies this
      ensures trace == old(trace) && disk == old(disk)
      ensures !r.ReadPanic? ==> Valid()
      ensures r.Held? ==>
                && dev == ROOTDEV && s < |disk| && Value() == Read(old(Value()), s) && r.b < NBUF
                && bufs[r.b].busy && bufs[r.b].valid && bufs[r.b].Holds(dev, s) && !old(bufs[r.b].busy)
                && bufs[r.b].data == old(Seen())[s]
                && forall i :: 0 <= i < NBUF && i != r.b ==> bufs[i] == old(bufs[i])
      ensures r.Held? ==> Seen() == old(Seen()) && Held() == old(Held()) + {s} && Marked() == old(Marked())
      ensures dev == ROOTDEV && s < |disk| && s !in old(Held()) ==> !r.Wait?
      ensures r.Wait? <==> Lookup(old(Value()), dev, s).MustSleep?
      ensures r.Wait? ==> Value() == old(Value())
      ensures r.ReadPanic? <==>
                var got := Lookup(old(Value()), dev, s);
                got.NoBuffers? || (got.Recycled? && (dev != ROOTDEV || s >= |disk|))
      ensures dev == ROOTDEV && s < |disk| ==>
                && (r.ReadPanic? <==> old(s !in Held() + Marked() && Full()))
                && (r.ReadPanic? ==> r.why == OutOfBuffers)
    {
      hide View, HeldSectors, DirtySectors, Ring, Unique, Content;
      ghost var c := Value();
      if dev == ROOTDEV && s < |disk| { NoBuffersIffFull(c, s); ViewAt(c, s); }
      if dev == ROOTDEV && s < |disk| && s !in Held() { WaitMeansBusy(c, s); }
      var got := Bget(dev, s);
      match got
      case MustSleep(b) => return Wait(b);
      case NoBuffers => return ReadPanic(OutOfBuffers);
      case Hit(b) =>
        assert c.bufs[b].valid;
        ReadKeeps(c, s);
        ReadAbove(c, s, b);
        return ReadOutcome.Held(b);
      case Recycled(b) =>
        var o := Iderw(b);
        if o.Panic? { return ReadPanic(o.why); }
        ReadKeeps(c, s);
        ReadAbove(c, s, b);
        return ReadOutcome.Held(b);
    }

    /** Store new data in a held buffer; log_write also marks it dirty to keep it in the cache. */
    method Store(b: nat, data: Block, log: bool)
      requires Valid() && b < NBUF && bufs[b].busy && bufs[b].valid
      modifies this`bufs
      ensures Valid() && Value() == Modify(old(Value()), b, data, log)
      ensures Seen() == old(Seen())[bufs[b].sector := data] && Held() == old(Held())
      ensures Marked() == if log then old(Marked()) + {bufs[b].sector} else old(Marked())
    {
      ghost var c := Value();
      ModifyAbove(c, b, data, log);
      bufs := bufs[b := bufs[b].(data := data, dirty := bufs[b].dirty || log)];
    }

    method Bwrite(b: nat) returns (r: Outcome)
      requires Valid() && b < NBUF && (bufs[b].busy ==> bufs[b].valid)
      modifies this`bufs, this`disk, this`trace
      ensures Valid()
      ensures r.Done? <==> old(bufs[b].busy)
      ensures r.Done? ==> Value() == Flush(old(Value()), b)
                          && trace == old(trace) + [Write(old(bufs[b].sector), old(bufs[b].data))]
      ensures r.Done? ==> Seen() == old(Seen()) && Held() == old(Held()) && Marked() == old(Marked()) - {bufs[b].sector}
      ensures r.Panic? ==> Value() == old(Value()) && trace == old(trace)
    {
      if !bufs[b].busy { return Panic(BwriteUnlocked); }
      FlushAbove(Value(), b);
      bufs := bufs[b := bufs[b].(dirty := true)];
      r := Iderw(b);
    }

    /** Move a buffer to the front of the ring. */
    method Relink(b: nat)
      requires Ring(next, prev, order) && b in order
      modifies this`next, this`prev, this`order
      ensures Ring(next, prev, order) && order == ToFront(old(order), Position(old(order), b))
    {
      ghost var k := Position(order, b);
      UnlinkRing(next, prev, order, k);
      prev := prev[next[b] := prev[b]];
      next := next[prev[b] := next[b]];
      PushRing(next, prev, Drop(order, k), b);
      next := next[b := next[HEAD]];
      prev := prev[b := HEAD];
      prev := prev[next[HEAD] := b];
      next := next[HEAD := b];
      assert [b] + Drop(order, k) == ToFront(order, k);
      order := ToFront(order, k);
    }

    /** brelse, by a holder whose buffer matches the disk or is marked dirty. */
    method Brelse(b: nat) returns (r: Outcome)
      requires Valid() && b < NBUF
      requires bufs[b].busy ==> bufs[b].valid && (bufs[b].dirty || bufs[b].data == disk[bufs[b].sector])
      modifies this`bufs, this`next, this`prev, this`order
      ensures Valid()
      ensures r.Done? <==> old(bufs[b].busy)
      ensures r.Done? ==> b in old(order) && Value() == Release(old(Value()), b)
      ensures r.Done? ==> Seen() == old(Seen()) && Held() == old(Held()) - {bufs[b].sector} && Marked() == old(Marked())
      ensures r.Panic? ==> Value() == old(Value())
    {
      if !bufs[b].busy { return Panic(BrelseUnlocked); }
      ReleaseAbove(Value(), b);
      Relink(b);
      bufs := bufs[b := bufs[b].(busy := false)];
      return Done;
    }
  }

  lemma NotCached(c: Cache, dev: int, s: nat, k: nat)
    requires Inv(c) && k == NBUF && forall j :: 0 <= j < k ==> !c.bufs[c.order[j]].Holds(dev, s)
    ensures Find(c.bufs, NBUF, dev, s) == -1
  {
    var i := Find(c.bufs, NBUF, dev, s);
    if i >= 0 {
      assert i in c.order;
    }
  }
}
