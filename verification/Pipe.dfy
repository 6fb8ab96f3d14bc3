/** pipe.c: the ring buffer and its 32-bit counters; one method per stretch under the lock. */
module Pipe {
  import opened Words

  const PIPESIZE := 512
  const UINT := 0x1_0000_0000

  datatype WriteStep = Wrote | WriterSleeps(done: nat) | NoReader
  datatype ReadStep = Got(bytes: seq<byte>) | ReaderSleeps | ReaderKilled

  /** The counters wrap, but 512 divides 2^32, so the ring index does not notice. */
  lemma WrapIndex(k: nat)
    ensures k % 0x1_0000_0000 % 512 == k % 512
  {
    var q, m := k / 0x1_0000_0000, k % 0x1_0000_0000;
    assert k == 512 * (q * 0x80_0000) + m;
  }

  lemma WrapNext(k: nat)
    ensures (k % 0x1_0000_0000 + 1) % 0x1_0000_0000 == (k + 1) % 0x1_0000_0000
  {
  }

  /** Within a window of at most 512 the wrapped counters tell equality and fullness exactly. */
  lemma WrapCompare(r: nat, w: nat)
    requires r <= w <= r + 512
    ensures r % UINT == w % UINT <==> r == w
    ensures w % UINT == (r % UINT + 512) % UINT <==> w == r + 512
  {
    WrapAhead(r, w - r);
    WrapAhead(r, 512);
  }

  lemma WrapAhead(r: nat, k: nat)
    requires k <= 512
    ensures var m := r % 0x1_0000_0000;
            && (r + k) % 0x1_0000_0000 == (m + k) % 0x1_0000_0000
            && (m + k) % 0x1_0000_0000 == if m + k < 0x1_0000_0000 then m + k else m + k - 0x1_0000_0000
  {
    var q, m := r / 0x1_0000_0000, r % 0x1_0000_0000;
    assert r + k == 0x1_0000_0000 * q + (m + k);
  }

  class Pipe {
    var data: array<byte>
    var nread: int
    var nwrite: int
    var readopen: bool
    var writeopen: bool
    /** All bytes ever stored, and how many of them have been read. */
    ghost var stored: seq<byte>
    ghost var taken: nat

    /** At most 512 bytes are buffered: those stored and not yet read, in order. */
    ghost predicate Valid()
      reads this, data
    {
      && data.Length == 512
      && taken <= |stored| <= taken + 512
      && nread == taken % UINT && nwrite == |stored| % UINT
      && forall k :: taken <= k < |stored| ==> data[k % 512] == stored[k]
    }

    ghost function Value(): Stream
      reads this
    {
      Stream(stored, taken)
    }

    constructor ()
      ensures Valid() && fresh(data) && Value() == State(Open)
    {
      data := new byte[512];
      nread, nwrite, readopen, writeopen := 0, 0, true, true;
      stored, taken := [], 0;
    }

    /** pipewrite from byte `from` on, until it returns or goes to sleep. */
    method Write(addr: seq<byte>, from: nat, killed: bool) returns (step: WriteStep)
      requires Valid() && from <= |addr|
      modifies this`nwrite, this`stored, data
      ensures Valid() && old(stored) <= stored
      ensures var n := |stored| - |old(stored)|;
              && n <= |addr| - from && stored == old(stored) + addr[from..from + n]
              && Allowed(old(Value()), Puts(addr[from..][..n]))
              && Value() == After(old(Value()), Puts(addr[from..][..n]))
              && (step == Wrote <==> n == |addr| - from)
              && (step != Wrote ==> |stored| == taken + 512)
              && (step == NoReader ==> !readopen || killed)
              && (step.WriterSleeps? ==> readopen && !killed && step.done == from + n)
    {
      var i := from;
      while i < |addr|
        invariant from <= i <= |addr| && Valid()
        invariant stored == old(stored) + addr[from..i]
        decreases |addr| - i
      {
        WrapCompare(taken, |stored|);
        if nwrite == (nread + PIPESIZE) % UINT {
          assert addr[from..][..i - from] == addr[from..i];
          return if !readopen || killed then NoReader else WriterSleeps(i);
        }
        Store(addr[i]);
        assert addr[from..i + 1] == addr[from..i] + [addr[i]];
        i := i + 1;
      }
      assert addr[from..][..i - from] == addr[from..i];
      return Wrote;
    }

    method Store(b: byte)
      requires Valid() && |stored| < taken + 512
      modifies this`nwrite, this`stored, data
      ensures Valid() && stored == old(stored) + [b]
    {
      WrapIndex(|stored|);
      WrapNext(|stored|);
      ghost var w := |stored|;
      data[nwrite % PIPESIZE] := b;
      nwrite := (nwrite + 1) % UINT;
      stored := stored + [b];
      forall k | taken <= k < |stored| ensures data[k % 512] == stored[k] {
        RingDistinct(taken, k, w);
      }
    }

    /** piperead, until it returns or goes to sleep. */
    method Read(n: nat, killed: bool) returns (step: ReadStep)
      requires Valid()
      modifies this`nread, this`taken
      ensures Valid() && old(taken) <= taken
      ensures step == ReaderSleeps || step == ReaderKilled ==>
                taken == old(taken) == |stored| && writeopen && (step == ReaderKilled <==> killed)
      ensures step.Got? ==>
                && (old(taken) < |stored| || !writeopen) && Allowed(old(Value()), Gets(step.bytes))
                && Value() == After(old(Value()), Gets(step.bytes))
      ensures step.Got? ==> step.bytes == stored[old(taken)..taken]
      ensures step.Got? ==> |step.bytes| == if |stored| - old(taken) < n then |stored| - old(taken) else n
    {
      WrapCompare(taken, |stored|);
      if nread == nwrite && writeopen {
        return if killed then ReaderKilled else ReaderSleeps;
      }
      var addr: seq<byte> := [];
      var i := 0;
      while i < n
        invariant 0 <= i <= n && Valid() && taken == old(taken) + i && addr == stored[old(taken)..taken]
        decreases n - i
      {
        WrapCompare(taken, |stored|);
        if nread == nwrite { break; }
        var b := Fetch();
        addr := addr + [b];
        i := i + 1;
      }
      return Got(addr);
    }

    method Fetch() returns (b: byte)
      requires Valid() && taken < |stored|
      modifies this`nread, this`taken
      ensures Valid() && taken == old(taken) + 1 && b == stored[old(taken)]
    {
      WrapIndex(taken);
      WrapNext(taken);
      b := data[nread % PIPESIZE];
      nread := (nread + 1) % UINT;
      taken := taken + 1;
    }
  }

  /** Two positions of a window shorter than the ring have different slots. */
  lemma RingDistinct(r: nat, k: nat, w: nat)
    requires r <= k <= w < r + 512
    ensures k != w ==> k % 512 != w % 512
  {
  }

  // ----- every interleaving

  /** A pipe as a queue: everything stored, and how much of it has been read. */
  datatype Stream = Stream(stored: seq<byte>, taken: nat)

  datatype Event = Puts(bytes: seq<byte>) | Gets(bytes: seq<byte>)

  datatype History = Open | Then(before: History, e: Event)

  function Read(h: History): seq<byte> {
    match h
    case Open => []
    case Then(b, e) => Read(b) + if e.Gets? then e.bytes else []
  }

  function Written(h: History): seq<byte> {
    match h
    case Open => []
    case Then(b, e) => Written(b) + if e.Puts? then e.bytes else []
  }

  /** What the methods above allow in the state (stored, taken): a write leaves at most 512 unread bytes, a read
      takes the next ones. */
  predicate Allowed(s: Stream, e: Event) {
    && s.taken <= |s.stored|
    && match e
       case Puts(b) => |s.stored| + |b| - s.taken <= PIPESIZE
       case Gets(b) => s.taken + |b| <= |s.stored| && b == s.stored[s.taken..s.taken + |b|]
  }

  function After(s: Stream, e: Event): Stream {
    match e
    case Puts(b) => s.(stored := s.stored + b)
    case Gets(b) => s.(taken := s.taken + |b|)
  }

  ghost predicate Legal(h: History) {
    h.Open? || (Legal(h.before) && Allowed(State(h.before), h.e))
  }

  function State(h: History): Stream {
    if h.Open? then Stream([], 0) else After(State(h.before), h.e)
  }

  /** For every interleaving of readers and writers: the bytes read, followed by the at most 512 bytes buffered, are
      all the bytes written. */
  lemma {:induction false} PipeIsFifo(h: History)
    requires Legal(h)
    ensures var s := State(h);
            && s.taken <= |s.stored| <= s.taken + PIPESIZE
            && Read(h) == s.stored[..s.taken] && Written(h) == s.stored == Read(h) + s.stored[s.taken..]
  {
    if h.Then? {
      PipeIsFifo(h.before);
      var s := State(h.before);
      if h.e.Puts? {
        assert (s.stored + h.e.bytes)[..s.taken] == s.stored[..s.taken];
      } else {
        assert s.stored[..s.taken] + h.e.bytes == s.stored[..s.taken + |h.e.bytes|];
      }
    }
  }
}
