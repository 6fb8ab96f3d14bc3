/** The redo log as a protocol on sector writes: the exact sequence of sector writes of a
    transaction, and what any prefix of it leaves behind after recovery. */
module LogSpec {
  import opened Words

  type Disk = seq<Block>

  /** One synchronous sector write. */
  datatype Write = Write(sector: nat, data: Block)

  const LOGSIZE := 10

  /** Where the log lives: header at `start`, slots at `start+1 ..`, `size` sectors in all. */
  datatype Geometry = Geometry(start: nat, size: nat) {
    predicate Fits(d: Disk) {
      1 <= size && start + size <= |d| && |d| <= 0x8000_0000
    }

    /** The number of logged sectors that fit: the bound tested by log_write. */
    function Capacity(): int {
      if size - 1 < LOGSIZE then size - 1 else LOGSIZE
    }

    predicate Home(s: nat, d: Disk) {
      s < |d| && !(start <= s < start + size)
    }
  }

  function Step(d: Disk, w: Write): (r: Disk)
    ensures |r| == |d|
  {
    if w.sector < |d| then d[w.sector := w.data] else d
  }

  /** The disk after the first `k` of the writes `ws`. */
  function After(d: Disk, ws: seq<Write>, k: nat): (r: Disk)
    requires k <= |ws|
    ensures |r| == |d|
  {
    if k == 0 then d else Step(After(d, ws, k - 1), ws[k - 1])
  }

  function Apply(d: Disk, ws: seq<Write>): (r: Disk)
    ensures |r| == |d|
  {
    After(d, ws, |ws|)
  }

  /** The last of the first `k` writes that goes to sector `s`, or -1. */
  function Final(ws: seq<Write>, k: nat, s: nat): (r: int)
    requires k <= |ws|
    ensures -1 <= r < k
    ensures r >= 0 ==> ws[r].sector == s
    ensures forall i :: r < i < k ==> ws[i].sector != s
  {
    if k == 0 then -1 else if ws[k - 1].sector == s then k - 1 else Final(ws, k - 1, s)
  }

  /** Last write wins: the content of a sector is the data of its last write, or the old content. */
  lemma {:induction false} AfterAt(d: Disk, ws: seq<Write>, k: nat, s: nat)
    requires k <= |ws| && s < |d|
    ensures After(d, ws, k)[s] == if Final(ws, k, s) >= 0 then ws[Final(ws, k, s)].data else d[s]
  {
    if k > 0 {
      AfterAt(d, ws, k - 1, s);
    }
  }

  /** A sector that is not written keeps its content. */
  lemma AfterFrame(d: Disk, ws: seq<Write>, k: nat, s: nat)
    requires k <= |ws| && s < |d|
    requires forall i :: 0 <= i < k ==> ws[i].sector != s
    ensures After(d, ws, k)[s] == d[s]
  {
    AfterAt(d, ws, k, s);
  }

  lemma {:induction false} AfterSame(d: Disk, ws: seq<Write>, vs: seq<Write>, k: nat)
    requires k <= |ws| && k <= |vs|
    requires forall i :: 0 <= i < k ==> ws[i] == vs[i]
    ensures After(d, ws, k) == After(d, vs, k)
  {
    if k > 0 {
      AfterSame(d, ws, vs, k - 1);
    }
  }

  lemma {:induction false} AfterConcat(d: Disk, a: seq<Write>, b: seq<Write>, k: nat)
    requires k <= |b|
    ensures After(d, a + b, |a| + k) == After(Apply(d, a), b, k)
  {
    if k == 0 {
      AfterSame(d, a + b, a, |a|);
    } else {
      AfterConcat(d, a, b, k - 1);
    }
  }

  lemma ApplySnoc(d: Disk, a: seq<Write>, w: Write)
    ensures Apply(d, a + [w]) == Step(Apply(d, a), w)
  {
    AfterConcat(d, a, [w], 0);
  }

  /** Replaying a write sequence over any interrupted prefix of itself gives the full result. */
  lemma ReplayAbsorbs(d: Disk, ws: seq<Write>, k: nat)
    requires k <= |ws|
    ensures Apply(After(d, ws, k), ws) == Apply(d, ws)
  {
    var e := After(d, ws, k);
    forall s | 0 <= s < |d| ensures Apply(e, ws)[s] == Apply(d, ws)[s] {
      AfterAt(d, ws, |ws|, s);
      AfterAt(e, ws, |ws|, s);
      AfterAt(d, ws, k, s);
    }
  }

  // ----- the header block (struct logheader: n, then sector[])

  function HeadN(b: Block): word {
    GetWord(b, 0)
  }

  /** The sectors named by a header block. */
  function HeadSectors(b: Block): (r: seq<nat>)
    requires HeadN(b) <= LOGSIZE
  {
    seq(HeadN(b), i requires 0 <= i < HeadN(b) => GetWord(b, 1 + i))
  }

  /** write_head's copy loop: entries from index `i` on are stored, the rest of the block stays. */
  function PutSectors(b: Block, secs: seq<nat>, i: nat): Block
    requires i <= |secs| <= LOGSIZE
    decreases |secs| - i
  {
    if i == |secs| then b else PutSectors(PutWord(b, 1 + i, secs[i] % WORD_LIMIT), secs, i + 1)
  }

  function PutHead(b: Block, secs: seq<nat>): Block
    requires |secs| <= LOGSIZE
  {
    PutSectors(PutWord(b, 0, |secs|), secs, 0)
  }

  lemma {:induction false} PutSectorsWord(b: Block, secs: seq<nat>, i: nat, j: nat)
    requires i <= |secs| <= LOGSIZE && j < WORDS_PER_BLOCK
    ensures GetWord(PutSectors(b, secs, i), j) ==
            if i < j <= |secs| then secs[j - 1] % WORD_LIMIT else GetWord(b, j)
    decreases |secs| - i
  {
    if i < |secs| {
      PutSectorsWord(PutWord(b, 1 + i, secs[i] % WORD_LIMIT), secs, i + 1, j);
      GetPutWord(b, 1 + i, secs[i] % WORD_LIMIT, j);
    }
  }

  /** What write_head stores, read_head reads back, whatever the block held before. */
  lemma HeadRoundTrip(b: Block, secs: seq<nat>)
    requires |secs| <= LOGSIZE && forall i :: 0 <= i < |secs| ==> secs[i] < WORD_LIMIT
    ensures HeadN(PutHead(b, secs)) == |secs|
    ensures HeadSectors(PutHead(b, secs)) == secs
  {
    var b1 := PutWord(b, 0, |secs|);
    GetPutWord(b, 0, |secs|, 0);
    PutSectorsWord(b1, secs, 0, 0);
    forall i | 0 <= i < |secs| ensures GetWord(PutHead(b, secs), 1 + i) == secs[i] {
      PutSectorsWord(b1, secs, 0, 1 + i);
    }
  }

  /** The header as bytes: the count at 0, the sector numbers from 4 on, four bytes each. */
  ghost predicate HeadBytes(b: Block, secs: seq<nat>) {
    && |secs| <= 10 && U32(b, 0) == |secs|
    && forall i :: 0 <= i < |secs| ==> U32(b, 4 + 4 * i) == secs[i] % 0x1_0000_0000
  }

  lemma HeadInBytes(b: Block, secs: seq<nat>)
    requires |secs| <= LOGSIZE
    ensures HeadBytes(PutHead(b, secs), secs)
  {
    hide GetWord, PutWord, U32, PutSectors;
    var h, b1 := PutHead(b, secs), PutWord(b, 0, |secs|);
    GetPutWord(b, 0, |secs|, 0);
    PutSectorsWord(b1, secs, 0, 0);
    WordBytes(h, 0);
    forall i | 0 <= i < |secs| ensures U32(h, 4 + 4 * i) == secs[i] % WORD_LIMIT {
      PutSectorsWord(b1, secs, 0, 1 + i);
      WordBytes(h, 1 + i);
    }
  }

  /** What recovery reads from those bytes. */
  lemma HeadFromBytes(b: Block)
    requires U32(b, 0) <= 10
    ensures HeadN(b) == U32(b, 0) && HeadBytes(b, HeadSectors(b))
  {
    hide GetWord, U32;
    WordBytes(b, 0);
    forall i | 0 <= i < HeadN(b) ensures U32(b, 4 + 4 * i) == GetWord(b, 1 + i) { WordBytes(b, 1 + i); }
  }

  /** Clearing the header twice is clearing it once. */
  lemma ClearTwice(b: Block)
    ensures PutHead(PutHead(b, []), []) == PutHead(b, [])
  {
  }

  // ----- what log_write, commit_trans and recover_from_log write

  /** Position of `s` in the list of logged sectors, or one past the end (log absorption). */
  function Slot(secs: seq<nat>, s: nat): (i: nat)
    ensures i <= |secs|
    ensures i < |secs| ==> secs[i] == s
    ensures i == |secs| ==> s !in secs
  {
    if secs == [] then 0 else if secs[0] == s then 0 else
      var j := Slot(secs[1..], s);
      1 + j
  }

  function Record(secs: seq<nat>, s: nat): (r: seq<nat>) {
    if s in secs then secs else secs + [s]
  }

  /** The log_write calls of one transaction, in order. */
  type Tx = seq<Write>

  ghost predicate HomeTx(g: Geometry, d: Disk, tx: Tx) {
    forall i :: 0 <= i < |tx| ==> g.Home(tx[i].sector, d)
  }

  /** Sector numbers recorded in the in-memory header after the first `k` calls. */
  function SectorsAfter(tx: Tx, k: nat): (r: seq<nat>)
    requires k <= |tx|
  {
    if k == 0 then [] else Record(SectorsAfter(tx, k - 1), tx[k - 1].sector)
  }

  function Sectors(tx: Tx): (r: seq<nat>)
  {
    SectorsAfter(tx, |tx|)
  }

  /** A later call does not change what was recorded before. */
  lemma {:induction false} SectorsPrefix(tx: Tx, w: Write, k: nat)
    requires k <= |tx|
    ensures SectorsAfter(tx + [w], k) == SectorsAfter(tx, k)
  {
    if k > 0 {
      SectorsPrefix(tx, w, k - 1);
    }
  }

  /** One more log_write call records its sector. */
  lemma SectorsSnoc(tx: Tx, w: Write)
    ensures Sectors(tx + [w]) == Record(Sectors(tx), w.sector)
  {
    SectorsPrefix(tx, w, |tx|);
  }

  /** The sector write issued by log_write call `i`: the data goes to the sector's slot in the log. */
  function LogEntry(g: Geometry, tx: Tx, i: nat): (r: Write)
    requires i < |tx|
  {
    Write(g.start + 1 + Slot(SectorsAfter(tx, i), tx[i].sector), tx[i].data)
  }

  function LogTrace(g: Geometry, tx: Tx): (r: seq<Write>)
    ensures |r| == |tx|
  {
    seq(|tx|, i requires 0 <= i < |tx| => LogEntry(g, tx, i))
  }

  /** install_trans: copy slot i to its home sector, in order. */
  function InstallTrace(g: Geometry, d: Disk, secs: seq<nat>): (r: seq<Write>)
    requires g.start + |secs| < |d|
    ensures |r| == |secs|
  {
    seq(|secs|, i requires 0 <= i < |secs| => Write(secs[i], d[g.start + 1 + i]))
  }

  predicate WellFormed(g: Geometry, d: Disk) {
    && g.Fits(d)
    && HeadN(d[g.start]) <= g.Capacity()
    && forall i :: 0 <= i < HeadN(d[g.start]) ==> g.Home(HeadSectors(d[g.start])[i], d)
  }

  /** No committed transaction is waiting in the log. */
  predicate Clean(g: Geometry, d: Disk) {
    g.Fits(d) && HeadN(d[g.start]) == 0
  }

  /** recover_from_log: read the header, install, clear the header. */
  function RecoverTrace(g: Geometry, d: Disk): (r: seq<Write>)
    requires WellFormed(g, d)
  {
    InstallTrace(g, d, HeadSectors(d[g.start])) + [Write(g.start, PutHead(d[g.start], []))]
  }

  function Recover(g: Geometry, d: Disk): (r: Disk)
    requires WellFormed(g, d)
  {
    Apply(d, RecoverTrace(g, d))
  }

  /** commit_trans on a transaction with logged sectors `secs`; nothing when none is logged. */
  function CommitTrace(g: Geometry, d: Disk, secs: seq<nat>): (r: seq<Write>)
    requires g.Fits(d) && |secs| <= g.Capacity()
  {
    if secs == [] then [] else
      var h := PutHead(d[g.start], secs);
      [Write(g.start, h)] + InstallTrace(g, d, secs) + [Write(g.start, PutHead(h, []))]
  }

  /** Every sector write of a whole transaction. */
  function TxTrace(g: Geometry, d: Disk, tx: Tx): (r: seq<Write>)
    requires g.Fits(d) && HomeTx(g, d, tx) && |Sectors(tx)| <= g.Capacity()
  {
    LogTrace(g, tx) + CommitTrace(g, Apply(d, LogTrace(g, tx)), Sectors(tx))
  }
}
