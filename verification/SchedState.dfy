/** proc.c: the process table, the multi-level feedback queues and the locked steps on them. */
module SchedState {
  import opened Lists

  const NPROC := 64
  const MLF_LEVELS := 4

  /** A pointer into the process table. */
  datatype Ptr = Null | At(i: nat)

  datatype ProcState = UNUSED | EMBRYO | SLEEPING | RUNNABLE | RUNNING | ZOMBIE

  /** What a process sleeps on: a process structure (wait) or some other kernel address. */
  datatype Chan = NoChan | OnProc(p: nat) | On(a: nat)

  /** `forker` is the process inside fork() that owns an EMBRYO slot. */
  datatype Proc = Proc(state: ProcState, pid: int, parent: Ptr, chan: Chan, killed: bool, level: int, next: Ptr,
                       forker: Ptr)

  datatype Queue = Queue(first: Ptr, last: Ptr, size: int)

  /** ptable, nextpid and initproc; with the abstract queues `q` and, per level, the history of processes
      queued (`enq`) and taken (`deq`). */
  datatype Sched = Sched(proc: seq<Proc>, mlf: seq<Queue>, size: int, nextpid: int, initproc: Ptr,
                         q: seq<seq<nat>>, enq: seq<seq<nat>>, deq: seq<seq<nat>>)
  {
    predicate Shaped() {
      && |proc| == NPROC && |mlf| == MLF_LEVELS && |q| == MLF_LEVELS && |enq| == MLF_LEVELS && |deq| == MLF_LEVELS
      && (forall l :: 0 <= l < MLF_LEVELS ==>
            && (mlf[l].last.At? ==> mlf[l].last.i < NPROC)
            && (mlf[l].first.At? ==> mlf[l].first.i < NPROC && mlf[l].last.At?))
      && (forall p :: 0 <= p < NPROC ==> 0 <= proc[p].level < MLF_LEVELS)
    }
  }

  function Up(level: int): int {
    if level > 0 then level - 1 else level
  }

  function Down(level: int): int {
    if level < MLF_LEVELS - 1 then level + 1 else level
  }

  /** encolar. The new tail's `next` is left as it was. */
  function Encolar(s: Sched, p: nat, l: int): (r: Sched)
    requires s.Shaped() && p < NPROC && 0 <= l < MLF_LEVELS
  {
    var m := s.mlf[l];
    if m.first == Null then
      s.(proc := s.proc[p := s.proc[p].(level := l)], size := s.size + 1,
         mlf := s.mlf[l := Queue(At(p), At(p), m.size + 1)],
         q := s.q[l := s.q[l] + [p]], enq := s.enq[l := s.enq[l] + [p]])
    else
      var linked := s.proc[m.last.i := s.proc[m.last.i].(next := At(p))];
      s.(proc := linked[p := linked[p].(level := l)], size := s.size + 1,
         mlf := s.mlf[l := Queue(m.first, At(p), m.size + 1)],
         q := s.q[l := s.q[l] + [p]], enq := s.enq[l := s.enq[l] + [p]])
  }

  function SetState(s: Sched, p: nat, st: ProcState): (r: Sched)
    requires p < |s.proc|
  {
    s.(proc := s.proc[p := s.proc[p].(state := st)])
  }

  function MakeRunnable(s: Sched, p: nat, l: int): (r: Sched)
    requires s.Shaped() && p < NPROC && 0 <= l < MLF_LEVELS
  {
    SetState(Encolar(s, p, l), p, RUNNABLE)
  }

  /** desencolar: `last->pid == first->pid` decides whether the queue becomes empty. */
  function Desencolar(s: Sched, p: nat): (r: Sched)
    requires s.Shaped() && p < NPROC
    requires var l := s.proc[p].level; s.mlf[l].first.At? && s.mlf[l].last.At? && s.q[l] != []
  {
    var l := s.proc[p].level;
    var m := s.mlf[l];
    var single := s.proc[m.last.i].pid == s.proc[m.first.i].pid;
    s.(mlf := s.mlf[l := if single then Queue(Null, Null, m.size - 1) else Queue(s.proc[p].next, m.last, m.size - 1)],
       size := s.size - 1, q := s.q[l := s.q[l][1..]], deq := s.deq[l := s.deq[l] + [p]])
  }

  // ----- the queue invariant

  /** Level l: `first` and `last` are the ends of the list, `next` links it, every member is RUNNABLE there. */
  ghost predicate QueueOk(s: Sched, l: int)
    requires s.Shaped() && 0 <= l < MLF_LEVELS
  {
    var L, m := s.q[l], s.mlf[l];
    && Distinct(L) && m.size == |L|
    && (forall k :: 0 <= k < |L| ==> L[k] < NPROC && s.proc[L[k]].state == RUNNABLE && s.proc[L[k]].level == l)
    && (L == [] ==> m.first == Null && m.last == Null)
    && (L != [] ==> m.first == At(L[0]) && m.last == At(L[|L| - 1]))
    && (forall k :: 0 <= k < |L| - 1 ==> s.proc[L[k]].next == At(L[k + 1]))
  }

  /** Every RUNNABLE process is in the queue of its level. */
  ghost predicate AllQueued(s: Sched)
    requires s.Shaped()
  {
    forall p :: 0 <= p < NPROC && s.proc[p].state == RUNNABLE ==> p in s.q[s.proc[p].level]
  }

  ghost predicate Fifo(s: Sched)
    requires s.Shaped()
  {
    forall l :: 0 <= l < MLF_LEVELS ==> s.enq[l] == s.deq[l] + s.q[l]
  }

  /** Live processes have distinct pids, all below nextpid. */
  ghost predicate PidsOk(s: Sched)
    requires s.Shaped()
  {
    && (forall p :: 0 <= p < NPROC && s.proc[p].state != UNUSED ==> s.proc[p].pid < s.nextpid)
    && (forall p, r :: 0 <= p < r < NPROC && s.proc[p].state != UNUSED && s.proc[r].state != UNUSED ==>
          s.proc[p].pid != s.proc[r].pid)
  }

  ghost predicate Queues(s: Sched) {
    && s.Shaped()
    && (forall l :: 0 <= l < MLF_LEVELS ==> QueueOk(s, l))
    && AllQueued(s) && Fifo(s) && PidsOk(s)
    && s.size == |s.q[0]| + |s.q[1]| + |s.q[2]| + |s.q[3]|
  }

  /** A process that is not RUNNABLE is in no queue. */
  lemma NotQueued(s: Sched, p: nat, l: int)
    requires Queues(s) && p < NPROC && s.proc[p].state != RUNNABLE && 0 <= l < MLF_LEVELS
    ensures p !in s.q[l]
  {
    assert QueueOk(s, l);
  }

  lemma EncolarHere(s: Sched, p: nat, l: int)
    requires s.Shaped() && 0 <= l < MLF_LEVELS && QueueOk(s, l) && p < NPROC && p !in s.q[l]
    ensures MakeRunnable(s, p, l).Shaped() && QueueOk(MakeRunnable(s, p, l), l)
  {
    var t, L := MakeRunnable(s, p, l), s.q[l];
    forall k | 0 <= k < |t.q[l]| - 1 ensures t.proc[t.q[l][k]].next == At(t.q[l][k + 1]) {
      if k < |L| - 1 { assert L[k] != L[|L| - 1]; }
    }
  }

  lemma EncolarElsewhere(s: Sched, p: nat, l: int, l': int)
    requires s.Shaped() && 0 <= l < MLF_LEVELS && 0 <= l' < MLF_LEVELS && l' != l
    requires QueueOk(s, l) && QueueOk(s, l') && p < NPROC && p !in s.q[l']
    ensures MakeRunnable(s, p, l).Shaped() && QueueOk(MakeRunnable(s, p, l), l')
  {
    var t, L := MakeRunnable(s, p, l), s.q[l];
    forall k | 0 <= k < |s.q[l']| ensures t.proc[s.q[l'][k]] == s.proc[s.q[l'][k]] {
      if L != [] { assert s.proc[L[|L| - 1]].level == l; }
    }
  }

  /** What make_runnable leaves alone in the table. */
  lemma EncolarFields(s: Sched, p: nat, l: int, r: nat)
    requires s.Shaped() && 0 <= l < MLF_LEVELS && p < NPROC && r < NPROC
    ensures var x := MakeRunnable(s, p, l).proc[r];
            && x.(next := Null) ==
               if r == p then s.proc[p].(state := RUNNABLE, level := l, next := Null) else s.proc[r].(next := Null)
  {
  }

  /** make_runnable keeps the queues, with p at the tail of level l. */
  lemma MakeRunnableKeeps(s: Sched, p: nat, l: int)
    requires Queues(s) && p < NPROC && s.proc[p].state !in {RUNNABLE, UNUSED} && 0 <= l < MLF_LEVELS
    ensures Queues(MakeRunnable(s, p, l))
  {
    var t := MakeRunnable(s, p, l);
    forall l' | 0 <= l' < MLF_LEVELS ensures t.Shaped() && QueueOk(t, l') {
      assert QueueOk(s, l) && QueueOk(s, l');
      NotQueued(s, p, l');
      if l' == l { EncolarHere(s, p, l); } else { EncolarElsewhere(s, p, l, l'); }
    }
    assert t.Shaped() by { assert QueueOk(s, l); NotQueued(s, p, l); EncolarHere(s, p, l); }
    MakeRunnableRest(s, p, l);
  }

  lemma MakeRunnableRest(s: Sched, p: nat, l: int)
    requires Queues(s) && p < NPROC && s.proc[p].state !in {RUNNABLE, UNUSED} && 0 <= l < MLF_LEVELS
    requires MakeRunnable(s, p, l).Shaped()
    ensures var t := MakeRunnable(s, p, l);
            AllQueued(t) && Fifo(t) && PidsOk(t) && t.size == |t.q[0]| + |t.q[1]| + |t.q[2]| + |t.q[3]|
  {
    hide QueueOk;
    var t := MakeRunnable(s, p, l);
    forall r | 0 <= r < NPROC
      ensures t.proc[r].pid == s.proc[r].pid && (t.proc[r].state == UNUSED <==> s.proc[r].state == UNUSED)
      ensures t.proc[r].state == RUNNABLE ==> r in t.q[t.proc[r].level]
    {
      EncolarFields(s, p, l, r);
      if r == p { assert t.q[l][|t.q[l]| - 1] == p; }
    }
  }

  // ----- taking the first process of a level

  /** The scheduler's choice at a level: desencolar, RUNNING, and the sleeper's tidy-up. */
  function Dispatch(s: Sched, l: int): (r: Sched)
    requires s.Shaped() && 0 <= l < MLF_LEVELS && s.mlf[l].first.At?
    requires var p := s.mlf[l].first.i; s.proc[p].level == l && s.q[l] != []
  {
    var p := s.mlf[l].first.i;
    var t := Desencolar(s, p);
    t.(proc := t.proc[p := t.proc[p].(state := RUNNING, chan := NoChan)])
  }

  /** The head of a non-empty queue: RUNNABLE (so scheduler's panic is unreachable), and of that level. */
  lemma HeadIsRunnable(s: Sched, l: int)
    requires Queues(s) && 0 <= l < MLF_LEVELS && s.mlf[l].first.At?
    ensures s.q[l] != [] && s.mlf[l].first.i == s.q[l][0]
    ensures s.proc[s.mlf[l].first.i].state == RUNNABLE && s.proc[s.mlf[l].first.i].level == l
  {
    assert QueueOk(s, l);
  }

  /** The pid comparison in desencolar tells whether the queue has one process. */
  lemma PidTest(s: Sched, l: int)
    requires Queues(s) && 0 <= l < MLF_LEVELS && s.mlf[l].first.At?
    ensures s.proc[s.mlf[l].last.i].pid == s.proc[s.mlf[l].first.i].pid <==> |s.q[l]| == 1
  {
    assert QueueOk(s, l);
    var L := s.q[l];
    var a, b := L[0], L[|L| - 1];
    assert |L| > 1 ==> a != b;
    assert s.proc[a].state == RUNNABLE && s.proc[b].state == RUNNABLE;
  }

  lemma DispatchHere(s: Sched, l: int)
    requires Queues(s) && 0 <= l < MLF_LEVELS && s.mlf[l].first.At?
    ensures s.proc[s.mlf[l].first.i].level == l && s.q[l] != []
    ensures Dispatch(s, l).Shaped() && QueueOk(Dispatch(s, l), l)
  {
    HeadIsRunnable(s, l);
    PidTest(s, l);
    assert QueueOk(s, l);
    hide AllQueued, Fifo, PidsOk;
    var t, L := Dispatch(s, l), s.q[l];
    assert t.q[l] == L[1..];
    forall k | 0 <= k < |L| - 1 ensures t.q[l][k] == L[k + 1] && t.proc[L[k + 1]] == s.proc[L[k + 1]] {
      assert L[k + 1] != L[0];
    }
    if |L| > 1 { assert s.proc[L[0]].next == At(L[1]); }
  }

  lemma DispatchElsewhere(s: Sched, l: int, l': int)
    requires Queues(s) && 0 <= l < MLF_LEVELS && s.mlf[l].first.At? && 0 <= l' < MLF_LEVELS && l' != l
    requires s.proc[s.mlf[l].first.i].level == l && s.q[l] != [] && Dispatch(s, l).Shaped()
    ensures QueueOk(Dispatch(s, l), l')
  {
    hide AllQueued, Fifo, PidsOk;
    assert QueueOk(s, l');
    var t := Dispatch(s, l);
    forall k | 0 <= k < |s.q[l']| ensures t.proc[s.q[l'][k]] == s.proc[s.q[l'][k]] {}
  }

  /** Dispatching keeps the queues; the process taken is the one queued first. */
  lemma DispatchKeeps(s: Sched, l: int)
    requires Queues(s) && 0 <= l < MLF_LEVELS && s.mlf[l].first.At?
    ensures s.proc[s.mlf[l].first.i].level == l && s.q[l] != []
    ensures Queues(Dispatch(s, l))
  {
    DispatchHere(s, l);
    HeadIsRunnable(s, l);
    var t := Dispatch(s, l);
    forall l' | 0 <= l' < MLF_LEVELS ensures QueueOk(t, l') {
      if l' != l { DispatchElsewhere(s, l, l'); }
    }
    assert AllQueued(t) && Fifo(t) by { DispatchRest(s, l); }
  }

  lemma DispatchRest(s: Sched, l: int)
    requires Queues(s) && 0 <= l < MLF_LEVELS && s.mlf[l].first.At?
    requires s.proc[s.mlf[l].first.i].level == l && s.q[l] != [] && Dispatch(s, l).Shaped()
    ensures AllQueued(Dispatch(s, l)) && Fifo(Dispatch(s, l))
  {
    HeadIsRunnable(s, l);
    hide QueueOk, PidsOk;
    var t, p := Dispatch(s, l), s.q[l][0];
    forall r | 0 <= r < NPROC && t.proc[r].state == RUNNABLE ensures r in t.q[t.proc[r].level] {
      assert r != p && r in s.q[s.proc[r].level];
      if s.proc[r].level == l { assert s.q[l] == [p] + s.q[l][1..]; }
    }
    assert s.enq[l] == s.deq[l] + s.q[l] == (s.deq[l] + [p]) + s.q[l][1..];
  }

  // ----- the list as the pointers give it

  /** The process reached from ptr by following `next` n times. */
  function Follow(s: Sched, ptr: Ptr, n: nat): Ptr
    requires s.Shaped()
    decreases n
  {
    if n == 0 || ptr == Null || ptr.i >= NPROC then ptr else Follow(s, s.proc[ptr.i].next, n - 1)
  }

  /** `first` reaches the k-th process of the level in k steps, and `last` in size - 1 steps. */
  lemma {:induction false} ReachesLast(s: Sched, l: int, j: nat, k: nat)
    requires Queues(s) && 0 <= l < MLF_LEVELS && j + k < |s.q[l]|
    ensures s.mlf[l].size == |s.q[l]| && s.mlf[l].first == At(s.q[l][0]) && s.mlf[l].last == At(s.q[l][|s.q[l]| - 1])
    ensures Follow(s, At(s.q[l][j]), k) == At(s.q[l][j + k])
    decreases k
  {
    assert QueueOk(s, l);
    if k > 0 {
      assert s.proc[s.q[l][j]].next == At(s.q[l][j + 1]);
      ReachesLast(s, l, j + 1, k - 1);
    }
  }

  /** A process is in exactly the queue of its level iff it is RUNNABLE, and there once. */
  lemma QueuedIffRunnable(s: Sched, p: nat, l: int)
    requires Queues(s) && p < NPROC && 0 <= l < MLF_LEVELS
    ensures p in s.q[l] <==> s.proc[p].state == RUNNABLE && s.proc[p].level == l
    ensures multiset(s.q[l])[p] <= 1
  {
    assert QueueOk(s, l);
    DistinctOnce(s.q[l], p);
  }

  lemma {:induction false} DistinctOnce(L: seq<nat>, p: nat)
    requires Distinct(L)
    ensures multiset(L)[p] <= 1
  {
    if L != [] {
      var n := |L| - 1;
      DistinctOnce(L[..n], p);
      assert L == L[..n] + [L[n]];
      assert L[n] !in L[..n];
    }
  }

  // ----- steps that do not touch the queues

  /** Replacing the record of a process that is RUNNABLE neither before nor after. */
  lemma ReplaceIdle(s: Sched, p: nat, x: Proc, nextpid: int)
    requires Queues(s) && p < NPROC && s.proc[p].state != RUNNABLE && x.state != RUNNABLE && 0 <= x.level < MLF_LEVELS
    requires nextpid >= s.nextpid
    requires x.state != UNUSED ==>
               (s.proc[p].state != UNUSED && x.pid == s.proc[p].pid) || (s.nextpid <= x.pid < nextpid)
    ensures Queues(s.(proc := s.proc[p := x], nextpid := nextpid))
  {
    var t := s.(proc := s.proc[p := x], nextpid := nextpid);
    forall l | 0 <= l < MLF_LEVELS ensures QueueOk(t, l) {
      assert QueueOk(s, l);
      NotQueued(s, p, l);
      forall k | 0 <= k < |s.q[l]| ensures t.proc[s.q[l][k]] == s.proc[s.q[l][k]] {}
    }
  }

  /** Replacing fields the queues do not look at. */
  lemma ReplaceOther(s: Sched, p: nat, x: Proc)
    requires Queues(s) && p < NPROC
    requires x.state == s.proc[p].state && x.pid == s.proc[p].pid && x.level == s.proc[p].level
    requires x.next == s.proc[p].next
    ensures Queues(s.(proc := s.proc[p := x]))
  {
    var t := s.(proc := s.proc[p := x]);
    forall l | 0 <= l < MLF_LEVELS ensures QueueOk(t, l) { assert QueueOk(s, l); }
  }
}
