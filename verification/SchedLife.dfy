/** proc.c: the process life cycle: fork, sleep, wakeup, kill, exit and wait. */
module SchedLife {
  import opened SchedState

  // ----- the steps

  /** Lowest UNUSED slot from k on, or NPROC. */
  function FirstUnused(s: Sched, k: nat): (r: nat)
    requires |s.proc| == NPROC && k <= NPROC
    ensures k <= r <= NPROC && (r < NPROC ==> s.proc[r].state == UNUSED)
    ensures forall i :: k <= i < r ==> s.proc[i].state != UNUSED
    decreases NPROC - k, s
  {
    if k == NPROC || s.proc[k].state == UNUSED then k else FirstUnused(s, k + 1)
  }

  /** allocproc's locked region: claim a slot for `owner` (Null for the first process), if there is one. */
  function Alloc(s: Sched, owner: Ptr): (r: Sched)
    requires s.Shaped()
  {
    var k := FirstUnused(s, 0);
    if k == NPROC then s else
      s.(proc := s.proc[k := s.proc[k].(state := EMBRYO, pid := s.nextpid, forker := owner)], nextpid := s.nextpid + 1)
  }

  /** userinit: the first slot becomes init. */
  function AllocInit(s: Sched): (r: Sched)
    requires s.Shaped()
  {
    var k := FirstUnused(s, 0);
    if k == NPROC then s else Alloc(s, Null).(initproc := At(k))
  }

  /** fork or allocproc gives up: no kernel stack or no memory for the copy. */
  function AllocFail(s: Sched, k: nat): (r: Sched)
    requires k < |s.proc|
  {
    s.(proc := s.proc[k := s.proc[k].(state := UNUSED, forker := Null)])
  }

  function SetParent(s: Sched, k: nat): (r: Sched)
    requires k < |s.proc|
  {
    s.(proc := s.proc[k := s.proc[k].(parent := s.proc[k].forker)])
  }

  /** The end of fork and of userinit. */
  function ForkDone(s: Sched, k: nat): (r: Sched)
    requires s.Shaped() && k < NPROC
  {
    MakeRunnable(s.(proc := s.proc[k := s.proc[k].(forker := Null)]), k, 0)
  }

  function Yield(s: Sched, p: nat): (r: Sched)
    requires s.Shaped() && p < NPROC
  {
    MakeRunnable(s, p, Down(s.proc[p].level))
  }

  function Sleep(s: Sched, p: nat, chan: Chan): (r: Sched)
    requires p < |s.proc|
  {
    s.(proc := s.proc[p := s.proc[p].(state := SLEEPING, chan := chan)])
  }

  predicate Wakes(x: Proc, chan: Chan) {
    x.state == SLEEPING && x.chan == chan
  }

  /** wakeup1 from table entry k on. */
  function Wake(s: Sched, chan: Chan, k: nat): (r: Sched)
    requires s.Shaped() && k <= NPROC
    ensures r.Shaped()
    decreases NPROC - k, s
  {
    if k == NPROC then s
    else if Wakes(s.proc[k], chan) then Wake(MakeRunnable(s, k, Up(s.proc[k].level)), chan, k + 1)
    else Wake(s, chan, k + 1)
  }

  /** Lowest entry with the pid from k on, or NPROC. */
  function FindPid(s: Sched, pid: int, k: nat): (r: nat)
    requires |s.proc| == NPROC && k <= NPROC
    ensures k <= r <= NPROC && (r < NPROC ==> s.proc[r].pid == pid)
    decreases NPROC - k, s
  {
    if k == NPROC || s.proc[k].pid == pid then k else FindPid(s, pid, k + 1)
  }

  function Kill(s: Sched, pid: int): (r: Sched)
    requires s.Shaped()
  {
    var k := FindPid(s, pid, 0);
    if k == NPROC then s else
      var t := s.(proc := s.proc[k := s.proc[k].(killed := true)]);
      if s.proc[k].state == SLEEPING then MakeRunnable(t, k, s.proc[k].level) else t
  }

  /** exit's loop from entry k on: children of p go to init, which is woken for each zombie. */
  function Reparent(s: Sched, p: nat, k: nat): (r: Sched)
    requires s.Shaped() && k <= NPROC && s.initproc.At?
    ensures r.Shaped()
    decreases NPROC - k, s
  {
    if k == NPROC then s
    else if s.proc[k].parent == At(p) then
      var t := s.(proc := s.proc[k := s.proc[k].(parent := s.initproc)]);
      var u := if s.proc[k].state == ZOMBIE then Wake(t, OnProc(s.initproc.i), 0) else t;
      WakeInit(t, OnProc(s.initproc.i), 0);
      Reparent(u, p, k + 1)
    else Reparent(s, p, k + 1)
  }

  lemma {:induction false} WakeInit(s: Sched, chan: Chan, k: nat)
    requires s.Shaped() && k <= NPROC
    ensures Wake(s, chan, k).initproc == s.initproc
    decreases NPROC - k
  {
    if k < NPROC {
      WakeInit(if Wakes(s.proc[k], chan) then MakeRunnable(s, k, Up(s.proc[k].level)) else s, chan, k + 1);
    }
  }

  function ChanOf(parent: Ptr): Chan {
    if parent.At? then OnProc(parent.i) else NoChan
  }

  /** exit's locked region. */
  function Exit(s: Sched, p: nat): (r: Sched)
    requires s.Shaped() && p < NPROC && s.initproc.At?
  {
    WakeInit(s, ChanOf(s.proc[p].parent), 0);
    SetState(Reparent(Wake(s, ChanOf(s.proc[p].parent), 0), p, 0), p, ZOMBIE)
  }

  predicate ZombieChild(s: Sched, p: nat, r: nat)
    requires r < |s.proc|
  {
    s.proc[r].parent == At(p) && s.proc[r].state == ZOMBIE
  }

  /** Lowest zombie child of p from k on, or NPROC. */
  function FirstZombie(s: Sched, p: nat, k: nat): (r: nat)
    requires |s.proc| == NPROC && k <= NPROC
    ensures k <= r <= NPROC && (r < NPROC ==> ZombieChild(s, p, r))
    ensures forall i :: k <= i < r ==> !ZombieChild(s, p, i)
    ensures forall i :: k <= i < r ==> s.proc[i].parent != At(p) || s.proc[i].state != ZOMBIE
    decreases NPROC - k, s
  {
    if k == NPROC || ZombieChild(s, p, k) then k else FirstZombie(s, p, k + 1)
  }

  predicate HasKids(s: Sched, p: nat) {
    exists r :: 0 <= r < |s.proc| && s.proc[r].parent == At(p)
  }

  /** One turn of wait's loop: reap a zombie child, or give up, or go to sleep on oneself. */
  function Wait(s: Sched, p: nat): (r: Sched)
    requires |s.proc| == NPROC && p < NPROC
  {
    var z := FirstZombie(s, p, 0);
    if z < NPROC then s.(proc := s.proc[z := s.proc[z].(state := UNUSED, pid := 0, parent := Null, killed := false)])
    else if !HasKids(s, p) || s.proc[p].killed then s
    else Sleep(s, p, OnProc(p))
  }

  datatype WaitResult = Reaped(pid: int) | NoChildren | Slept

  /** What that turn returns. */
  function WaitReturns(s: Sched, p: nat): (r: WaitResult)
    requires |s.proc| == NPROC && p < NPROC
    ensures r.Reaped? <==> exists c :: 0 <= c < NPROC && s.proc[c].parent == At(p) && s.proc[c].state == ZOMBIE
    ensures r.Reaped? ==>
              exists c :: && 0 <= c < NPROC && s.proc[c].parent == At(p) && s.proc[c].state == ZOMBIE
                          && s.proc[c].pid == r.pid
                          && Wait(s, p) == s.(proc := s.proc[c := s.proc[c].(state := UNUSED, pid := 0, parent := Null,
                                                                             killed := false)])
    ensures r.NoChildren? <==>
              && (forall c :: 0 <= c < NPROC ==> !(s.proc[c].parent == At(p) && s.proc[c].state == ZOMBIE))
              && (s.proc[p].killed || forall c :: 0 <= c < NPROC ==> s.proc[c].parent != At(p))
    ensures r.NoChildren? ==> Wait(s, p) == s
    ensures r.Slept? ==> Wait(s, p) == s.(proc := s.proc[p := s.proc[p].(state := SLEEPING, chan := OnProc(p))])
  {
    var z := FirstZombie(s, p, 0);
    if z < NPROC then Reaped(s.proc[z].pid) else if !HasKids(s, p) || s.proc[p].killed then NoChildren else Slept
  }

  function SetPriority(s: Sched, p: nat, l: int): (r: Sched)
    requires p < |s.proc|
  {
    s.(proc := s.proc[p := s.proc[p].(level := l)])
  }

  // ----- the family invariant

  predicate Living(st: ProcState) {
    st == SLEEPING || st == RUNNABLE || st == RUNNING
  }

  /** Past fork and not yet exited. */
  predicate Alive(s: Sched, r: nat) {
    r < |s.proc| && Living(s.proc[r].state)
  }

  /** Parents are alive; slots in fork belong to a live process. */
  ghost predicate ParentsAlive(s: Sched) {
    forall p :: 0 <= p < |s.proc| ==>
      && (s.proc[p].state == UNUSED ==> s.proc[p].parent == Null)
      && (s.proc[p].parent.At? ==> s.proc[p].parent.i != p && Alive(s, s.proc[p].parent.i))
      && (s.proc[p].state != EMBRYO ==> s.proc[p].forker == Null)
      && (s.proc[p].forker.At? ==> s.proc[p].forker.i != p && Alive(s, s.proc[p].forker.i))
      && (s.proc[p].state == EMBRYO ==> s.proc[p].parent == Null || s.proc[p].parent == s.proc[p].forker)
  }

  /** init is alive and has no parent; every other process past fork has one. */
  ghost predicate InitOk(s: Sched) {
    && (s.initproc.At? ==>
          && s.initproc.i < |s.proc| && s.proc[s.initproc.i].parent == Null
          && (s.proc[s.initproc.i].state == EMBRYO || Alive(s, s.initproc.i)))
    && (forall p :: 0 <= p < |s.proc| && s.proc[p].state != UNUSED && s.proc[p].state != EMBRYO ==>
          s.initproc.At? && Alive(s, s.initproc.i) && (s.initproc == At(p) || s.proc[p].parent.At?))
  }

  /** Nobody sleeps in wait with a zombie child: no child exit is lost. */
  ghost predicate NoLostExit(s: Sched) {
    && (forall p :: 0 <= p < |s.proc| && s.proc[p].state == SLEEPING && s.proc[p].chan.OnProc? ==>
          s.proc[p].chan == OnProc(p))
    && (forall p, c :: 0 <= p < |s.proc| && 0 <= c < |s.proc| && Wakes(s.proc[p], OnProc(p)) ==> !ZombieChild(s, p, c))
  }

  ghost predicate Family(s: Sched) {
    |s.proc| == NPROC && ParentsAlive(s) && InitOk(s) && NoLostExit(s)
  }

  ghost predicate Inv(s: Sched) {
    Queues(s) && Family(s)
  }
}
