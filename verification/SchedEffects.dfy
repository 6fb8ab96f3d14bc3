/** What each locked region of proc.c does to every field of every process, and what that means over whole runs. */
module SchedEffects {
  import opened Lists
  import opened SchedState
  import opened SchedLife
  import opened SchedRuns

  /** A process without its queue link, which the queue invariant describes. */
  function Row(x: Proc): Proc {
    x.(next := Null)
  }

  /** Entry p has become x; every other entry is as it was. */
  ghost predicate Only(s: Sched, t: Sched, p: nat, x: Proc) {
    && |s.proc| == |t.proc| == 64 && t.initproc == s.initproc
    && forall r :: 0 <= r < 64 ==> Row(t.proc[r]) == if r == p then Row(x) else Row(s.proc[r])
  }

  /** Process p joins the tail of level l. */
  predicate Joins(s: Sched, t: Sched, p: nat, l: int) {
    |s.q| == 4 && 0 <= l < 4 && t.q == s.q[l := s.q[l] + [p]]
  }

  /** Nobody leaves a queue, and those who join one do so in the order of the table. */
  ghost predicate JoinInOrder(s: Sched, t: Sched) {
    && |s.q| == |t.q| == 4
    && forall l :: 0 <= l < 4 ==> s.q[l] <= t.q[l] && Rising(t.q[l], |s.q[l]|)
  }

  ghost predicate Rising(L: seq<nat>, k: nat) {
    forall i, j :: k <= i < j < |L| ==> L[i] < L[j]
  }

  ghost predicate LowestUnused(s: Sched, k: nat) {
    k < |s.proc| && s.proc[k].state == UNUSED && forall i :: 0 <= i < k ==> s.proc[i].state != UNUSED
  }

  ghost predicate LowestPid(s: Sched, pid: int, k: nat) {
    k < |s.proc| && s.proc[k].pid == pid && forall i :: 0 <= i < k ==> s.proc[i].pid != pid
  }

  predicate DeadChild(x: Proc, p: nat) {
    x.parent == At(p) && x.state == ZOMBIE
  }

  ghost predicate LowestZombie(s: Sched, p: nat, k: nat) {
    k < |s.proc| && DeadChild(s.proc[k], p) && forall i :: 0 <= i < k ==> !DeadChild(s.proc[i], p)
  }

  /** The lowest UNUSED entry has become an EMBRYO with the next pid. */
  ghost predicate Claims(s: Sched, t: Sched, owner: Ptr) {
    && t.q == s.q
    && (forall k: nat :: LowestUnused(s, k) ==>
          && Only(s, t.(initproc := s.initproc), k, s.proc[k].(state := EMBRYO, pid := s.nextpid, forker := owner))
          && t.nextpid == s.nextpid + 1 && t.initproc == if owner == Null then At(k) else s.initproc)
    && ((forall k :: 0 <= k < |s.proc| ==> s.proc[k].state != UNUSED) ==> t == s)
  }

  /** A sleeper that is woken: RUNNABLE, one level up if it is not at level 0 already. */
  function Roused(x: Proc): Proc {
    x.(state := RUNNABLE, level := if x.level == 0 then 0 else x.level - 1)
  }

  ghost predicate WakesAll(s: Sched, t: Sched, chan: Chan, k: nat) {
    && |s.proc| == |t.proc| == 64 && t.initproc == s.initproc && t.nextpid == s.nextpid
    && (forall r :: 0 <= r < 64 ==>
          Row(t.proc[r]) ==
          if r >= k && s.proc[r].state == SLEEPING && s.proc[r].chan == chan then Row(Roused(s.proc[r]))
          else Row(s.proc[r]))
  }

  /** kill: the lowest entry with the pid is marked, and queued at its own level if it slept. */
  ghost predicate Marks(s: Sched, t: Sched, pid: int) {
    && t.nextpid == s.nextpid
    && (forall k: nat :: LowestPid(s, pid, k) ==>
          if s.proc[k].state == SLEEPING
          then Only(s, t, k, s.proc[k].(killed := true, state := RUNNABLE)) && Joins(s, t, k, s.proc[k].level)
          else Only(s, t, k, s.proc[k].(killed := true)) && t.q == s.q)
    && ((forall k :: 0 <= k < |s.proc| ==> s.proc[k].pid != pid) ==> t == s)
  }

  /** wait: the lowest zombie child is erased; with none, the caller gives up or goes to sleep on itself. */
  ghost predicate Reaps(s: Sched, t: Sched, p: nat) {
    && p < |s.proc| && t.q == s.q && t.nextpid == s.nextpid
    && (forall z: nat :: LowestZombie(s, p, z) ==>
          Only(s, t, z, s.proc[z].(state := UNUSED, pid := 0, parent := Null, killed := false)))
    && ((forall z :: 0 <= z < |s.proc| ==> !DeadChild(s.proc[z], p)) ==>
          if s.proc[p].killed || forall z :: 0 <= z < |s.proc| ==> s.proc[z].parent != At(p)
          then t == s
          else Only(s, t, p, s.proc[p].(state := SLEEPING, chan := OnProc(p))))
  }

  /** Some entry from k on is a zombie child of p. */
  ghost predicate ZombieFrom(s: Sched, p: nat, k: nat) {
    exists z :: k <= z < |s.proc| && DeadChild(s.proc[z], p)
  }

  /** Process r after the children of p from entry k on have been given to init, which is woken if it waits and
      gets a zombie. */
  ghost function Disowned(s: Sched, p: nat, k: nat, r: nat): Proc
    requires r < |s.proc| && s.initproc.At?
  {
    var x := s.proc[r].(parent := if r >= k && s.proc[r].parent == At(p) then s.initproc else s.proc[r].parent);
    if x.state == SLEEPING && x.chan == OnProc(s.initproc.i) && ZombieFrom(s, p, k) then Roused(x) else x
  }

  /** exit: p is a zombie and its children are init's; woken are its parent if it waits, and init if it waits
      and got a zombie. */
  ghost predicate Leaves(s: Sched, t: Sched, p: nat) {
    && p < |s.proc| == |t.proc| == 64 && s.initproc.At? && t.initproc == s.initproc && t.nextpid == s.nextpid
    && (forall r :: 0 <= r < 64 ==> Row(t.proc[r]) == Row(Left(s, p, r)))
    && |s.q| == |t.q| == 4
    && (forall l :: 0 <= l < 4 ==> s.q[l] <= t.q[l] && ParentFirst(t.q[l], |s.q[l]|, s.proc[p].parent))
  }

  /** From place k on: nobody, or one process, or the parent and one more. */
  ghost predicate ParentFirst(L: seq<nat>, k: nat, parent: Ptr) {
    |L| <= k + 2 && (|L| == k + 2 ==> At(L[k]) == parent)
  }

  ghost function Left(s: Sched, p: nat, r: nat): Proc
    requires r < |s.proc| && p < |s.proc| && s.initproc.At?
  {
    var x := s.proc[r].(parent := if s.proc[r].parent == At(p) then s.initproc else s.proc[r].parent);
    if r == p then x.(state := ZOMBIE)
    else if x.state == SLEEPING && x.chan == OnProc(r)
            && (At(r) == s.proc[p].parent || (At(r) == s.initproc && ZombieFrom(s, p, 0))) then Roused(x)
    else x
  }

  /** The state t after the step e from s: every field of every process, the queues, nextpid and initproc. */
  ghost predicate Effect(s: Sched, e: Step, t: Sched) {
    match e
    case UserInit => Claims(s, t, Null)
    case AllocProc(p) => Claims(s, t, At(p))
    case GiveUp(k) => k < |s.proc| && Only(s, t, k, s.proc[k].(state := UNUSED, forker := Null))
                      && t.q == s.q && t.nextpid == s.nextpid
    case Adopt(k) => k < |s.proc| && Only(s, t, k, s.proc[k].(parent := s.proc[k].forker))
                     && t.q == s.q && t.nextpid == s.nextpid
    case Publish(k) => k < |s.proc| && Only(s, t, k, s.proc[k].(state := RUNNABLE, level := 0, forker := Null))
                       && Joins(s, t, k, 0) && t.nextpid == s.nextpid
    case Yields(p) => p < |s.proc| && var l := if s.proc[p].level == 3 then 3 else s.proc[p].level + 1;
                      Only(s, t, p, s.proc[p].(state := RUNNABLE, level := l)) && Joins(s, t, p, l)
                      && t.nextpid == s.nextpid
    case Sleeps(p, chan) => p < |s.proc| && Only(s, t, p, s.proc[p].(state := SLEEPING, chan := chan))
                            && t.q == s.q && t.nextpid == s.nextpid
    case Wakeup(chan) => WakesAll(s, t, chan, 0) && JoinInOrder(s, t)
    case Kills(pid) => Marks(s, t, pid)
    case Exits(p) => Leaves(s, t, p)
    case Waits(p) => Reaps(s, t, p)
    case Runs(l) => 0 <= l < |s.q| && s.q[l] != [] && var p := s.q[l][0];
                    p < |s.proc| && Only(s, t, p, s.proc[p].(state := RUNNING, chan := NoChan))
                    && t.q == s.q[l := s.q[l][1..]] && t.nextpid == s.nextpid
    case SetsPriority(p, l) => p < |s.proc| && Only(s, t, p, s.proc[p].(level := l))
                               && t.q == s.q && t.nextpid == s.nextpid
  }

  // ----- the steps have these effects

  lemma RunnableEffect(s: Sched, p: nat, l: int)
    requires s.Shaped() && p < 64 && 0 <= l < 4
    ensures var t := MakeRunnable(s, p, l);
            && t.Shaped() && Only(s, t, p, s.proc[p].(state := RUNNABLE, level := l)) && Joins(s, t, p, l)
            && t.nextpid == s.nextpid
  {
    var t := MakeRunnable(s, p, l);
    forall r | 0 <= r < 64
      ensures Row(t.proc[r]) == if r == p then Row(s.proc[p].(state := RUNNABLE, level := l)) else Row(s.proc[r])
    {
      EncolarFields(s, p, l, r);
    }
  }

  lemma {:induction false} WakeRows(s: Sched, chan: Chan, k: nat)
    requires s.Shaped() && k <= 64
    ensures WakesAll(s, Wake(s, chan, k), chan, k)
    decreases 64 - k
  {
    hide MakeRunnable, WakesAll;
    if k == 64 {
      WakesNobody(s, s, chan, k);
    } else if s.proc[k].state == SLEEPING && s.proc[k].chan == chan {
      var l := if s.proc[k].level == 0 then 0 else s.proc[k].level - 1;
      var t := MakeRunnable(s, k, l);
      RunnableEffect(s, k, l);
      WakeRows(t, chan, k + 1);
      WakesOne(s, t, Wake(t, chan, k + 1), chan, k);
    } else {
      WakeRows(s, chan, k + 1);
      WakesNobody(s, Wake(s, chan, k + 1), chan, k);
    }
  }

  lemma WakesNobody(s: Sched, t: Sched, chan: Chan, k: nat)
    requires s.Shaped() && k <= 64
    requires if k == 64 then t == s
             else !(s.proc[k].state == SLEEPING && s.proc[k].chan == chan) && WakesAll(s, t, chan, k + 1)
    ensures WakesAll(s, t, chan, k)
  {
  }

  lemma WakesOne(s: Sched, t: Sched, u: Sched, chan: Chan, k: nat)
    requires s.Shaped() && k < 64 && s.proc[k].state == SLEEPING && s.proc[k].chan == chan
    requires Only(s, t, k, Roused(s.proc[k])) && t.nextpid == s.nextpid && WakesAll(t, u, chan, k + 1)
    ensures WakesAll(s, u, chan, k)
  {
    forall r | 0 <= r < 64
      ensures Row(u.proc[r]) ==
              if r >= k && s.proc[r].state == SLEEPING && s.proc[r].chan == chan then Row(Roused(s.proc[r]))
              else Row(s.proc[r])
    {
      assert Row(t.proc[r]) == if r == k then Row(Roused(s.proc[k])) else Row(s.proc[r]);
    }
  }

  /** Entries from k on have joined the queue L, in the order of the table. */
  ghost predicate Extended(L: seq<nat>, M: seq<nat>, k: nat) {
    L <= M && Rising(M, |L|) && forall i :: |L| <= i < |M| ==> M[i] >= k
  }

  lemma {:induction false} WakeOrder(s: Sched, chan: Chan, k: nat, l: int)
    requires s.Shaped() && k <= 64 && 0 <= l < 4
    ensures Extended(s.q[l], Wake(s, chan, k).q[l], k)
    decreases 64 - k
  {
    hide Encolar;
    if k < 64 {
      if Wakes(s.proc[k], chan) {
        RunnableEffect(s, k, Up(s.proc[k].level));
        WakeOrder(MakeRunnable(s, k, Up(s.proc[k].level)), chan, k + 1, l);
      } else {
        WakeOrder(s, chan, k + 1, l);
      }
    }
  }

  lemma WakeupEffect(s: Sched, chan: Chan)
    requires s.Shaped()
    ensures Effect(s, Wakeup(chan), Wake(s, chan, 0))
  {
    hide Wake, WakesAll;
    WakeRows(s, chan, 0);
    forall l | 0 <= l < 4 ensures Extended(s.q[l], Wake(s, chan, 0).q[l], 0) { WakeOrder(s, chan, 0, l); }
  }

  // ----- exit

  lemma AdoptOneRows(s: Sched, p: nat, k: nat, r: nat)
    requires s.Shaped() && k < 64 && r < 64 && s.initproc.At? && s.proc[k].parent == At(p)
    ensures var t, x := AdoptOne(s, p, k), s.proc[r].(parent := if r == k then s.initproc else s.proc[r].parent);
            && t.initproc == s.initproc && t.nextpid == s.nextpid
            && Row(t.proc[r]) == if s.proc[k].state == ZOMBIE && x.state == SLEEPING && x.chan == OnProc(s.initproc.i)
                                 then Row(Roused(x)) else Row(x)
  {
    hide Wake;
    WakeRows(s.(proc := s.proc[k := s.proc[k].(parent := s.initproc)]), OnProc(s.initproc.i), 0);
  }

  lemma {:induction false} ReparentRows(s: Sched, p: nat, k: nat, r: nat)
    requires s.Shaped() && k <= 64 && r < 64 && s.initproc.At?
    ensures var t := Reparent(s, p, k);
            t.initproc == s.initproc && t.nextpid == s.nextpid && Row(t.proc[r]) == Row(Disowned(s, p, k, r))
    decreases 64 - k
  {
    hide Wake, AdoptOne, Row, ZombieFrom;
    NoneLeft(s, p);
    if k < 64 {
      if s.proc[k].parent == At(p) {
        var t := AdoptOne(s, p, k);
        AdoptOneRows(s, p, k, r);
        ReparentUnfold(s, p, k);
        ReparentRows(t, p, k + 1, r);
        DisownedStep(s, t, p, k, r);
      } else {
        ReparentRows(s, p, k + 1, r);
        ZombieLater(s, p, k);
      }
    }
  }

  lemma NoneLeft(s: Sched, p: nat)
    ensures !ZombieFrom(s, p, |s.proc|)
  {
  }

  lemma ZombieLater(s: Sched, p: nat, k: nat)
    requires k < |s.proc| && !DeadChild(s.proc[k], p)
    ensures ZombieFrom(s, p, k) <==> ZombieFrom(s, p, k + 1)
  {
  }

  lemma DisownedStep(s: Sched, t: Sched, p: nat, k: nat, r: nat)
    requires s.Shaped() && k < 64 && r < 64 && s.initproc.At? && s.proc[k].parent == At(p) && t == AdoptOne(s, p, k)
    ensures t.initproc == s.initproc && Row(Disowned(t, p, k + 1, r)) == Row(Disowned(s, p, k, r))
  {
    hide AdoptOne, ZombieFrom;
    AdoptOneRows(s, p, k, r);
    ZombiesLeft(s, p, k);
  }

  lemma ZombiesLeft(s: Sched, p: nat, k: nat)
    requires s.Shaped() && k < 64 && s.initproc.At? && s.proc[k].parent == At(p)
    ensures ZombieFrom(s, p, k) <==> s.proc[k].state == ZOMBIE || ZombieFrom(AdoptOne(s, p, k), p, k + 1)
  {
    hide AdoptOne;
    var t := AdoptOne(s, p, k);
    forall z | k < z < 64 ensures DeadChild(t.proc[z], p) <==> DeadChild(s.proc[z], p) {
      AdoptOneRows(s, p, k, z);
      assert Row(t.proc[z]).parent == t.proc[z].parent && Row(t.proc[z]).state == t.proc[z].state;
    }
    assert s.proc[k].state == ZOMBIE <==> DeadChild(s.proc[k], p);
  }

  lemma ExitRows(s: Sched, p: nat, r: nat)
    requires Enabled(s, Exits(p)) && r < 64
    ensures s.initproc.At?
    ensures var t := Exit(s, p);
            |t.proc| == 64 && t.initproc == s.initproc && t.nextpid == s.nextpid
            && Row(t.proc[r]) == Row(Left(s, p, r))
  {
    hide Wake, Reparent, QueueOk, AllQueued, Fifo, PidsOk;
    InitAlive(s, p);
    var chan := ChanOf(s.proc[p].parent);
    var w := Wake(s, chan, 0);
    WakeInit(s, chan, 0);
    WakeRows(s, chan, 0);
    ReparentRows(w, p, 0, r);
    SameZombies(s, w, p, chan);
    ExitRow(s, w, p, r);
  }

  lemma SameZombies(s: Sched, t: Sched, p: nat, chan: Chan)
    requires WakesAll(s, t, chan, 0)
    ensures ZombieFrom(t, p, 0) <==> ZombieFrom(s, p, 0)
  {
    forall z | 0 <= z < 64 ensures DeadChild(t.proc[z], p) <==> DeadChild(s.proc[z], p) {
      assert Row(t.proc[z]).parent == t.proc[z].parent && Row(t.proc[z]).state == t.proc[z].state;
    }
  }

  /** The parent is woken before the children are given away. */
  lemma ExitRow(s: Sched, w: Sched, p: nat, r: nat)
    requires Family(s) && Running(s, p) && s.initproc.At? && s.initproc != At(p) && r < 64
    requires WakesAll(s, w, ChanOf(s.proc[p].parent), 0) && (ZombieFrom(w, p, 0) <==> ZombieFrom(s, p, 0))
    ensures Row(Left(s, p, r)) ==
            if r == p then Row(Disowned(w, p, 0, r)).(state := ZOMBIE) else Row(Disowned(w, p, 0, r))
  {
    hide ZombieFrom;
    assert s.proc[p].parent.At?;
    assert Row(w.proc[r]) == if s.proc[r].state == SLEEPING && s.proc[r].chan == ChanOf(s.proc[p].parent)
                             then Row(Roused(s.proc[r])) else Row(s.proc[r]);
  }

  /** Only process a, if anybody, has joined the queue L. */
  ghost predicate JoinedBy(L: seq<nat>, M: seq<nat>, a: nat) {
    L <= M && forall i :: |L| <= i < |M| ==> M[i] == a
  }

  /** Only process a, if anybody, sleeps on chan. */
  ghost predicate SleptOnBy(s: Sched, chan: Chan, a: nat) {
    forall r :: 0 <= r < |s.proc| && s.proc[r].state == SLEEPING && s.proc[r].chan == chan ==> r == a
  }

  lemma {:induction false} WakeJoins(s: Sched, chan: Chan, k: nat, l: int, a: nat)
    requires s.Shaped() && k <= 64 && 0 <= l < 4 && SleptOnBy(s, chan, a)
    ensures JoinedBy(s.q[l], Wake(s, chan, k).q[l], a)
    decreases 64 - k
  {
    hide Encolar;
    if k < 64 {
      if Wakes(s.proc[k], chan) {
        var u := MakeRunnable(s, k, Up(s.proc[k].level));
        RunnableEffect(s, k, Up(s.proc[k].level));
        forall r | 0 <= r < 64 ensures Wakes(u.proc[r], chan) ==> Wakes(s.proc[r], chan) {
          assert Row(u.proc[r]).state == u.proc[r].state && Row(u.proc[r]).chan == u.proc[r].chan;
        }
        WakeJoins(u, chan, k + 1, l, a);
      } else {
        WakeJoins(s, chan, k + 1, l, a);
      }
    }
  }

  lemma {:induction false} ReparentJoins(s: Sched, p: nat, k: nat, l: int)
    requires s.Shaped() && k <= 64 && 0 <= l < 4 && s.initproc.At? && SleptOnBy(s, OnProc(s.initproc.i), s.initproc.i)
    ensures JoinedBy(s.q[l], Reparent(s, p, k).q[l], s.initproc.i)
    decreases 64 - k
  {
    hide Wake;
    if k < 64 {
      if s.proc[k].parent == At(p) {
        var i := s.initproc.i;
        var t, u := s.(proc := s.proc[k := s.proc[k].(parent := s.initproc)]), AdoptOne(s, p, k);
        assert SleptOnBy(t, OnProc(i), i);
        WakeJoins(t, OnProc(i), 0, l, i);
        ReparentUnfold(s, p, k);
        forall r | 0 <= r < 64 ensures Wakes(u.proc[r], OnProc(i)) ==> Wakes(s.proc[r], OnProc(i)) {
          AdoptOneRows(s, p, k, r);
          assert Row(u.proc[r]).state == u.proc[r].state && Row(u.proc[r]).chan == u.proc[r].chan;
        }
        ReparentJoins(u, p, k + 1, l);
      } else {
        ReparentJoins(s, p, k + 1, l);
      }
    }
  }

  lemma ExitQueues(s: Sched, p: nat, l: int)
    requires Enabled(s, Exits(p)) && 0 <= l < 4
    ensures s.initproc.At? && Exit(s, p).Shaped()
    ensures var t := Exit(s, p);
            s.q[l] <= t.q[l] && ParentFirst(t.q[l], |s.q[l]|, s.proc[p].parent)
  {
    hide Wake, Reparent, QueueOk, AllQueued, Fifo, PidsOk;
    ExitStep(s, p);
    var chan := ChanOf(s.proc[p].parent);
    var w := Wake(s, chan, 0);
    WakeInit(s, chan, 0);
    WakeRows(s, chan, 0);
    ParentSleeps(s, w, p);
    WakeJoins(s, chan, 0, l, s.proc[p].parent.i);
    ReparentJoins(w, p, 0, l);
    WakeupKeeps(s, chan);
    hide Family, Distinct;
    var t := Exit(s, p);
    AllDistinct(w, l);
    AllDistinct(t, l);
    TwoJoined(s.q[l], w.q[l], t.q[l], s.proc[p].parent.i, s.initproc.i);
  }

  lemma AllDistinct(t: Sched, l: int)
    requires Queues(t) && 0 <= l < 4
    ensures Distinct(t.q[l])
  {
    assert QueueOk(t, l);
  }

  lemma JoinedTwice(L: seq<nat>, M: seq<nat>, a: nat)
    requires JoinedBy(L, M, a) && |M| >= |L| + 2
    ensures !Distinct(M)
  {
    assert M[|L|] == M[|L| + 1];
  }

  lemma TwoJoined(L: seq<nat>, M: seq<nat>, N: seq<nat>, a: nat, b: nat)
    requires JoinedBy(L, M, a) && JoinedBy(M, N, b) && Distinct(M) && Distinct(N)
    ensures L <= N && ParentFirst(N, |L|, At(a))
  {
    hide Distinct;
    if |M| >= |L| + 2 { JoinedTwice(L, M, a); }
    if |N| >= |M| + 2 { JoinedTwice(M, N, b); }
  }

  lemma ParentSleeps(s: Sched, w: Sched, p: nat)
    requires Family(s) && Running(s, p) && s.initproc.At? && s.initproc != At(p)
    requires WakesAll(s, w, ChanOf(s.proc[p].parent), 0)
    ensures s.proc[p].parent.At? && SleptOnBy(s, ChanOf(s.proc[p].parent), s.proc[p].parent.i)
    ensures SleptOnBy(w, OnProc(s.initproc.i), s.initproc.i)
  {
    forall r | 0 <= r < 64 ensures Wakes(w.proc[r], OnProc(s.initproc.i)) ==> r == s.initproc.i {
      assert Row(w.proc[r]).state == w.proc[r].state && Row(w.proc[r]).chan == w.proc[r].chan;
    }
  }

  lemma ExitEffect(s: Sched, p: nat)
    requires Enabled(s, Exits(p))
    ensures s.initproc.At? && Effect(s, Exits(p), Exit(s, p))
  {
    hide Exit, Row, Left, ParentFirst, Inv;
    InvShaped(s);
    ExitRows(s, p, 0);
    forall r | 0 <= r < 64 ensures Row(Exit(s, p).proc[r]) == Row(Left(s, p, r)) { ExitRows(s, p, r); }
    forall l | 0 <= l < 4
      ensures Exit(s, p).Shaped() && s.q[l] <= Exit(s, p).q[l]
      ensures ParentFirst(Exit(s, p).q[l], |s.q[l]|, s.proc[p].parent)
    {
      ExitQueues(s, p, l);
    }
    ExitQueues(s, p, 0);
  }

  lemma InvShaped(s: Sched)
    requires Inv(s)
    ensures s.Shaped()
  {
    hide QueueOk, AllQueued, Fifo, PidsOk, Family;
  }

  // ----- the other steps

  lemma ClaimEffect(s: Sched, owner: Ptr)
    requires s.Shaped()
    ensures Claims(s, if owner == Null then AllocInit(s) else Alloc(s, owner), owner)
  {
    hide FirstUnused;
    var k := FirstUnused(s, 0);
    assert k < 64 ==> LowestUnused(s, k);
  }

  lemma KillMarks(s: Sched, pid: int)
    requires s.Shaped()
    ensures Marks(s, Kill(s, pid), pid)
  {
    hide FindPid, MakeRunnable;
    var k := FindPid(s, pid, 0);
    FindsLowest(s, pid, 0);
    if k < 64 && s.proc[k].state == SLEEPING {
      var t := s.(proc := s.proc[k := s.proc[k].(killed := true)]);
      RunnableEffect(t, k, s.proc[k].level);
      OnlyTwice(s, t, Kill(s, pid), k, s.proc[k].(killed := true, state := RUNNABLE));
    }
  }

  lemma {:induction false} FindsLowest(s: Sched, pid: int, k: nat)
    requires |s.proc| == 64 && k <= 64
    ensures forall i :: k <= i < FindPid(s, pid, k) ==> s.proc[i].pid != pid
    decreases 64 - k
  {
    if k < 64 && s.proc[k].pid != pid { FindsLowest(s, pid, k + 1); }
  }

  lemma OnlyTwice(s: Sched, t: Sched, u: Sched, p: nat, x: Proc)
    requires |s.proc| == |t.proc| == 64 && p < 64 && t == s.(proc := s.proc[p := t.proc[p]]) && Only(t, u, p, x)
    ensures Only(s, u, p, x)
  {
  }

  lemma WaitEffect(s: Sched, p: nat)
    requires s.Shaped() && p < 64
    ensures Reaps(s, Wait(s, p), p)
  {
    hide FirstZombie;
    var z := FirstZombie(s, p, 0);
    assert z < 64 ==> LowestZombie(s, p, z);
  }

  lemma PublishEffect(s: Sched, k: nat)
    requires s.Shaped() && k < 64
    ensures Effect(s, Publish(k), ForkDone(s, k))
  {
    hide MakeRunnable;
    var t := s.(proc := s.proc[k := s.proc[k].(forker := Null)]);
    RunnableEffect(t, k, 0);
    OnlyTwice(s, t, ForkDone(s, k), k, s.proc[k].(state := RUNNABLE, level := 0, forker := Null));
  }

  lemma YieldEffect(s: Sched, p: nat)
    requires s.Shaped() && p < 64
    ensures Effect(s, Yields(p), Yield(s, p))
  {
    hide MakeRunnable;
    RunnableEffect(s, p, if s.proc[p].level == 3 then 3 else s.proc[p].level + 1);
  }

  lemma RunEffect(s: Sched, l: int)
    requires Enabled(s, Runs(l))
    ensures s.proc[s.mlf[l].first.i].level == l && s.q[l] != [] && Effect(s, Runs(l), Dispatch(s, l))
  {
    HeadIsRunnable(s, l);
  }

  /** Every locked region has the effect written down for it, field by field. */
  lemma StepEffect(s: Sched, e: Step)
    requires Enabled(s, e)
    ensures Effect(s, e, Next(s, e))
  {
    hide Inv, Claims, Marks, Reaps, Leaves, WakesAll, JoinInOrder, Joins;
    hide Alloc, AllocInit, ForkDone, Yield, Wake, Kill, Exit, Wait, Dispatch;
    InvShaped(s);
    match e
    case UserInit => ClaimEffect(s, Null);
    case AllocProc(p) => ClaimEffect(s, At(p));
    case Publish(k) => PublishEffect(s, k);
    case Yields(p) => YieldEffect(s, p);
    case Wakeup(chan) => WakeupEffect(s, chan);
    case Kills(pid) => KillMarks(s, pid);
    case Exits(p) => ExitEffect(s, p);
    case Waits(p) => WaitEffect(s, p);
    case Runs(l) => RunEffect(s, l);
    case _ =>
  }

  /** The locked region e, when it can run, takes s to t, with the effect written down for it. */
  ghost predicate Stepped(s: Sched, e: Step, t: Sched) {
    Enabled(s, e) && t == Next(s, e) && Effect(s, e, t)
  }

  lemma StepTaken(s: Sched, e: Step)
    requires Enabled(s, e)
    ensures Inv(Next(s, e)) && Stepped(s, e, Next(s, e))
  {
    hide Inv, Next, Effect;
    NextKeeps(s, e);
    StepEffect(s, e);
  }

  // ----- whole runs

  /** A call that takes a step from a reached state reaches the extended history's state. */
  lemma StepExtends(h: History, e: Step, t: Sched)
    requires Legal(h) && Stepped(State(h), e, t)
    ensures Legal(Then(h, e)) && State(Then(h, e)) == t && Inv(t)
  {
    hide Inv, Next, Effect;
    NextKeeps(State(h), e);
  }

  /** A process that is woken moves up one level; any other keeps its level. */
  predicate WakesUp(s: Sched, t: Sched, r: nat) {
    && r < |s.proc| && r < |t.proc|
    && (if s.proc[r].state == SLEEPING && t.proc[r].state == RUNNABLE
        then t.proc[r].level == if s.proc[r].level == 0 then 0 else s.proc[r].level - 1
        else t.proc[r].level == s.proc[r].level)
    && (s.proc[r].state != SLEEPING ==> t.proc[r].state == s.proc[r].state)
    && (s.proc[r].state == SLEEPING ==> t.proc[r].state == SLEEPING || t.proc[r].state == RUNNABLE)
  }

  /** The multi-level feedback policy: a new process starts at level 0, one that uses up its turn goes down one level
      to at most 3, one that is woken goes up one to at most 0, and nothing else but set_priority moves a process. */
  lemma StepLevels(s: Sched, e: Step, r: nat)
    requires Enabled(s, e) && r < 64
    ensures var t := Next(s, e);
            && |s.proc| == |t.proc| == 64
            && match e
               case Publish(k) => t.proc[r].level == if r == k then 0 else s.proc[r].level
               case Yields(k) => t.proc[r].level == if r != k then s.proc[r].level
                                                    else if s.proc[r].level == 3 then 3 else s.proc[r].level + 1
               case Wakeup(_) => WakesUp(s, t, r)
               case Exits(k) => if r == k then t.proc[r].level == s.proc[r].level else WakesUp(s, t, r)
               case SetsPriority(k, l) => t.proc[r].level == if r == k then l else s.proc[r].level
               case _ => t.proc[r].level == s.proc[r].level
  {
    hide Inv, Next, Claims, Marks, Reaps, ZombieFrom;
    InvShaped(s);
    StepEffect(s, e);
    var t := Next(s, e);
    match e
    case UserInit => ClaimedRow(s, t, Null, r);
    case AllocProc(p) => ClaimedRow(s, t, At(p), r);
    case Kills(pid) => MarkedRow(s, t, pid, r);
    case Waits(p) => ReapedRow(s, t, p, r);
    case _ => assert Row(t.proc[r]).level == t.proc[r].level;
  }

  lemma ClaimedRow(s: Sched, t: Sched, owner: Ptr, r: nat)
    requires s.Shaped() && Claims(s, t, owner) && r < 64
    ensures |t.proc| == 64 && t.proc[r].level == s.proc[r].level
    ensures s.proc[r].state != UNUSED ==> Row(t.proc[r]) == Row(s.proc[r])
  {
    var k := FirstUnused(s, 0);
    assert k < 64 ==> LowestUnused(s, k);
    assert k < 64 ==> Row(t.proc[r]).level == t.proc[r].level;
  }

  lemma MarkedRow(s: Sched, t: Sched, pid: int, r: nat)
    requires s.Shaped() && Marks(s, t, pid) && r < 64
    ensures |t.proc| == 64 && t.proc[r].level == s.proc[r].level
    ensures s.proc[r].pid != pid ==> Row(t.proc[r]) == Row(s.proc[r])
  {
    var k := FindPid(s, pid, 0);
    FindsLowest(s, pid, 0);
    assert k < 64 ==> LowestPid(s, pid, k);
    assert k < 64 ==> Row(t.proc[r]).level == t.proc[r].level;
  }

  lemma ReapedRow(s: Sched, t: Sched, p: nat, r: nat)
    requires s.Shaped() && Reaps(s, t, p) && r < 64
    ensures |t.proc| == 64 && t.proc[r].level == s.proc[r].level
    ensures s.proc[r].state != ZOMBIE && r != p ==> Row(t.proc[r]) == Row(s.proc[r])
  {
    hide FirstZombie;
    var z := FirstZombie(s, p, 0);
    assert z < 64 ==> LowestZombie(s, p, z);
    assert Row(t.proc[r]).level == t.proc[r].level;
  }

  // ----- no wakeup is lost

  /** k continues h with steps that neither wake up chan nor kill pid. */
  ghost predicate Continues(h: History, k: History, chan: Chan, pid: int) {
    k == h || (k.Then? && Continues(h, k.before, chan, pid) && k.e != Wakeup(chan) && k.e != Kills(pid))
  }

  /** A process asleep on chan, but for its parent and its queue link. */
  function Asleep(x: Proc): Proc {
    x.(parent := Null, next := Null)
  }

  lemma HeadRuns(s: Sched, l: int)
    requires Enabled(s, Runs(l))
    ensures 0 <= l < |s.q| && s.q[l] != [] && s.q[l][0] < |s.proc| && s.proc[s.q[l][0]].state == RUNNABLE
  {
    HeadIsRunnable(s, l);
  }

  lemma SleepsThrough(s: Sched, e: Step, p: nat)
    requires Enabled(s, e) && p < 64 && |s.proc| == 64 && s.proc[p].state == SLEEPING && !s.proc[p].chan.OnProc?
    requires e != Wakeup(s.proc[p].chan) && e != Kills(s.proc[p].pid)
    ensures |Next(s, e).proc| == 64 && Asleep(Next(s, e).proc[p]) == Asleep(s.proc[p])
  {
    hide Inv, Next, Claims, Marks, Reaps, Roused, ZombieFrom;
    InvShaped(s);
    StepEffect(s, e);
    var t := Next(s, e);
    match e
    case UserInit => ClaimedRow(s, t, Null, p);
    case AllocProc(q) => ClaimedRow(s, t, At(q), p);
    case Kills(pid) => MarkedRow(s, t, pid, p);
    case Waits(q) => ReapedRow(s, t, q, p);
    case Runs(l) => HeadRuns(s, l);
    case _ => assert Row(t.proc[p]).(parent := Null) == Asleep(t.proc[p]);
  }

  /** Nothing else wakes it. */
  lemma {:induction false} StaysAsleep(h: History, k: History, p: nat)
    requires Legal(k) && p < 64 && |State(h).proc| == 64
    requires State(h).proc[p].state == SLEEPING && !State(h).proc[p].chan.OnProc?
    requires Continues(h, k, State(h).proc[p].chan, State(h).proc[p].pid)
    ensures |State(k).proc| == 64 && Asleep(State(k).proc[p]) == Asleep(State(h).proc[p])
  {
    hide Inv, Next;
    if k != h {
      StaysAsleep(h, k.before, p);
      Reachable(k.before);
      var x, y := State(h).proc[p], State(k.before).proc[p];
      assert Asleep(y).state == y.state && Asleep(y).chan == y.chan && Asleep(y).pid == y.pid;
      SleepsThrough(State(k.before), k.e, p);
    }
  }

  /** No wakeup is lost: a process that goes to sleep on chan is still asleep there after any steps that do not wake
      up chan or kill it, at the same level; the next wakeup of chan makes it RUNNABLE and queues it one level up. */
  lemma NoLostWakeup(h: History, k: History, p: nat, chan: Chan)
    requires Legal(Then(h, Sleeps(p, chan))) && Legal(k) && p < 64 && |State(h).proc| == 64
    requires Continues(Then(h, Sleeps(p, chan)), k, chan, State(h).proc[p].pid)
    ensures var x, s, t := State(h).proc[p], State(k), State(Then(k, Wakeup(chan)));
            var l := if x.level == 0 then 0 else x.level - 1;
            && |s.proc| == |t.proc| == 64 && Legal(Then(k, Wakeup(chan)))
            && Asleep(s.proc[p]) == Asleep(x.(state := SLEEPING, chan := chan))
            && Asleep(t.proc[p]) == Asleep(x.(state := RUNNABLE, chan := chan, level := l))
            && 0 <= l < |t.q| && p in t.q[l]
  {
    hide Inv, Next, WakesAll, JoinInOrder;
    var g := Then(h, Sleeps(p, chan));
    Reachable(h);
    StepEffect(State(h), Sleeps(p, chan));
    var y := State(g).proc[p];
    assert Row(y) == Row(State(h).proc[p].(state := SLEEPING, chan := chan));
    assert Row(y).state == y.state && Row(y).chan == y.chan && Row(y).pid == y.pid && Row(y).level == y.level;
    StaysAsleep(g, k, p);
    Reachable(k);
    WakeFinds(State(k), p);
  }

  lemma WakeFinds(s: Sched, p: nat)
    requires Inv(s) && p < 64 && |s.proc| == 64 && s.proc[p].state == SLEEPING
    ensures var t, l := Next(s, Wakeup(s.proc[p].chan)), if s.proc[p].level == 0 then 0 else s.proc[p].level - 1;
            && |t.proc| == 64 && Row(t.proc[p]) == Row(s.proc[p].(state := RUNNABLE, level := l))
            && 0 <= l < |t.q| && p in t.q[l]
  {
    var e := Wakeup(s.proc[p].chan);
    StepEffect(s, e);
    NextKeeps(s, e);
    InvShaped(s);
    var t := Next(s, e);
    hide Next, Family, QueueOk, Fifo, PidsOk;
    assert Row(t.proc[p]).state == t.proc[p].state && Row(t.proc[p]).level == t.proc[p].level;
  }

  /** The exit of a child wakes its parent out of wait, one level up, and is there for it to find. */
  lemma ExitReachesParent(s: Sched, c: nat, p: nat)
    requires Enabled(s, Exits(c)) && |s.proc| == 64 && p < 64 && s.proc[c].parent == At(p)
    requires s.proc[p].state == SLEEPING && s.proc[p].chan == OnProc(p)
    ensures var t := Next(s, Exits(c));
            && |t.proc| == 64 && t.proc[p].state == RUNNABLE && t.proc[c].state == ZOMBIE && t.proc[c].parent == At(p)
            && t.proc[c].pid == s.proc[c].pid
            && t.proc[p].level == if s.proc[p].level == 0 then 0 else s.proc[p].level - 1
  {
    hide Next;
    StepEffect(s, Exits(c));
    InvParents(s, c);
    hide Inv, ZombieFrom;
    var t := Next(s, Exits(c));
    assert Row(t.proc[p]).state == t.proc[p].state && Row(t.proc[p]).level == t.proc[p].level;
    assert Row(t.proc[c]) == Row(Left(s, c, c)) && Row(t.proc[c]).state == t.proc[c].state
           && Row(t.proc[c]).parent == t.proc[c].parent && Row(t.proc[c]).pid == t.proc[c].pid;
  }

  lemma InvParents(s: Sched, c: nat)
    requires Inv(s) && c < 64
    ensures |s.proc| == 64 && s.proc[c].parent != At(c)
  {
    hide Queues, InitOk, NoLostExit;
  }
}
