/** Every run of the locked steps of proc.c, by any number of processes on any number of CPUs. */
module SchedRuns {
  import opened Lists
  import opened SchedState
  import opened SchedLife

  // ----- steps that only move live processes between SLEEPING, RUNNABLE and RUNNING

  predicate Awake(st: ProcState) {
    st == RUNNABLE || st == RUNNING
  }

  ghost predicate Moved(s: Sched, t: Sched) {
    && |t.proc| == |s.proc| && t.initproc == s.initproc
    && forall r :: 0 <= r < |s.proc| ==>
         && t.proc[r].parent == s.proc[r].parent && t.proc[r].forker == s.proc[r].forker
         && ((t.proc[r].state == s.proc[r].state && t.proc[r].chan == s.proc[r].chan)
             || ((Awake(s.proc[r].state) || s.proc[r].state == SLEEPING) && Awake(t.proc[r].state)))
  }

  lemma MovedFamily(s: Sched, t: Sched)
    requires Family(s) && Moved(s, t)
    ensures Family(t)
  {
    assert forall r :: Alive(s, r) ==> Alive(t, r);
    MovedParents(s, t);
    forall p, c | 0 <= p < NPROC && 0 <= c < NPROC && Wakes(t.proc[p], OnProc(p)) ensures !ZombieChild(t, p, c) {
      assert Wakes(s.proc[p], OnProc(p)) && !ZombieChild(s, p, c);
    }
  }

  lemma MovedParents(s: Sched, t: Sched)
    requires |s.proc| == NPROC && ParentsAlive(s) && InitOk(s) && Moved(s, t) && forall r :: Alive(s, r) ==> Alive(t, r)
    ensures ParentsAlive(t) && InitOk(t)
  {
  }

  lemma MakeRunnableMoves(s: Sched, p: nat, l: int)
    requires s.Shaped() && p < NPROC && 0 <= l < MLF_LEVELS && (Awake(s.proc[p].state) || s.proc[p].state == SLEEPING)
    ensures Moved(s, MakeRunnable(s, p, l))
  {
    forall r | 0 <= r < NPROC
      ensures MakeRunnable(s, p, l).proc[r].(next := Null) ==
              (if r == p then s.proc[p].(state := RUNNABLE, level := l, next := Null) else s.proc[r].(next := Null))
    {
      EncolarFields(s, p, l, r);
    }
  }

  /** A record without the fields that belong to the queues. */
  function Bare(x: Proc): Proc {
    x.(next := Null, level := 0)
  }

  /** Exactly the sleepers on chan from entry k on have become RUNNABLE. */
  ghost predicate Woken(s: Sched, t: Sched, chan: Chan, k: nat) {
    && |t.proc| == |s.proc| == NPROC && t.initproc == s.initproc
    && forall r :: 0 <= r < NPROC ==>
         Bare(t.proc[r]) == if r >= k && Wakes(s.proc[r], chan) then Bare(s.proc[r]).(state := RUNNABLE)
                            else Bare(s.proc[r])
  }

  lemma {:induction false} WakeEffect(s: Sched, chan: Chan, k: nat)
    requires Queues(s) && k <= NPROC
    ensures Queues(Wake(s, chan, k)) && Woken(s, Wake(s, chan, k), chan, k)
    decreases NPROC - k
  {
    hide QueueOk, AllQueued, Fifo, PidsOk, MakeRunnable, Woken;
    if k == NPROC {
      WokenSkip(s, s, chan, k);
    } else if Wakes(s.proc[k], chan) {
      var l := Up(s.proc[k].level);
      var t := MakeRunnable(s, k, l);
      MakeRunnableKeeps(s, k, l);
      WakeEffect(t, chan, k + 1);
      WokenStep(s, t, Wake(t, chan, k + 1), chan, k, l);
    } else {
      WakeEffect(s, chan, k + 1);
      WokenSkip(s, Wake(s, chan, k + 1), chan, k);
    }
  }

  lemma WokenSkip(s: Sched, t: Sched, chan: Chan, k: nat)
    requires s.Shaped() && k <= NPROC
    requires if k == NPROC then t == s else !Wakes(s.proc[k], chan) && Woken(s, t, chan, k + 1)
    ensures Woken(s, t, chan, k)
  {
  }

  lemma WokenStep(s: Sched, t: Sched, u: Sched, chan: Chan, k: nat, l: int)
    requires s.Shaped() && k < NPROC && Wakes(s.proc[k], chan) && 0 <= l < MLF_LEVELS && t == MakeRunnable(s, k, l)
    requires Woken(t, u, chan, k + 1)
    ensures Woken(s, u, chan, k)
  {
    hide MakeRunnable;
    MakeRunnableInit(s, k, l);
    forall r | 0 <= r < NPROC
      ensures Bare(u.proc[r]) == if r >= k && Wakes(s.proc[r], chan) then Bare(s.proc[r]).(state := RUNNABLE)
                                 else Bare(s.proc[r])
    {
      EncolarFields(s, k, l, r);
    }
  }

  lemma MakeRunnableInit(s: Sched, p: nat, l: int)
    requires s.Shaped() && p < NPROC && 0 <= l < MLF_LEVELS
    ensures MakeRunnable(s, p, l).initproc == s.initproc && |MakeRunnable(s, p, l).proc| == NPROC
  {
  }

  lemma WokenMoves(s: Sched, t: Sched, chan: Chan, k: nat)
    requires Woken(s, t, chan, k)
    ensures Moved(s, t)
    ensures forall r :: k <= r < NPROC ==> !Wakes(t.proc[r], chan)
  {
    forall r | 0 <= r < NPROC ensures
      Bare(t.proc[r]) == if r >= k && Wakes(s.proc[r], chan) then Bare(s.proc[r]).(state := RUNNABLE)
                         else Bare(s.proc[r]) {}
  }

  // ----- exit

  /** exit's loop from entry k on: the children of p have moved to init; if one of them was a zombie,
      init is not asleep in wait any more. */
  ghost predicate Adopted(s: Sched, t: Sched, p: nat, k: nat) {
    && |t.proc| == |s.proc| == NPROC && t.initproc == s.initproc && s.initproc.At?
    && (forall r :: 0 <= r < NPROC ==>
          && t.proc[r].parent == (if r >= k && s.proc[r].parent == At(p) then s.initproc else s.proc[r].parent)
          && t.proc[r].forker == s.proc[r].forker && t.proc[r].chan == s.proc[r].chan
          && (|| t.proc[r].state == s.proc[r].state
              || (Wakes(s.proc[r], OnProc(s.initproc.i)) && t.proc[r].state == RUNNABLE)))
    && ((exists r :: k <= r < NPROC && ZombieChild(s, p, r)) ==>
          forall r :: 0 <= r < NPROC ==> !Wakes(t.proc[r], OnProc(s.initproc.i)))
  }

  /** One entry of the loop. */
  function AdoptOne(s: Sched, p: nat, k: nat): (t: Sched)
    requires s.Shaped() && k < NPROC && s.initproc.At? && s.proc[k].parent == At(p)
    ensures t.Shaped()
  {
    var t := s.(proc := s.proc[k := s.proc[k].(parent := s.initproc)]);
    if s.proc[k].state == ZOMBIE then Wake(t, OnProc(s.initproc.i), 0) else t
  }

  lemma AdoptOneEffect(s: Sched, p: nat, k: nat)
    requires Queues(s) && k < NPROC && s.initproc.At? && s.proc[k].parent == At(p)
    ensures var t := AdoptOne(s, p, k);
            && Queues(t) && t.initproc == s.initproc
            && (forall r :: 0 <= r < NPROC ==>
                  && t.proc[r].parent == (if r == k then s.initproc else s.proc[r].parent)
                  && t.proc[r].forker == s.proc[r].forker && t.proc[r].chan == s.proc[r].chan
                  && (|| t.proc[r].state == s.proc[r].state
                      || (Wakes(s.proc[r], OnProc(s.initproc.i)) && t.proc[r].state == RUNNABLE)))
            && (s.proc[k].state == ZOMBIE ==> forall r :: 0 <= r < NPROC ==> !Wakes(t.proc[r], OnProc(s.initproc.i)))
  {
    hide QueueOk, AllQueued, Fifo, PidsOk, Wake;
    var x := s.proc[k].(parent := s.initproc);
    ReplaceOther(s, k, x);
    var u := s.(proc := s.proc[k := x]);
    if s.proc[k].state == ZOMBIE {
      var chan := OnProc(s.initproc.i);
      WakeEffect(u, chan, 0);
      WokenMoves(u, Wake(u, chan, 0), chan, 0);
      forall r | 0 <= r < NPROC
        ensures Bare(Wake(u, chan, 0).proc[r]) ==
                if Wakes(u.proc[r], chan) then Bare(u.proc[r]).(state := RUNNABLE) else Bare(u.proc[r]) {}
    }
  }

  lemma {:induction false} ReparentEffect(s: Sched, p: nat, k: nat)
    requires Queues(s) && k <= NPROC && s.initproc.At? && s.initproc != At(p)
    ensures Queues(Reparent(s, p, k)) && Adopted(s, Reparent(s, p, k), p, k)
    decreases NPROC - k
  {
    hide QueueOk, AllQueued, Fifo, PidsOk, Wake;
    if k < NPROC {
      if s.proc[k].parent == At(p) {
        AdoptOneEffect(s, p, k);
        var t := AdoptOne(s, p, k);
        ReparentEffect(t, p, k + 1);
        ReparentUnfold(s, p, k);
        AdoptedStep(s, t, Reparent(t, p, k + 1), p, k);
      } else {
        ReparentEffect(s, p, k + 1);
      }
    }
  }

  lemma ReparentUnfold(s: Sched, p: nat, k: nat)
    requires s.Shaped() && k < NPROC && s.initproc.At? && s.proc[k].parent == At(p)
    ensures AdoptOne(s, p, k).initproc == s.initproc
    ensures Reparent(s, p, k) == Reparent(AdoptOne(s, p, k), p, k + 1)
  {
    WakeInit(s.(proc := s.proc[k := s.proc[k].(parent := s.initproc)]), OnProc(s.initproc.i), 0);
  }

  lemma AdoptedStep(s: Sched, t: Sched, u: Sched, p: nat, k: nat)
    requires s.Shaped() && k < NPROC && s.initproc.At? && s.initproc != At(p) && s.proc[k].parent == At(p)
    requires t.Shaped() && t.initproc == s.initproc && Adopted(t, u, p, k + 1)
    requires forall r :: 0 <= r < NPROC ==>
               && t.proc[r].parent == (if r == k then s.initproc else s.proc[r].parent)
               && t.proc[r].forker == s.proc[r].forker && t.proc[r].chan == s.proc[r].chan
               && (|| t.proc[r].state == s.proc[r].state
                   || (Wakes(s.proc[r], OnProc(s.initproc.i)) && t.proc[r].state == RUNNABLE))
    requires s.proc[k].state == ZOMBIE ==> forall r :: 0 <= r < NPROC ==> !Wakes(t.proc[r], OnProc(s.initproc.i))
    ensures Adopted(s, u, p, k)
  {
    var chan := OnProc(s.initproc.i);
    if z :| k <= z < NPROC && ZombieChild(s, p, z) {
      if z > k {
        assert ZombieChild(t, p, z);
      }
      forall r | 0 <= r < NPROC ensures !Wakes(u.proc[r], chan) {}
    }
  }

  /** Before p becomes a zombie: its children are init's, its parent is awake, the family is intact. */
  lemma AdoptedFamily(s: Sched, t: Sched, p: nat)
    requires Family(s) && Adopted(s, t, p, 0) && p < NPROC && s.initproc != At(p) && Alive(s, p)
    requires forall r :: 0 <= r < NPROC ==> s.proc[r].forker != At(p)
    ensures Family(t) && forall r :: 0 <= r < NPROC ==> t.proc[r].parent != At(p)
  {
    assert forall r :: Alive(s, r) ==> Alive(t, r);
    assert forall r :: 0 <= r < NPROC && s.proc[r].parent == At(p) ==> s.initproc != At(r);
    assert ParentsAlive(t) && InitOk(t);
    forall q, c | 0 <= q < NPROC && 0 <= c < NPROC && Wakes(t.proc[q], OnProc(q)) ensures !ZombieChild(t, q, c) {
      assert Wakes(s.proc[q], OnProc(q)) && !ZombieChild(s, q, c);
      assert s.proc[c].parent == At(p) && t.proc[c].state == ZOMBIE ==> ZombieChild(s, p, c);
    }
  }

  /** The final state change of exit. */
  lemma ZombieFamily(s: Sched, p: nat)
    requires Family(s) && p < NPROC && s.initproc != At(p) && s.proc[p].state == RUNNING
    requires forall r :: 0 <= r < NPROC ==> s.proc[r].parent != At(p) && s.proc[r].forker != At(p)
    requires forall r :: 0 <= r < NPROC ==> !Wakes(s.proc[r], ChanOf(s.proc[p].parent))
    ensures Family(SetState(s, p, ZOMBIE))
  {
    var t := SetState(s, p, ZOMBIE);
    assert forall r :: r != p && Alive(s, r) ==> Alive(t, r);
    assert ParentsAlive(t) && InitOk(t);
    forall q, c | 0 <= q < NPROC && 0 <= c < NPROC && Wakes(t.proc[q], OnProc(q)) ensures !ZombieChild(t, q, c) {
      assert Wakes(s.proc[q], OnProc(q)) && !ZombieChild(s, q, c);
    }
  }

  /** exit keeps the invariant. */
  lemma ExitKeeps(s: Sched, p: nat)
    requires Inv(s) && p < NPROC && s.proc[p].state == RUNNING && s.initproc != At(p)
    requires forall r :: 0 <= r < NPROC ==> s.proc[r].forker != At(p)
    ensures s.initproc.At? && Inv(Exit(s, p))
  {
    hide QueueOk, AllQueued, Fifo, PidsOk, Wake, Reparent;
    var chan := ChanOf(s.proc[p].parent);
    var t := Wake(s, chan, 0);
    WakeEffect(s, chan, 0);
    WokenMoves(s, t, chan, 0);
    MovedFamily(s, t);
    WokenSelf(s, t, chan, p);
    ReparentEffect(t, p, 0);
    var u := Reparent(t, p, 0);
    AdoptedFamily(t, u, p);
    AdoptedSelf(t, u, p, chan);
    ZombieFamily(u, p);
    ReplaceIdle(u, p, u.proc[p].(state := ZOMBIE), u.nextpid);
    WakeInit(s, chan, 0);
  }

  lemma WokenSelf(s: Sched, t: Sched, chan: Chan, p: nat)
    requires Woken(s, t, chan, 0) && p < NPROC && s.proc[p].state == RUNNING
    ensures t.proc[p].state == RUNNING && t.proc[p].parent == s.proc[p].parent
    ensures forall r :: 0 <= r < NPROC ==> t.proc[r].forker == s.proc[r].forker
  {
    assert Bare(t.proc[p]) == Bare(s.proc[p]);
    forall r | 0 <= r < NPROC
      ensures t.proc[r].forker == s.proc[r].forker
    {
      assert Bare(t.proc[r]).forker == s.proc[r].forker;
    }
  }

  lemma AdoptedSelf(s: Sched, t: Sched, p: nat, chan: Chan)
    requires Adopted(s, t, p, 0) && p < NPROC && s.proc[p].state == RUNNING && s.proc[p].parent != At(p)
    requires forall r :: 0 <= r < NPROC ==> !Wakes(s.proc[r], chan) && s.proc[r].forker != At(p)
    ensures t.proc[p].state == RUNNING && t.proc[p].parent == s.proc[p].parent
    ensures forall r :: 0 <= r < NPROC ==> !Wakes(t.proc[r], chan) && t.proc[r].forker != At(p)
  {
  }

  // ----- the other steps

  lemma AllocKeeps(s: Sched, owner: Ptr)
    requires Inv(s) && (owner.At? ==> Alive(s, owner.i))
    ensures Inv(Alloc(s, owner))
  {
    hide FirstUnused;
    var k := FirstUnused(s, 0);
    if k < NPROC {
      var x := s.proc[k].(state := EMBRYO, pid := s.nextpid, forker := owner);
      ReplaceIdle(s, k, x, s.nextpid + 1);
      AllocFamily(s, k, owner);
      hide Queues, Family;
      assert Alloc(s, owner) == s.(proc := s.proc[k := x], nextpid := s.nextpid + 1);
    }
  }

  lemma AllocFamily(s: Sched, k: nat, owner: Ptr)
    requires Family(s) && k < NPROC && s.proc[k].state == UNUSED && (owner.At? ==> Alive(s, owner.i))
    ensures Family(s.(proc := s.proc[k := s.proc[k].(state := EMBRYO, pid := s.nextpid, forker := owner)],
                      nextpid := s.nextpid + 1))
  {
    var t := s.(proc := s.proc[k := s.proc[k].(state := EMBRYO, pid := s.nextpid, forker := owner)],
                nextpid := s.nextpid + 1);
    assert forall r :: Alive(s, r) ==> Alive(t, r);
    forall q, c | 0 <= q < NPROC && 0 <= c < NPROC && Wakes(t.proc[q], OnProc(q)) ensures !ZombieChild(t, q, c) {
      assert Wakes(s.proc[q], OnProc(q)) && !ZombieChild(s, q, c);
    }
  }

  lemma AllocInitKeeps(s: Sched)
    requires Inv(s) && s.initproc == Null
    ensures Inv(AllocInit(s))
  {
    hide QueueOk, AllQueued, Fifo, PidsOk, FirstUnused;
    AllocKeeps(s, Null);
    var k := FirstUnused(s, 0);
    if k < NPROC {
      var t, u := Alloc(s, Null), AllocInit(s);
      InitQueues(t, At(k));
      assert ParentsAlive(u) && InitOk(u) && NoLostExit(u);
    }
  }

  lemma InitQueues(s: Sched, p: Ptr)
    requires Queues(s)
    ensures Queues(s.(initproc := p))
  {
    var t := s.(initproc := p);
    forall l | 0 <= l < MLF_LEVELS ensures QueueOk(t, l) { assert QueueOk(s, l); }
  }

  /** A change to entry k that leaves its liveness, parenthood and zombie status alone keeps the family of
      the others; what is left to show is about k itself. */
  lemma EntryFamily(s: Sched, k: nat, x: Proc)
    requires Family(s) && k < NPROC && s.proc[k].state != ZOMBIE && s.proc[k].state != UNUSED
    requires Living(x.state) || (s.proc[k].state == EMBRYO && x.state == EMBRYO)
    requires x.parent.At? ==> x.parent.i != k && Alive(s, x.parent.i)
    requires x.state != EMBRYO ==> x.forker == Null
    requires x.forker.At? ==> x.forker.i != k && Alive(s, x.forker.i)
    requires x.state == EMBRYO ==> x.parent == Null || x.parent == x.forker
    requires x.state != EMBRYO ==> s.initproc == At(k) || (s.initproc.At? && Alive(s, s.initproc.i) && x.parent.At?)
    requires s.initproc == At(k) ==> x.parent == Null
    requires x.state == SLEEPING && x.chan.OnProc? ==> x.chan == OnProc(k) && FirstZombie(s, k, 0) == NPROC
    ensures Family(s.(proc := s.proc[k := x]))
  {
    hide FirstZombie;
    var t := s.(proc := s.proc[k := x]);
    EntryParents(s, k, x);
    hide ParentsAlive, InitOk;
    forall q, c | 0 <= q < NPROC && 0 <= c < NPROC && Wakes(t.proc[q], OnProc(q)) ensures !ZombieChild(t, q, c) {
      if q != k { assert Wakes(s.proc[q], OnProc(q)); }
      assert !ZombieChild(s, q, c);
    }
  }

  lemma EntryParents(s: Sched, k: nat, x: Proc)
    requires |s.proc| == NPROC && ParentsAlive(s) && InitOk(s) && k < NPROC
    requires Living(x.state) || (s.proc[k].state == EMBRYO && x.state == EMBRYO)
    requires x.parent.At? ==> x.parent.i != k && Alive(s, x.parent.i)
    requires x.state != EMBRYO ==> x.forker == Null
    requires x.forker.At? ==> x.forker.i != k && Alive(s, x.forker.i)
    requires x.state == EMBRYO ==> x.parent == Null || x.parent == x.forker
    requires x.state != EMBRYO ==> s.initproc == At(k) || (s.initproc.At? && Alive(s, s.initproc.i) && x.parent.At?)
    requires s.initproc == At(k) ==> x.parent == Null
    ensures ParentsAlive(s.(proc := s.proc[k := x])) && InitOk(s.(proc := s.proc[k := x]))
  {
    var t := s.(proc := s.proc[k := x]);
    assert forall r :: Alive(s, r) ==> Alive(t, r);
  }

  lemma AllocFailKeeps(s: Sched, k: nat)
    requires Inv(s) && k < NPROC && s.proc[k].state == EMBRYO && s.proc[k].parent == Null && s.initproc != At(k)
    ensures Inv(AllocFail(s, k))
  {
    ReplaceIdle(s, k, s.proc[k].(state := UNUSED, forker := Null), s.nextpid);
    AllocFailFamily(s, k);
  }

  lemma AllocFailFamily(s: Sched, k: nat)
    requires Family(s) && k < NPROC && s.proc[k].state == EMBRYO && s.proc[k].parent == Null && s.initproc != At(k)
    ensures Family(AllocFail(s, k))
  {
    var t := AllocFail(s, k);
    assert forall r :: Alive(s, r) ==> r != k && Alive(t, r);
    assert ParentsAlive(t);
    assert InitOk(t);
    forall q, c | 0 <= q < NPROC && 0 <= c < NPROC && Wakes(t.proc[q], OnProc(q)) ensures !ZombieChild(t, q, c) {
      assert Wakes(s.proc[q], OnProc(q)) && !ZombieChild(s, q, c);
    }
  }

  lemma SetParentKeeps(s: Sched, k: nat)
    requires Inv(s) && k < NPROC && s.proc[k].state == EMBRYO && s.proc[k].forker.At? && s.initproc != At(k)
    ensures Inv(SetParent(s, k))
  {
    var x := s.proc[k].(parent := s.proc[k].forker);
    ReplaceIdle(s, k, x, s.nextpid);
    hide Queues;
    EntryFamily(s, k, x);
  }

  lemma ForkDoneKeeps(s: Sched, k: nat)
    requires Inv(s) && k < NPROC && s.proc[k].state == EMBRYO
    requires s.initproc == At(k) || (s.initproc.At? && Alive(s, s.initproc.i) && s.proc[k].parent.At?)
    ensures Inv(ForkDone(s, k))
  {
    var x := s.proc[k].(forker := Null);
    var t := s.(proc := s.proc[k := x]);
    ReplaceIdle(s, k, x, s.nextpid);
    MakeRunnableKeeps(t, k, 0);
    var y := x.(state := RUNNABLE);
    var u := s.(proc := s.proc[k := y]);
    hide Queues;
    EntryFamily(s, k, y);
    forall r | 0 <= r < NPROC ensures Bare(MakeRunnable(t, k, 0).proc[r]) == Bare(u.proc[r]) {
      EncolarFields(t, k, 0, r);
    }
    MakeRunnableInit(t, k, 0);
    BareMoves(u, MakeRunnable(t, k, 0));
    MovedFamily(u, MakeRunnable(t, k, 0));
  }

  lemma BareMoves(s: Sched, t: Sched)
    requires |s.proc| == |t.proc| == NPROC && s.initproc == t.initproc
    requires forall r :: 0 <= r < NPROC ==> Bare(t.proc[r]) == Bare(s.proc[r])
    ensures Moved(s, t)
  {
    forall r | 0 <= r < NPROC ensures t.proc[r].parent == s.proc[r].parent && t.proc[r].forker == s.proc[r].forker
      && t.proc[r].state == s.proc[r].state && t.proc[r].chan == s.proc[r].chan
    {
      assert Bare(t.proc[r]) == Bare(s.proc[r]);
    }
  }

  lemma YieldKeeps(s: Sched, p: nat)
    requires Inv(s) && p < NPROC && s.proc[p].state == RUNNING
    ensures Inv(Yield(s, p))
  {
    MakeRunnableKeeps(s, p, Down(s.proc[p].level));
    MakeRunnableMoves(s, p, Down(s.proc[p].level));
    hide Queues;
    MovedFamily(s, Yield(s, p));
  }

  lemma SleepKeeps(s: Sched, p: nat, chan: Chan)
    requires Inv(s) && p < NPROC && s.proc[p].state == RUNNING && !chan.OnProc?
    ensures Inv(Sleep(s, p, chan))
  {
    var x := s.proc[p].(state := SLEEPING, chan := chan);
    ReplaceIdle(s, p, x, s.nextpid);
    hide Queues;
    EntryFamily(s, p, x);
  }

  lemma WakeupKeeps(s: Sched, chan: Chan)
    requires Inv(s)
    ensures Inv(Wake(s, chan, 0))
  {
    hide QueueOk, AllQueued, Fifo, PidsOk, Wake;
    WakeEffect(s, chan, 0);
    WokenMoves(s, Wake(s, chan, 0), chan, 0);
    MovedFamily(s, Wake(s, chan, 0));
  }

  lemma KillKeeps(s: Sched, pid: int)
    requires Inv(s)
    ensures Inv(Kill(s, pid))
  {
    hide FindPid;
    var k := FindPid(s, pid, 0);
    if k < NPROC {
      var t := s.(proc := s.proc[k := s.proc[k].(killed := true)]);
      ReplaceOther(s, k, s.proc[k].(killed := true));
      MovedFamily(s, t);
      if s.proc[k].state == SLEEPING {
        MakeRunnableKeeps(t, k, s.proc[k].level);
        MakeRunnableMoves(t, k, s.proc[k].level);
        MovedFamily(t, MakeRunnable(t, k, s.proc[k].level));
      }
    }
  }

  lemma WaitKeeps(s: Sched, p: nat)
    requires Inv(s) && p < NPROC && s.proc[p].state == RUNNING
    ensures Inv(Wait(s, p))
  {
    hide FirstZombie;
    var z := FirstZombie(s, p, 0);
    if z < NPROC {
      ReplaceIdle(s, z, s.proc[z].(state := UNUSED, pid := 0, parent := Null, killed := false), s.nextpid);
      hide Queues;
      ReapFamily(s, z);
    } else {
      WaitSleepKeeps(s, p);
    }
  }

  /** Going to sleep in wait, having found no zombie child. */
  lemma WaitSleepKeeps(s: Sched, p: nat)
    requires Inv(s) && p < NPROC && s.proc[p].state == RUNNING && FirstZombie(s, p, 0) == NPROC
    ensures Inv(Sleep(s, p, OnProc(p)))
  {
    hide FirstZombie;
    var x := s.proc[p].(state := SLEEPING, chan := OnProc(p));
    ReplaceIdle(s, p, x, s.nextpid);
    EntryFamily(s, p, x);
  }

  lemma ReapFamily(s: Sched, z: nat)
    requires Family(s) && z < NPROC && s.proc[z].state == ZOMBIE
    ensures Family(s.(proc := s.proc[z := s.proc[z].(state := UNUSED, pid := 0, parent := Null, killed := false)]))
  {
    var t := s.(proc := s.proc[z := s.proc[z].(state := UNUSED, pid := 0, parent := Null, killed := false)]);
    assert forall r :: Alive(s, r) ==> r != z && Alive(t, r);
    forall q, c | 0 <= q < NPROC && 0 <= c < NPROC && Wakes(t.proc[q], OnProc(q)) ensures !ZombieChild(t, q, c) {
      assert Wakes(s.proc[q], OnProc(q)) && !ZombieChild(s, q, c);
    }
  }

  lemma DispatchInv(s: Sched, l: int)
    requires Inv(s) && 0 <= l < MLF_LEVELS && s.mlf[l].first.At?
    ensures s.proc[s.mlf[l].first.i].level == l && s.q[l] != [] && Inv(Dispatch(s, l))
  {
    DispatchKeeps(s, l);
    HeadIsRunnable(s, l);
    hide Queues;
    MovedFamily(s, Dispatch(s, l));
  }

  lemma SetPriorityKeeps(s: Sched, p: nat, l: int)
    requires Inv(s) && p < NPROC && s.proc[p].state == RUNNING && 0 <= l < MLF_LEVELS
    ensures Inv(SetPriority(s, p, l))
  {
    ReplaceIdle(s, p, s.proc[p].(level := l), s.nextpid);
    hide Queues;
    MovedFamily(s, SetPriority(s, p, l));
  }

  /** set_priority does not check its argument, so it keeps the invariant exactly for the existing levels. */
  lemma SetPriorityIffLevel(s: Sched, p: nat, l: int)
    requires Inv(s) && p < NPROC && s.proc[p].state == RUNNING
    ensures Inv(SetPriority(s, p, l)) <==> 0 <= l < MLF_LEVELS
  {
    if 0 <= l < MLF_LEVELS { SetPriorityKeeps(s, p, l); }
    hide Family, QueueOk, AllQueued, Fifo, PidsOk;
    assert SetPriority(s, p, l).proc[p].level == l;
  }

  /** What the unchecked level does next: yield, wakeup and kill index inside mlf exactly for these. */
  lemma LevelAccess(s: Sched, p: nat, l: int)
    requires p < |s.proc|
    ensures var level := SetPriority(s, p, l).proc[p].level;
            && (0 <= Down(level) < MLF_LEVELS <==> -1 <= l <= 3)
            && (0 <= Up(level) < MLF_LEVELS <==> 0 <= l <= 4)
            && (0 <= level < MLF_LEVELS <==> 0 <= l <= 3)
  {
  }

  // ----- whole runs

  datatype Step =
    | UserInit
    | AllocProc(p: nat)
    | GiveUp(k: nat)
    | Adopt(k: nat)
    | Publish(k: nat)
    | Yields(p: nat)
    | Sleeps(p: nat, chan: Chan)
    | Wakeup(chan: Chan)
    | Kills(pid: int)
    | Exits(p: nat)
    | Waits(p: nat)
    | Runs(level: int)
    | SetsPriority(p: nat, level: int)

  /** When a locked region can run: a system call is made by a RUNNING process that is not inside fork;
      only wait sleeps on a process; a priority is one of the levels. */
  ghost predicate Guard(s: Sched, e: Step) {
    match e
    case UserInit => s.initproc == Null
    case AllocProc(p) => Running(s, p)
    case GiveUp(k) => k < |s.proc| && s.proc[k].state == EMBRYO && s.proc[k].parent == Null && s.initproc != At(k)
    case Adopt(k) => k < |s.proc| && s.proc[k].state == EMBRYO && s.proc[k].forker.At? && s.initproc != At(k)
    case Publish(k) => k < |s.proc| && s.proc[k].state == EMBRYO && (s.initproc == At(k) || s.proc[k].parent.At?)
    case Yields(p) => Running(s, p)
    case Sleeps(p, chan) => Running(s, p) && !chan.OnProc?
    case Wakeup(chan) => true
    case Kills(pid) => true
    case Exits(p) => Running(s, p) && s.initproc != At(p) && NotForking(s, p)
    case Waits(p) => Running(s, p)
    case Runs(level) => 0 <= level < |s.mlf| && s.mlf[level].first.At?
    case SetsPriority(p, level) => Running(s, p) && 0 <= level < MLF_LEVELS
  }

  ghost predicate Enabled(s: Sched, e: Step) {
    Inv(s) && Guard(s, e)
  }

  predicate Running(s: Sched, p: nat) {
    p < |s.proc| == NPROC && s.proc[p].state == RUNNING
  }

  ghost predicate NotForking(s: Sched, p: nat) {
    forall r :: 0 <= r < |s.proc| ==> s.proc[r].forker != At(p)
  }

  /** What the invariant gives the steps that need more than their own guard. */
  lemma InitAlive(s: Sched, p: nat)
    requires Inv(s) && p < NPROC && (Living(s.proc[p].state) || s.proc[p].parent.At?)
    ensures s.initproc.At? && Alive(s, s.initproc.i)
  {
    if !Living(s.proc[p].state) { assert Alive(s, s.proc[p].parent.i); }
  }

  /** A locked region as a step; it is described in states that meet the invariant, and Reachable shows that
      runs never leave those. */
  ghost function Next(s: Sched, e: Step): Sched {
    if !Enabled(s, e) then s else
    match e
    case UserInit => AllocInit(s)
    case AllocProc(p) => Alloc(s, At(p))
    case GiveUp(k) => AllocFail(s, k)
    case Adopt(k) => SetParent(s, k)
    case Publish(k) => ForkDone(s, k)
    case Yields(p) => Yield(s, p)
    case Sleeps(p, chan) => Sleep(s, p, chan)
    case Wakeup(chan) => Wake(s, chan, 0)
    case Kills(pid) => Kill(s, pid)
    case Exits(p) => InitAlive(s, p); Exit(s, p)
    case Waits(p) => Wait(s, p)
    case Runs(level) => HeadIsRunnable(s, level); Dispatch(s, level)
    case SetsPriority(p, level) => SetPriority(s, p, level)
  }

  lemma InvSizes(s: Sched)
    requires Inv(s)
    ensures |s.proc| == NPROC && |s.mlf| == MLF_LEVELS
  {
    hide QueueOk, AllQueued, Fifo, PidsOk, Family;
  }

  lemma NextKeeps(s: Sched, e: Step)
    requires Enabled(s, e)
    ensures Inv(Next(s, e))
  {
    hide Queues, Family, Wake, Reparent, Dispatch, Kill, Wait, Alloc, MakeRunnable, Exit, ForkDone;
    InvSizes(s);
    match e
    case UserInit => AllocInitKeeps(s);
    case AllocProc(p) => AllocKeeps(s, At(p));
    case GiveUp(k) => AllocFailKeeps(s, k);
    case Adopt(k) => SetParentKeeps(s, k);
    case Publish(k) => PublishKeeps(s, k);
    case Yields(p) => YieldKeeps(s, p);
    case Sleeps(p, chan) => SleepKeeps(s, p, chan);
    case Wakeup(chan) => WakeupKeeps(s, chan);
    case Kills(pid) => KillKeeps(s, pid);
    case Exits(p) => ExitStep(s, p);
    case Waits(p) => WaitKeeps(s, p);
    case Runs(level) => DispatchInv(s, level);
    case SetsPriority(p, level) => SetPriorityKeeps(s, p, level);
  }

  lemma PublishKeeps(s: Sched, k: nat)
    requires Enabled(s, Publish(k))
    ensures Inv(ForkDone(s, k))
  {
    hide Queues;
    if s.initproc != At(k) { InitAlive(s, k); }
    ForkDoneKeeps(s, k);
  }

  lemma ExitStep(s: Sched, p: nat)
    requires Enabled(s, Exits(p))
    ensures s.initproc.At? && Inv(Exit(s, p))
  {
    hide Queues, Exit;
    InitAlive(s, p);
    ExitKeeps(s, p);
  }

  /** The machine at boot: ptable is zeroed and nextpid is 1. */
  function BootState(): Sched {
    Sched(seq(NPROC, _ => Proc(UNUSED, 0, Null, NoChan, false, 0, Null, Null)),
          seq(MLF_LEVELS, _ => Queue(Null, Null, 0)), 0, 1, Null,
          seq(MLF_LEVELS, _ => []), seq(MLF_LEVELS, _ => []), seq(MLF_LEVELS, _ => []))
  }

  lemma BootInv()
    ensures Inv(BootState())
  {
    var s := BootState();
    forall l | 0 <= l < MLF_LEVELS ensures QueueOk(s, l) && s.q[l] == [] && s.enq[l] == s.deq[l] + s.q[l] {}
  }

  datatype History = Boot | Then(before: History, e: Step)

  /** A history whose every step met its guard when it ran. */
  ghost predicate Legal(h: History) {
    h.Boot? || (Legal(h.before) && Guard(State(h.before), h.e))
  }

  ghost function State(h: History): Sched {
    if h.Boot? then BootState() else Next(State(h.before), h.e)
  }

  /** Every reachable state satisfies the invariant. */
  lemma {:induction false} Reachable(h: History)
    requires Legal(h)
    ensures Inv(State(h))
  {
    hide Inv, Next, BootState;
    if h.Boot? { BootInv(); } else {
      Reachable(h.before);
      NextKeeps(State(h.before), h.e);
    }
  }

  /** In every reachable state: a process is queued iff it is RUNNABLE, once, in the queue of its level;
      `first` reaches `last` in `size` - 1 steps; ptable.size is the sum; whatever the scheduler finds at the
      head of a level is RUNNABLE there, so its panic is unreachable. */
  lemma SchedulerSafety(h: History, p: nat, l: int)
    requires Legal(h) && p < NPROC && 0 <= l < MLF_LEVELS
    ensures var s := State(h);
            && Inv(s)
            && (p in s.q[l] <==> s.proc[p].state == RUNNABLE && s.proc[p].level == l) && multiset(s.q[l])[p] <= 1
            && s.mlf[l].size == |s.q[l]| && s.size == s.mlf[0].size + s.mlf[1].size + s.mlf[2].size + s.mlf[3].size
            && (s.q[l] != [] ==> Follow(s, s.mlf[l].first, s.mlf[l].size - 1) == s.mlf[l].last)
            && (s.mlf[l].first.At? ==>
                  s.proc[s.mlf[l].first.i].state == RUNNABLE && s.proc[s.mlf[l].first.i].level == l)
  {
    Reachable(h);
    hide State, Family, Queues, Follow;
    var s := State(h);
    LevelSafety(s, p, l);
  }

  lemma LevelSafety(s: Sched, p: nat, l: int)
    requires Queues(s) && p < NPROC && 0 <= l < MLF_LEVELS
    ensures (p in s.q[l] <==> s.proc[p].state == RUNNABLE && s.proc[p].level == l) && multiset(s.q[l])[p] <= 1
    ensures s.mlf[l].size == |s.q[l]| && s.size == s.mlf[0].size + s.mlf[1].size + s.mlf[2].size + s.mlf[3].size
    ensures s.q[l] != [] ==> Follow(s, s.mlf[l].first, s.mlf[l].size - 1) == s.mlf[l].last
    ensures s.mlf[l].first.At? ==> s.proc[s.mlf[l].first.i].state == RUNNABLE && s.proc[s.mlf[l].first.i].level == l
  {
    hide Follow, Distinct, QueueOk, AllQueued, PidsOk, Fifo;
    QueuedIffRunnable(s, p, l);
    if s.mlf[l].first.At? { HeadIsRunnable(s, l); }
    LevelSizes(s, l);
  }

  lemma LevelSizes(s: Sched, l: int)
    requires Queues(s) && 0 <= l < MLF_LEVELS
    ensures s.mlf[l].size == |s.q[l]| && s.size == s.mlf[0].size + s.mlf[1].size + s.mlf[2].size + s.mlf[3].size
    ensures s.q[l] != [] ==> Follow(s, s.mlf[l].first, s.mlf[l].size - 1) == s.mlf[l].last
  {
    hide Follow, Distinct, AllQueued, PidsOk, Fifo;
    assert QueueOk(s, 0) && QueueOk(s, 1) && QueueOk(s, 2) && QueueOk(s, 3) && QueueOk(s, l);
    if s.q[l] != [] { ReachesLast(s, l, 0, |s.q[l]| - 1); }
  }

  /** Per-level FIFO over whole runs: the processes taken from a level are a prefix of those queued there,
      and the rest are still waiting, in order. */
  lemma LevelIsFifo(h: History, l: int)
    requires Legal(h) && 0 <= l < MLF_LEVELS
    ensures |State(h).enq| == |State(h).deq| == |State(h).q| == MLF_LEVELS
    ensures State(h).deq[l] <= State(h).enq[l]
    ensures State(h).enq[l][|State(h).deq[l]|..] == State(h).q[l]
  {
    Reachable(h);
    hide Next, BootState, Family;
    assert Fifo(State(h));
  }

  /** No lost child exit: nobody sleeps in wait with a zombie child, and every parent is a live process. */
  lemma NoChildExitLost(h: History, p: nat, c: nat)
    requires Legal(h) && p < NPROC && c < NPROC
    ensures var s := State(h);
            && Inv(s)
            && !(s.proc[p].state == SLEEPING && s.proc[p].chan == OnProc(p) && s.proc[c].parent == At(p)
                  && s.proc[c].state == ZOMBIE)
            && (s.proc[c].parent == At(p) ==> s.proc[p].state != UNUSED && s.proc[p].state != ZOMBIE)
            && (s.proc[c].state == ZOMBIE && s.initproc != At(c) ==>
                  s.proc[c].parent.At? && Alive(s, s.proc[c].parent.i))
  {
    Reachable(h);
    hide Next, BootState, Queues;
    var s := State(h);
    assert Wakes(s.proc[p], OnProc(p)) ==> !ZombieChild(s, p, c);
    assert s.proc[c].parent == At(p) ==> Alive(s, p);
  }
}
