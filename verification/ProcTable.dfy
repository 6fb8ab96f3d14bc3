/** proc.c in place: the process table with its intrusive queues, one method per locked region. */
module ProcTable {
  import opened SchedState
  import opened SchedLife
  import opened SchedRuns
  import opened SchedEffects

  class ProcTable {
    var proc: seq<Proc>
    var mlf: seq<Queue>
    var size: int
    var nextpid: int
    var initproc: Ptr
    ghost var q: seq<seq<nat>>
    ghost var enq: seq<seq<nat>>
    ghost var deq: seq<seq<nat>>

    ghost function Value(): Sched
      reads this
    {
      Sched(proc, mlf, size, nextpid, initproc, q, enq, deq)
    }

    ghost predicate Valid()
      reads this
    {
      Inv(Value())
    }

    constructor ()
      ensures Valid() && Value() == BootState()
    {
      proc := seq(NPROC, _ => Proc(UNUSED, 0, Null, NoChan, false, 0, Null, Null));
      mlf := seq(MLF_LEVELS, _ => Queue(Null, Null, 0));
      size, nextpid, initproc := 0, 1, Null;
      q, enq, deq := seq(MLF_LEVELS, _ => []), seq(MLF_LEVELS, _ => []), seq(MLF_LEVELS, _ => []);
      new;
      BootInv();
      assert Value() == BootState();
    }

    /** encolar. */
    method Enqueue(p: nat, l: int)
      requires Value().Shaped() && p < NPROC && 0 <= l < MLF_LEVELS
      modifies this
      ensures Value() == Encolar(old(Value()), p, l)
    {
      size := size + 1;
      if mlf[l].first == Null {
        mlf := mlf[l := mlf[l].(last := At(p))];
        mlf := mlf[l := mlf[l].(first := At(p))];
      } else {
        var last := mlf[l].last.i;
        proc := proc[last := proc[last].(next := At(p))];
        mlf := mlf[l := mlf[l].(last := At(p))];
      }
      mlf := mlf[l := mlf[l].(size := mlf[l].size + 1)];
      proc := proc[p := proc[p].(level := l)];
      q := q[l := q[l] + [p]];
      enq := enq[l := enq[l] + [p]];
    }

    /** make_runnable. */
    method MakeRunnable(p: nat, l: int)
      requires Value().Shaped() && p < NPROC && 0 <= l < MLF_LEVELS
      modifies this
      ensures Value() == SchedState.MakeRunnable(old(Value()), p, l)
    {
      Enqueue(p, l);
      proc := proc[p := proc[p].(state := RUNNABLE)];
    }

    /** desencolar. */
    method Dequeue(p: nat)
      requires Value().Shaped() && p < NPROC
      requires var l := proc[p].level; mlf[l].first.At? && mlf[l].last.At? && q[l] != []
      modifies this
      ensures Value() == Desencolar(old(Value()), p)
    {
      var l := proc[p].level;
      size := size - 1;
      if proc[mlf[l].last.i].pid == proc[mlf[l].first.i].pid {
        mlf := mlf[l := Queue(Null, Null, mlf[l].size - 1)];
      } else {
        mlf := mlf[l := Queue(proc[p].next, mlf[l].last, mlf[l].size - 1)];
      }
      q := q[l := q[l][1..]];
      deq := deq[l := deq[l] + [p]];
    }

    /** The scheduler's choice at level `indice`: false if the level is empty. The process found is RUNNABLE,
        so the scheduler's panic is unreachable. */
    method RunFirst(indice: int) returns (ran: bool)
      requires Valid() && 0 <= indice < MLF_LEVELS
      modifies this
      ensures Valid() && (ran <==> old(mlf)[indice].first != Null)
      ensures !ran ==> Value() == old(Value())
      ensures ran ==> Stepped(old(Value()), Runs(indice), Value())
    {
      hide QueueOk, AllQueued, Fifo, PidsOk, Family, Effect;
      if mlf[indice].first == Null { return false; }
      DispatchInv(Value(), indice);
      StepTaken(Value(), Runs(indice));
      HeadIsRunnable(Value(), indice);
      var p := mlf[indice].first.i;
      assert proc[p].state == RUNNABLE;
      Dequeue(p);
      proc := proc[p := proc[p].(state := RUNNING, chan := NoChan)];
      return true;
    }

    /** wakeup1. */
    method Wakeup1(chan: Chan)
      requires Queues(Value())
      modifies this
      ensures Value() == Wake(old(Value()), chan, 0) && Queues(Value())
    {
      hide QueueOk, AllQueued, Fifo, PidsOk, Family, Encolar, Effect;
      ghost var s := Value();
      WakeEffect(s, chan, 0);
      var p := 0;
      while p < NPROC
        invariant 0 <= p <= NPROC && Queues(Value())
        invariant Wake(Value(), chan, p) == Wake(s, chan, 0)
        decreases NPROC - p
      {
        if proc[p].state == SLEEPING && proc[p].chan == chan {
          MakeRunnableKeeps(Value(), p, Up(proc[p].level));
          MakeRunnable(p, Up(proc[p].level));
        }
        p := p + 1;
      }
    }

    method Wakeup(chan: Chan)
      requires Valid()
      modifies this
      ensures Valid() && Stepped(old(Value()), Step.Wakeup(chan), Value())
    {
      hide Queues, Family, Effect;
      StepTaken(Value(), Step.Wakeup(chan));
      Wakeup1(chan);
    }

    /** allocproc's search and claim; NPROC when the table is full. */
    method AllocProc(p: nat) returns (k: nat)
      requires Valid() && Running(Value(), p)
      modifies this
      ensures k == FirstUnused(old(Value()), 0)
      ensures Valid() && Stepped(old(Value()), Step.AllocProc(p), Value())
    {
      hide QueueOk, AllQueued, Fifo, PidsOk, Family, Effect;
      ghost var s := Value();
      StepTaken(s, Step.AllocProc(p));
      k := 0;
      while k < NPROC && proc[k].state != UNUSED
        invariant 0 <= k <= NPROC && FirstUnused(s, k) == FirstUnused(s, 0)
        decreases NPROC - k
      {
        k := k + 1;
      }
      if k == NPROC { return; }
      proc := proc[k := proc[k].(state := EMBRYO, forker := At(p))];
      proc := proc[k := proc[k].(pid := nextpid)];
      nextpid := nextpid + 1;
      assert proc == s.proc[k := s.proc[k].(state := EMBRYO, pid := s.nextpid, forker := At(p))];
    }

    /** The end of fork: the child becomes RUNNABLE at level 0. */
    method Publish(k: nat)
      requires Valid() && Enabled(Value(), Step.Publish(k))
      modifies this
      ensures Valid() && Stepped(old(Value()), Step.Publish(k), Value())
    {
      hide QueueOk, AllQueued, Fifo, PidsOk, Family, Encolar, Effect;
      StepTaken(Value(), Step.Publish(k));
      proc := proc[k := proc[k].(forker := Null)];
      MakeRunnable(k, 0);
    }

    method Yield(p: nat)
      requires Valid() && Running(Value(), p)
      modifies this
      ensures Valid() && Stepped(old(Value()), Yields(p), Value())
    {
      hide QueueOk, AllQueued, Fifo, PidsOk, Family, Encolar, Effect;
      StepTaken(Value(), Yields(p));
      MakeRunnable(p, Down(proc[p].level));
    }

    method Sleep(p: nat, chan: Chan)
      requires Valid() && Running(Value(), p) && !chan.OnProc?
      modifies this
      ensures Valid() && Stepped(old(Value()), Sleeps(p, chan), Value())
    {
      hide QueueOk, AllQueued, Fifo, PidsOk, Family, Effect;
      ghost var s := Value();
      StepTaken(s, Sleeps(p, chan));
      proc := proc[p := proc[p].(chan := chan)];
      proc := proc[p := proc[p].(state := SLEEPING)];
      assert proc == s.proc[p := s.proc[p].(state := SLEEPING, chan := chan)];
    }

    method Kill(pid: int) returns (found: bool)
      requires Valid()
      modifies this
      ensures found <==> exists k :: 0 <= k < NPROC && old(proc)[k].pid == pid
      ensures Valid() && Stepped(old(Value()), Kills(pid), Value())
    {
      hide QueueOk, AllQueued, Fifo, PidsOk, Family, Encolar, Effect;
      ghost var s := Value();
      StepTaken(s, Kills(pid));
      var k := 0;
      while k < NPROC
        invariant 0 <= k <= NPROC && Value() == s && FindPid(s, pid, k) == FindPid(s, pid, 0)
        invariant forall j :: 0 <= j < k ==> proc[j].pid != pid
        decreases NPROC - k
      {
        if proc[k].pid == pid {
          proc := proc[k := proc[k].(killed := true)];
          if proc[k].state == SLEEPING {
            MakeRunnable(k, proc[k].level);
          }
          return true;
        }
        k := k + 1;
      }
      return false;
    }

    /** exit's locked region; init may not exit. */
    method Exit(p: nat) returns (ok: bool)
      requires Valid() && Running(Value(), p) && NotForking(Value(), p)
      modifies this
      ensures ok <==> old(initproc) != At(p)
      ensures Valid() && (if ok then Stepped(old(Value()), Exits(p), Value()) else Value() == old(Value()))
    {
      hide QueueOk, AllQueued, Fifo, PidsOk, Wake, Encolar, Effect;
      if initproc == At(p) { return false; }
      ghost var s := Value();
      StepTaken(s, Exits(p));
      InitAlive(s, p);
      hide Family, Queues, Reparent;
      WakeInit(s, ChanOf(s.proc[p].parent), 0);
      ghost var t := Wake(s, ChanOf(s.proc[p].parent), 0);
      WakeupKeeps(s, ChanOf(s.proc[p].parent));
      Wakeup1(ChanOf(proc[p].parent));
      GiveAway(p);
      proc := proc[p := proc[p].(state := ZOMBIE)];
      return true;
    }

    /** exit's loop: pass abandoned children to init. */
    method GiveAway(p: nat)
      requires Valid() && p < NPROC && initproc.At? && initproc != At(p)
      modifies this
      ensures Value() == Reparent(old(Value()), p, 0)
    {
      hide QueueOk, AllQueued, Fifo, PidsOk, Wake, Encolar, Family;
      ghost var s := Value();
      var k := 0;
      while k < NPROC
        invariant 0 <= k <= NPROC && Queues(Value()) && initproc == s.initproc
        invariant Reparent(Value(), p, k) == Reparent(s, p, 0)
        decreases NPROC - k
      {
        if proc[k].parent == At(p) {
          AdoptOneEffect(Value(), p, k);
          ReparentUnfold(Value(), p, k);
          ReplaceOther(Value(), k, proc[k].(parent := initproc));
          proc := proc[k := proc[k].(parent := initproc)];
          if proc[k].state == ZOMBIE {
            Wakeup1(OnProc(initproc.i));
          }
        }
        k := k + 1;
      }
    }

    /** One turn of wait's loop. */
    method Wait(p: nat) returns (r: WaitResult)
      requires Valid() && Running(Value(), p)
      modifies this
      ensures Valid() && Stepped(old(Value()), Waits(p), Value())
      ensures r == WaitReturns(old(Value()), p)
    {
      hide QueueOk, AllQueued, Fifo, PidsOk, Family, Effect;
      ghost var s := Value();
      StepTaken(s, Waits(p));
      var havekids := false;
      var c := 0;
      while c < NPROC
        invariant 0 <= c <= NPROC && Value() == s && FirstZombie(s, p, c) == FirstZombie(s, p, 0)
        invariant havekids <==> exists k :: 0 <= k < c && proc[k].parent == At(p)
        invariant forall k :: 0 <= k < c ==> !ZombieChild(s, p, k)
        decreases NPROC - c
      {
        if proc[c].parent == At(p) {
          havekids := true;
          if proc[c].state == ZOMBIE {
            r := Reaped(proc[c].pid);
            proc := proc[c := proc[c].(state := UNUSED, pid := 0, parent := Null, killed := false)];
            return;
          }
        }
        c := c + 1;
      }
      if !havekids || proc[p].killed { return NoChildren; }
      proc := proc[p := proc[p].(chan := OnProc(p))];
      proc := proc[p := proc[p].(state := SLEEPING)];
      assert proc == s.proc[p := s.proc[p].(state := SLEEPING, chan := OnProc(p))];
      return Slept;
    }
  }
}
