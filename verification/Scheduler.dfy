/**
 Handing the CPU over: scheduler, sched and swtch on any number of CPUs, with ptable.lock
 acquired by one kernel thread and released by the next, and the per-CPU count of
 interrupt-disabling sections.
 */
module Scheduler {

  import opened Kernel

  // The kernel thread whose stack a CPU is on.
  datatype Thread = OfScheduler | OfProc(slot: nat)

  // Where the scheduler thread of a CPU is: before acquire, in its spin loop, holding the lock,
  // or switched away from.
  datatype Loop = Top | Spin | Scan | Parked

  // struct cpu, the interrupt flag, and the thread executing.
  datatype Cpu = Cpu(proc: Option<nat>, ncli: nat, intena: bool, interruptible: bool, thread: Thread, loop: Loop)

  datatype Stage =
    | Outside   // does not hold ptable.lock
    | Spinning  // waits for it in acquire
    | Inside    // holds it
    | Leaving   // holds it and has given up RUNNING: about to call sched

  // Where the kernel thread of a process is.  `held` counts the spinlocks it holds besides
  // ptable.lock, `enabled` is the interrupt flag before the outermost of its current sections.
  datatype Place =
    | On(cpu: nat, stage: Stage, held: nat, enabled: bool)
    | Back(cpu: nat, saved: Option<bool>)   // swtch has just returned into it
    | Away(saved: Option<bool>)             // its context is saved; None: it will start in forkret

  datatype Proc = Proc(state: PState, place: Place)

  // `lock` is the CPU that holds ptable.lock.
  datatype Machine = Machine(cpus: seq<Cpu>, procs: seq<Proc>, lock: Option<nat>)

  // --- spinlocks ----------------------------------------------------------------------------

  function PushCli(c: Cpu): Cpu {
    c.(ncli := c.ncli + 1, intena := if c.ncli == 0 then c.interruptible else c.intena, interruptible := false)
  }

  ghost predicate PopCliPanics(c: Cpu) {
    c.interruptible || c.ncli == 0
  }

  function PopCli(c: Cpu): Cpu
    requires c.ncli > 0
  {
    c.(ncli := c.ncli - 1, interruptible := c.interruptible || (c.ncli == 1 && c.intena))
  }

  ghost predicate AcquirePanics(m: Machine, c: nat) {
    m.lock == Some(c)
  }

  ghost predicate ReleasePanics(m: Machine, c: nat)
    requires c < |m.cpus|
  {
    m.lock != Some(c) || PopCliPanics(m.cpus[c])
  }

  // The four checks of sched, for the process on CPU c.
  ghost predicate SchedPanics(m: Machine, c: nat, p: nat)
    requires c < |m.cpus| && p < |m.procs|
  {
    m.lock != Some(c) || m.cpus[c].ncli != 1 || m.procs[p].state.RUNNING? || m.cpus[c].interruptible
  }

  // --- steps ----------------------------------------------------------------------------------

  ghost predicate AtScheduler(m: Machine, c: nat, loop: Loop) {
    c < |m.cpus| && m.cpus[c].thread.OfScheduler? && m.cpus[c].loop == loop
  }

  ghost predicate AtStage(m: Machine, c: nat, p: nat, stage: Stage) {
    && c < |m.cpus| && m.cpus[c].thread == OfProc(p)
    && p < |m.procs| && m.procs[p].place.On? && m.procs[p].place.stage == stage
  }

  ghost function Moved(m: Machine, c: nat, cpu: Cpu, p: nat, proc: Proc, lock: Option<nat>): Machine
    requires c < |m.cpus| && p < |m.procs|
  {
    Machine(m.cpus[c := cpu], m.procs[p := proc], lock)
  }

  // sti, and the pushcli of acquire
  ghost predicate SchedPush(m: Machine, m': Machine, c: nat) {
    && AtScheduler(m, c, Top)
    && m' == m.(cpus := m.cpus[c := PushCli(m.cpus[c].(interruptible := true)).(loop := Spin)])
  }

  ghost predicate SchedTake(m: Machine, m': Machine, c: nat) {
    && AtScheduler(m, c, Spin) && m.lock.None?
    && m' == m.(cpus := m.cpus[c := m.cpus[c].(loop := Scan)], lock := Some(c))
  }

  ghost predicate SchedSwitch(m: Machine, m': Machine, c: nat, p: nat) {
    && AtScheduler(m, c, Scan) && p < |m.procs| && m.procs[p].state.RUNNABLE? && m.procs[p].place.Away?
    && m' == Moved(m, c, m.cpus[c].(proc := Some(p), thread := OfProc(p), loop := Parked),
                   p, Proc(RUNNING, Back(c, m.procs[p].place.saved)), m.lock)
  }

  ghost predicate SchedRelease(m: Machine, m': Machine, c: nat) {
    && AtScheduler(m, c, Scan) && !ReleasePanics(m, c)
    && m' == m.(cpus := m.cpus[c := PopCli(m.cpus[c]).(loop := Top)], lock := None)
  }

  // Back from swtch: sched restores intena; forkret has nothing to restore.
  ghost predicate Resume(m: Machine, m': Machine, c: nat, p: nat) {
    && c < |m.cpus| && m.cpus[c].thread == OfProc(p) && p < |m.procs| && m.procs[p].place.Back?
    && var saved := m.procs[p].place.saved;
       var enabled := if saved.Some? then saved.value else m.cpus[c].intena;
       m' == Moved(m, c, m.cpus[c].(intena := enabled), p, m.procs[p].(place := On(c, Inside, 0, enabled)), m.lock)
  }

  ghost predicate Release(m: Machine, m': Machine, c: nat, p: nat) {
    && AtStage(m, c, p, Inside) && !ReleasePanics(m, c)
    && m' == Moved(m, c, PopCli(m.cpus[c]), p, m.procs[p].(place := m.procs[p].place.(stage := Outside)), None)
  }

  // The flag a thread will have back when its outermost section ends.
  ghost function Enabled(cpu: Cpu, place: Place): bool
    requires place.On?
  {
    if cpu.ncli == 0 then cpu.interruptible else place.enabled
  }

  ghost predicate Push(m: Machine, m': Machine, c: nat, p: nat) {
    && AtStage(m, c, p, Outside)
    && var place := m.procs[p].place;
       m' == Moved(m, c, PushCli(m.cpus[c]), p,
                   m.procs[p].(place := place.(stage := Spinning, enabled := Enabled(m.cpus[c], place))), m.lock)
  }

  ghost predicate Take(m: Machine, m': Machine, c: nat, p: nat) {
    && AtStage(m, c, p, Spinning) && m.lock.None?
    && m' == Moved(m, c, m.cpus[c], p, m.procs[p].(place := m.procs[p].place.(stage := Inside)), Some(c))
  }

  // Some other spinlock is acquired or released.
  ghost predicate PushOther(m: Machine, m': Machine, c: nat, p: nat) {
    && (AtStage(m, c, p, Outside) || AtStage(m, c, p, Inside))
    && var place := m.procs[p].place;
       m' == Moved(m, c, PushCli(m.cpus[c]), p,
                   m.procs[p].(place := place.(held := place.held + 1, enabled := Enabled(m.cpus[c], place))), m.lock)
  }

  ghost predicate PopOther(m: Machine, m': Machine, c: nat, p: nat) {
    && (AtStage(m, c, p, Outside) || AtStage(m, c, p, Inside))
    && m.procs[p].place.held > 0 && !PopCliPanics(m.cpus[c])
    && var place := m.procs[p].place;
       m' == Moved(m, c, PopCli(m.cpus[c]), p, m.procs[p].(place := place.(held := place.held - 1)), m.lock)
  }

  // Outside all sections, traps and returns from traps set the interrupt flag.
  ghost predicate Trap(m: Machine, m': Machine, c: nat, p: nat, on: bool) {
    && AtStage(m, c, p, Outside) && m.procs[p].place.held == 0
    && m' == m.(cpus := m.cpus[c := m.cpus[c].(interruptible := on)])
  }

  // yield, sleep and exit change the state and call sched.
  ghost predicate GiveUp(m: Machine, m': Machine, c: nat, p: nat, state: PState) {
    && AtStage(m, c, p, Inside) && (state.RUNNABLE? || state.SLEEPING? || state.ZOMBIE?)
    && m' == Moved(m, c, m.cpus[c], p, Proc(state, m.procs[p].place.(stage := Leaving)), m.lock)
  }

  // sched: swtch to the CPU's scheduler thread, which clears c->proc.
  ghost predicate Sched(m: Machine, m': Machine, c: nat, p: nat) {
    && AtStage(m, c, p, Leaving) && !SchedPanics(m, c, p)
    && m' == Moved(m, c, m.cpus[c].(proc := None, thread := OfScheduler, loop := Scan),
                   p, m.procs[p].(place := Away(Some(m.cpus[c].intena))), m.lock)
  }

  // What thread q on CPU c, holding ptable.lock, does to the state of another process.
  ghost predicate SetState(m: Machine, m': Machine, c: nat, q: nat, p: nat) {
    && AtStage(m, c, q, Inside) && p < |m.procs|
    && var proc := m.procs[p];
       || (proc.state.SLEEPING? && m' == m.(procs := m.procs[p := proc.(state := RUNNABLE)]))            // wakeup1, kill
       || (proc.state.UNUSED? && m' == m.(procs := m.procs[p := Proc(EMBRYO, Away(None))]))              // allocproc
       || (proc.state.EMBRYO? && m' == m.(procs := m.procs[p := proc.(state := RUNNABLE)]))              // fork
       || (proc.state.ZOMBIE? && m' == m.(procs := m.procs[p := proc.(state := UNUSED)]))                // wait
  }

  // A fork that fails, without the lock.
  ghost predicate Abort(m: Machine, m': Machine, p: nat) {
    && p < |m.procs| && m.procs[p].state.EMBRYO?
    && m' == m.(procs := m.procs[p := m.procs[p].(state := UNUSED)])
  }

  ghost predicate Next(m: Machine, m': Machine) {
    || (exists c :: SchedPush(m, m', c) || SchedTake(m, m', c) || SchedRelease(m, m', c))
    || (exists c, p :: SchedSwitch(m, m', c, p) || Resume(m, m', c, p) || Sched(m, m', c, p))
    || (exists c, p :: Release(m, m', c, p) || Push(m, m', c, p) || Take(m, m', c, p))
    || (exists c, p :: PushOther(m, m', c, p) || PopOther(m, m', c, p))
    || (exists c, p, on :: Trap(m, m', c, p, on))
    || (exists c, p, state :: GiveUp(m, m', c, p, state))
    || (exists c, q, p :: SetState(m, m', c, q, p))
    || (exists p :: Abort(m, m', p))
  }

  // --- the invariant ---------------------------------------------------------------------------

  ghost predicate Sections(m: Machine, c: nat, place: Place)
    requires c < |m.cpus|
  {
    var cpu := m.cpus[c];
    match place
    case On(x, stage, held, enabled) =>
      && x == c && (m.lock == Some(c) <==> stage.Inside? || stage.Leaving?)
      && cpu.ncli == held + (if stage.Outside? then 0 else 1)
      && (cpu.ncli > 0 ==> cpu.intena == enabled)
    case Back(x, saved) => x == c && m.lock == Some(c) && cpu.ncli == 1
    case Away(saved) => false
  }

  ghost predicate CpuOk(m: Machine, c: nat)
    requires c < |m.cpus|
  {
    var cpu := m.cpus[c];
    && (cpu.ncli > 0 ==> !cpu.interruptible)
    && match cpu.thread
       case OfScheduler =>
         && cpu.proc.None? && !cpu.loop.Parked?
         && (m.lock == Some(c) <==> cpu.loop.Scan?)
         && cpu.ncli == (if cpu.loop.Top? then 0 else 1)
       case OfProc(p) =>
         cpu.proc == Some(p) && cpu.loop.Parked? && p < |m.procs| && Sections(m, c, m.procs[p].place)
  }

  ghost predicate ProcOk(m: Machine, p: nat)
    requires p < |m.procs|
  {
    var proc := m.procs[p];
    && (proc.place.Away? ==> !proc.state.RUNNING?)
    && (!proc.place.Away? ==> proc.place.cpu < |m.cpus| && m.cpus[proc.place.cpu].thread == OfProc(p))
    && (proc.place.Back? ==> proc.state.RUNNING?)
    && (proc.place.On? && !proc.place.stage.Leaving? ==> proc.state.RUNNING?)
    && (proc.place.On? && proc.place.stage.Leaving? ==> proc.state.RUNNABLE? || proc.state.SLEEPING? || proc.state.ZOMBIE?)
  }

  ghost predicate Inv(m: Machine) {
    && (forall c :: 0 <= c < |m.cpus| ==> CpuOk(m, c))
    && (forall p :: 0 <= p < |m.procs| ==> ProcOk(m, p))
    && (m.lock.Some? ==> m.lock.value < |m.cpus|)
  }

  // All CPUs about to enter the scheduler's loop, no process has run yet.
  ghost predicate Start(m: Machine) {
    && (forall c :: 0 <= c < |m.cpus| ==>
          m.cpus[c].thread.OfScheduler? && m.cpus[c].loop.Top? && m.cpus[c].ncli == 0 && m.cpus[c].proc.None?)
    && (forall p :: 0 <= p < |m.procs| ==>
          m.procs[p].place.Away? && (m.procs[p].state.UNUSED? || m.procs[p].state.RUNNABLE?))
    && m.lock.None?
  }

  // A step touches one CPU and one process, which is on that CPU or away.
  lemma Frame(m: Machine, m': Machine, c: nat, p: nat)
    requires Inv(m) && c < |m.cpus| && p < |m.procs| && |m'.cpus| == |m.cpus| && |m'.procs| == |m.procs|
    requires m' == Moved(m, c, m'.cpus[c], p, m'.procs[p], m'.lock)
    requires m.cpus[c].thread.OfScheduler? || m.cpus[c].thread == OfProc(p)
    requires m.procs[p].place.Away? || m.procs[p].place.cpu == c
    requires m'.lock == m.lock || ((m.lock.None? || m.lock == Some(c)) && (m'.lock.None? || m'.lock == Some(c)))
    requires CpuOk(m', c) && ProcOk(m', p)
    ensures Inv(m')
  {
    forall x | 0 <= x < |m'.cpus| ensures CpuOk(m', x) {
      assert CpuOk(m, x);
    }
    forall x | 0 <= x < |m'.procs| ensures ProcOk(m', x) {
      assert ProcOk(m, x);
    }
  }

  lemma SchedulerStepInv(m: Machine, m': Machine, c: nat)
    requires Inv(m) && (SchedPush(m, m', c) || SchedTake(m, m', c) || SchedRelease(m, m', c))
    ensures Inv(m')
  {
    assert CpuOk(m, c);
    forall x | 0 <= x < |m'.cpus| ensures CpuOk(m', x) {
      assert CpuOk(m, x);
    }
    forall x | 0 <= x < |m'.procs| ensures ProcOk(m', x) {
      assert ProcOk(m, x);
    }
  }

  lemma SwitchInv(m: Machine, m': Machine, c: nat, p: nat)
    requires Inv(m) && (SchedSwitch(m, m', c, p) || Resume(m, m', c, p) || Sched(m, m', c, p))
    ensures Inv(m')
  {
    assert CpuOk(m, c) && ProcOk(m, p);
    Frame(m, m', c, p);
  }

  lemma LockInv(m: Machine, m': Machine, c: nat, p: nat)
    requires Inv(m) && (Release(m, m', c, p) || Push(m, m', c, p) || Take(m, m', c, p))
    ensures Inv(m')
  {
    assert CpuOk(m, c) && ProcOk(m, p);
    Frame(m, m', c, p);
  }

  lemma OtherInv(m: Machine, m': Machine, c: nat, p: nat)
    requires Inv(m) && (PushOther(m, m', c, p) || PopOther(m, m', c, p))
    ensures Inv(m')
  {
    assert CpuOk(m, c) && ProcOk(m, p);
    Frame(m, m', c, p);
  }

  lemma TrapInv(m: Machine, m': Machine, c: nat, p: nat, on: bool)
    requires Inv(m) && Trap(m, m', c, p, on)
    ensures Inv(m')
  {
    assert CpuOk(m, c) && ProcOk(m, p);
    assert m'.procs == m.procs[p := m'.procs[p]];
    Frame(m, m', c, p);
  }

  lemma GiveUpInv(m: Machine, m': Machine, c: nat, p: nat, state: PState)
    requires Inv(m) && GiveUp(m, m', c, p, state)
    ensures Inv(m')
  {
    assert CpuOk(m, c) && ProcOk(m, p);
    Frame(m, m', c, p);
  }

  // While a thread holds ptable.lock, every process that is not RUNNING is off all stacks.
  lemma OffStack(m: Machine, c: nat, q: nat, p: nat)
    requires Inv(m) && AtStage(m, c, q, Inside) && p < |m.procs| && !m.procs[p].state.RUNNING?
    ensures m.procs[p].place.Away?
  {
    assert CpuOk(m, c) && ProcOk(m, p);
    if m.procs[p].place.On? {
      assert CpuOk(m, m.procs[p].place.cpu);
    }
  }

  lemma SetStateInv(m: Machine, m': Machine, c: nat, q: nat, p: nat)
    requires Inv(m) && SetState(m, m', c, q, p)
    ensures Inv(m')
  {
    OffStack(m, c, q, p);
    assert ProcOk(m, p);
    AwayInv(m, m', p);
  }

  lemma AwayInv(m: Machine, m': Machine, p: nat)
    requires Inv(m) && p < |m.procs| && m.procs[p].place.Away? && |m'.procs| == |m.procs|
    requires m' == m.(procs := m.procs[p := m'.procs[p]]) && m'.procs[p].place.Away? && !m'.procs[p].state.RUNNING?
    ensures Inv(m')
  {
    forall x | 0 <= x < |m'.cpus| ensures CpuOk(m', x) {
      assert CpuOk(m, x);
    }
    forall x | 0 <= x < |m'.procs| ensures ProcOk(m', x) {
      assert ProcOk(m, x);
    }
  }

  lemma AbortInv(m: Machine, m': Machine, p: nat)
    requires Inv(m) && Abort(m, m', p)
    ensures Inv(m')
  {
    assert ProcOk(m, p);
    AwayInv(m, m', p);
  }

  lemma NextInv(m: Machine, m': Machine)
    requires Inv(m) && Next(m, m')
    ensures Inv(m')
  {
    if c :| SchedPush(m, m', c) || SchedTake(m, m', c) || SchedRelease(m, m', c) {
      SchedulerStepInv(m, m', c);
    } else if c, p :| SchedSwitch(m, m', c, p) || Resume(m, m', c, p) || Sched(m, m', c, p) {
      SwitchInv(m, m', c, p);
    } else if c, p :| Release(m, m', c, p) || Push(m, m', c, p) || Take(m, m', c, p) {
      LockInv(m, m', c, p);
    } else if c, p :| PushOther(m, m', c, p) || PopOther(m, m', c, p) {
      OtherInv(m, m', c, p);
    } else if c, p, on :| Trap(m, m', c, p, on) {
      TrapInv(m, m', c, p, on);
    } else if c, p, state :| GiveUp(m, m', c, p, state) {
      GiveUpInv(m, m', c, p, state);
    } else if c, q, p :| SetState(m, m', c, q, p) {
      SetStateInv(m, m', c, q, p);
    } else {
      var p :| Abort(m, m', p);
      AbortInv(m, m', p);
    }
  }

  // --- runs ----------------------------------------------------------------------------------

  ghost predicate Run(run: seq<Machine>) {
    && |run| > 0 && Start(run[0])
    && forall i :: 0 <= i < |run| - 1 ==> Next(run[i], run[i + 1])
  }

  lemma {:induction false} RunInv(run: seq<Machine>, i: nat)
    requires Run(run) && i < |run|
    ensures Inv(run[i])
  {
    if i > 0 {
      RunInv(run, i - 1);
      NextInv(run[i - 1], run[i]);
    }
  }

  // While ptable.lock is free, a process is RUNNING exactly if some CPU has it as c->proc, and
  // at most one has.
  lemma RunningIsOnOneCpu(run: seq<Machine>, i: nat, p: nat)
    requires Run(run) && i < |run| && run[i].lock.None? && p < |run[i].procs|
    ensures run[i].procs[p].state.RUNNING? <==> exists c :: 0 <= c < |run[i].cpus| && run[i].cpus[c].proc == Some(p)
    ensures forall c, d ::
              (0 <= c < |run[i].cpus| && 0 <= d < |run[i].cpus|
               && run[i].cpus[c].proc == Some(p) && run[i].cpus[d].proc == Some(p)) ==> c == d
  {
    RunInv(run, i);
    var m := run[i];
    assert ProcOk(m, p);
    forall c | 0 <= c < |m.cpus| && m.cpus[c].proc == Some(p)
      ensures !m.procs[p].place.Away? && m.procs[p].place.cpu == c && m.procs[p].state.RUNNING?
    {
      assert CpuOk(m, c);
    }
    if m.procs[p].state.RUNNING? {
      assert CpuOk(m, m.procs[p].place.cpu);
    }
  }

  // No kernel stack is in use on two CPUs, whatever the lock.
  lemma OneStackOneCpu(run: seq<Machine>, i: nat, c: nat, d: nat)
    requires Run(run) && i < |run| && c < |run[i].cpus| && d < |run[i].cpus|
    requires run[i].cpus[c].thread.OfProc? && run[i].cpus[d].thread == run[i].cpus[c].thread
    ensures c == d
  {
    RunInv(run, i);
    assert CpuOk(run[i], c) && CpuOk(run[i], d);
  }

  // The scheduler switches only to a saved context, never to one that is in use.
  lemma SwitchesToSavedContext(run: seq<Machine>, i: nat, c: nat, p: nat)
    requires Run(run) && i < |run| && AtScheduler(run[i], c, Scan)
    requires p < |run[i].procs| && run[i].procs[p].state.RUNNABLE?
    ensures run[i].procs[p].place.Away?
  {
    RunInv(run, i);
    assert CpuOk(run[i], c) && ProcOk(run[i], p);
    assert run[i].procs[p].place.On? ==> CpuOk(run[i], run[i].procs[p].place.cpu);
  }

  // When wait finds a zombie and frees its kernel stack, nothing runs on that stack.
  lemma ZombieStackUnused(run: seq<Machine>, i: nat, c: nat, q: nat, p: nat, d: nat)
    requires Run(run) && i < |run| && AtStage(run[i], c, q, Inside) && d < |run[i].cpus|
    requires p < |run[i].procs| && run[i].procs[p].state.ZOMBIE?
    ensures run[i].cpus[d].thread != OfProc(p)
  {
    RunInv(run, i);
    OffStack(run[i], c, q, p);
    assert CpuOk(run[i], d);
  }

  // Neither acquire nor release nor popcli panics, although the thread that releases ptable.lock
  // need not be the one that acquired it.
  lemma LocksNeverPanic(run: seq<Machine>, i: nat, c: nat, p: nat)
    requires Run(run) && i < |run|
    ensures AtScheduler(run[i], c, Spin) || AtStage(run[i], c, p, Spinning) ==> !AcquirePanics(run[i], c)
    ensures AtScheduler(run[i], c, Scan) || AtStage(run[i], c, p, Inside) ==> !ReleasePanics(run[i], c)
    ensures AtStage(run[i], c, p, Outside) && run[i].procs[p].place.held > 0 ==> !PopCliPanics(run[i].cpus[c])
  {
    RunInv(run, i);
    if c < |run[i].cpus| {
      assert CpuOk(run[i], c);
    }
  }

  // sched panics exactly if its caller holds a spinlock besides ptable.lock.
  lemma SchedPanicsExactly(run: seq<Machine>, i: nat, c: nat, p: nat)
    requires Run(run) && i < |run| && AtStage(run[i], c, p, Leaving)
    ensures SchedPanics(run[i], c, p) <==> run[i].procs[p].place.held > 0
  {
    RunInv(run, i);
    assert CpuOk(run[i], c) && ProcOk(run[i], p);
  }

  // A thread that leaves its outermost section finds the interrupt flag as it was when it entered,
  // even if it has been to sched in between and come back on another CPU.
  lemma InterruptFlagRestored(run: seq<Machine>, i: nat, c: nat, p: nat)
    requires Run(run) && i + 1 < |run| && (Release(run[i], run[i + 1], c, p) || PopOther(run[i], run[i + 1], c, p))
    requires run[i + 1].cpus[c].ncli == 0
    ensures run[i + 1].cpus[c].interruptible == run[i].procs[p].place.enabled
  {
    RunInv(run, i);
    assert CpuOk(run[i], c);
  }

  // The flag remembered at the outermost acquire is not lost on the way through sched.
  lemma FlagSurvivesSched(run: seq<Machine>, i: nat, j: nat, c: nat, d: nat, p: nat)
    requires Run(run) && i < j && j + 1 < |run|
    requires Sched(run[i], run[i + 1], c, p) && Resume(run[j], run[j + 1], d, p)
    requires forall k :: i < k <= j ==> p < |run[k].procs| && !run[k].procs[p].place.On?
    requires forall k :: i < k <= j ==> !run[k].procs[p].state.UNUSED?
    ensures run[j + 1].procs[p].place.enabled == run[i].procs[p].place.enabled
  {
    RunInv(run, i);
    assert CpuOk(run[i], c);
    SavedStays(run, i + 1, j, p);
  }

  lemma {:induction false} SavedStays(run: seq<Machine>, i: nat, j: nat, p: nat)
    requires Run(run) && i <= j < |run|
    requires forall k :: i <= k <= j ==>
               p < |run[k].procs| && !run[k].procs[p].place.On? && !run[k].procs[p].state.UNUSED?
    ensures run[j].procs[p].place.saved == run[i].procs[p].place.saved
    decreases j
  {
    if i < j {
      SavedStays(run, i, j - 1, p);
      RunInv(run, j - 1);
      SavedStep(run[j - 1], run[j], p);
    }
  }

  lemma SavedStep(m: Machine, m': Machine, p: nat)
    requires Inv(m) && Next(m, m') && p < |m.procs| && p < |m'.procs|
    requires !m.procs[p].place.On? && !m.procs[p].state.UNUSED?
    requires !m'.procs[p].place.On?
    ensures m'.procs[p].place.saved == m.procs[p].place.saved
  {
  }
}
