/**
 The process table.  Everything between acquire and release of ptable.lock is one step, as are
 the few assignments fork makes to a slot without the lock; processes on any number of CPUs
 take steps in any order.
 */
module ProcTable {

  import opened Kernel

  // wait sleeps on the caller's own slot; all other sleepers use other addresses.
  datatype Chan = NoChan | OfProc(slot: nat) | Other(addr: nat)

  datatype Proc = Proc(state: PState, pid: nat, parent: Option<nat>, chan: Chan, killed: bool)

  // The table, and two histories: the pids that have exited and those wait has returned.
  datatype Table = Table(procs: seq<Proc>, nextpid: nat, exited: set<nat>, reaped: seq<nat>)

  predicate Live(p: Proc) {
    p.state.SLEEPING? || p.state.RUNNABLE? || p.state.RUNNING?
  }

  predicate IsChild(p: Proc, parent: nat) {
    p.parent == Some(parent)
  }

  predicate ZombieChild(p: Proc, parent: nat) {
    IsChild(p, parent) && p.state.ZOMBIE?
  }

  // --- what the critical sections do ---------------------------------------------------------

  // wakeup1 on one entry
  function Woken1(p: Proc, chan: Chan): Proc {
    if p.state.SLEEPING? && p.chan == chan then p.(state := RUNNABLE) else p
  }

  function Woken(procs: seq<Proc>, chan: Chan): (r: seq<Proc>)
    ensures |r| == |procs| && forall s :: 0 <= s < |r| ==> r[s] == Woken1(procs[s], chan)
  {
    seq(|procs|, s requires 0 <= s < |procs| => Woken1(procs[s], chan))
  }

  // allocproc finds slot s.
  ghost predicate AllocProc(m: Table, m': Table, s: nat) {
    && s < |m.procs| && m.procs[s].state.UNUSED?
    && m' == m.(procs := m.procs[s := m.procs[s].(state := EMBRYO, pid := m.nextpid)], nextpid := m.nextpid + 1)
  }

  // kalloc or copyuvm has failed.
  ghost predicate ForkAbort(m: Table, m': Table, s: nat) {
    && s < |m.procs| && m.procs[s].state.EMBRYO? && m.procs[s].parent.None?
    && m' == m.(procs := m.procs[s := m.procs[s].(state := UNUSED)])
  }

  ghost predicate SetParent(m: Table, m': Table, p: nat, s: nat) {
    && p < |m.procs| && m.procs[p].state.RUNNING?
    && s < |m.procs| && m.procs[s].state.EMBRYO? && m.procs[s].parent.None?
    && m' == m.(procs := m.procs[s := m.procs[s].(parent := Some(p))])
  }

  ghost predicate ForkDone(m: Table, m': Table, s: nat) {
    && s < |m.procs| && m.procs[s].state.EMBRYO? && m.procs[s].parent.Some?
    && m' == m.(procs := m.procs[s := m.procs[s].(state := RUNNABLE)])
  }

  // The scheduler picks s; a sleeper that runs again clears its channel before it drops the lock.
  ghost predicate Dispatch(m: Table, m': Table, s: nat) {
    && s < |m.procs| && m.procs[s].state.RUNNABLE?
    && m' == m.(procs := m.procs[s := m.procs[s].(state := RUNNING, chan := NoChan)])
  }

  ghost predicate Yield(m: Table, m': Table, p: nat) {
    && p < |m.procs| && m.procs[p].state.RUNNING?
    && m' == m.(procs := m.procs[p := m.procs[p].(state := RUNNABLE)])
  }

  ghost predicate Sleep(m: Table, m': Table, p: nat, addr: nat) {
    && p < |m.procs| && m.procs[p].state.RUNNING?
    && m' == m.(procs := m.procs[p := m.procs[p].(state := SLEEPING, chan := Other(addr))])
  }

  ghost predicate Wakeup(m: Table, m': Table, addr: nat) {
    m' == m.(procs := Woken(m.procs, Other(addr)))
  }

  function Killed(p: Proc): Proc {
    p.(killed := true, state := if p.state.SLEEPING? then RUNNABLE else p.state)
  }

  ghost predicate Kill(m: Table, m': Table, s: nat) {
    && s < |m.procs|
    && m' == m.(procs := m.procs[s := Killed(m.procs[s])])
  }

  // exit: the parent is woken, the children go to init, and if one of them is a zombie init is woken.
  function Orphan(p: Proc, parent: nat, init: nat): Proc {
    if IsChild(p, parent) then p.(parent := Some(init)) else p
  }

  function Reparented(procs: seq<Proc>, p: nat, init: nat): (r: seq<Proc>)
    ensures |r| == |procs| && forall s :: 0 <= s < |r| ==> r[s] == Orphan(procs[s], p, init)
  {
    seq(|procs|, s requires 0 <= s < |procs| => Orphan(procs[s], p, init))
  }

  predicate HasZombie(procs: seq<Proc>, p: nat) {
    exists s :: 0 <= s < |procs| && ZombieChild(procs[s], p)
  }

  ghost function Exited(procs: seq<Proc>, p: nat, init: nat): seq<Proc>
    requires p < |procs|
  {
    var woken := if procs[p].parent.Some? then Woken(procs, OfProc(procs[p].parent.value)) else procs;
    var passed := Reparented(woken, p, init);
    var all := if HasZombie(procs, p) then Woken(passed, OfProc(init)) else passed;
    all[p := all[p].(state := ZOMBIE)]
  }

  ghost predicate Exit(init: nat, m: Table, m': Table, p: nat) {
    && p < |m.procs| && p != init && m.procs[p].state.RUNNING?
    && m' == m.(procs := Exited(m.procs, p, init), exited := m.exited + {m.procs[p].pid})
  }

  ghost predicate WaitReap(m: Table, m': Table, p: nat, s: nat) {
    && p < |m.procs| && m.procs[p].state.RUNNING?
    && s < |m.procs| && ZombieChild(m.procs[s], p)
    && m' == m.(procs := m.procs[s := m.procs[s].(state := UNUSED, pid := 0, parent := None, killed := false)],
                reaped := m.reaped + [m.procs[s].pid])
  }

  ghost predicate WaitSleep(m: Table, m': Table, p: nat) {
    && p < |m.procs| && m.procs[p].state.RUNNING? && !HasZombie(m.procs, p)
    && m' == m.(procs := m.procs[p := m.procs[p].(state := SLEEPING, chan := OfProc(p))])
  }

  ghost predicate Next(init: nat, m: Table, m': Table) {
    || m' == m     // a section that finds nothing to do: a full table, no such pid, wait returning -1
    || (exists s :: AllocProc(m, m', s))
    || (exists s :: ForkAbort(m, m', s))
    || (exists p, s :: SetParent(m, m', p, s))
    || (exists s :: ForkDone(m, m', s))
    || (exists s :: Dispatch(m, m', s))
    || (exists p :: Yield(m, m', p))
    || (exists p, addr :: Sleep(m, m', p, addr))
    || (exists addr :: Wakeup(m, m', addr))
    || (exists s :: Kill(m, m', s))
    || (exists p :: Exit(init, m, m', p))
    || (exists p, s :: WaitReap(m, m', p, s))
    || (exists p :: WaitSleep(m, m', p))
  }

  // --- the invariant ------------------------------------------------------------------------

  ghost predicate SlotOk(init: nat, m: Table, s: nat)
    requires s < |m.procs|
  {
    var p := m.procs[s];
    && (p.state.UNUSED? || s == init ==> p.parent.None?)
    && p.parent != Some(s)
    && (p.parent.Some? ==> p.parent.value < |m.procs| && Live(m.procs[p.parent.value]))
    && ((Live(p) || p.state.ZOMBIE?) && s != init ==> p.parent.Some?)
    && (p.state.SLEEPING? && p.chan.OfProc? ==> p.chan.slot == s && !HasZombie(m.procs, s))
  }

  // A slot's pid is its own until wait has returned it, and then in no slot any more.
  ghost predicate PidOk(m: Table, s: nat)
    requires s < |m.procs|
  {
    var p := m.procs[s];
    && p.pid < m.nextpid && p.pid !in m.reaped
    && (p.pid in m.exited <==> p.state.ZOMBIE?)
    && (!p.state.UNUSED? ==> p.pid > 0)
  }

  ghost predicate Zombie(m: Table, pid: nat) {
    exists s :: 0 <= s < |m.procs| && m.procs[s].state.ZOMBIE? && m.procs[s].pid == pid
  }

  ghost predicate PidsOk(m: Table) {
    && m.nextpid > 0
    && (forall s :: 0 <= s < |m.procs| ==> PidOk(m, s))
    && (forall s, t :: 0 <= s < t < |m.procs| && m.procs[s].pid == m.procs[t].pid ==> m.procs[s].pid == 0)
    && (forall i, j :: 0 <= i < j < |m.reaped| ==> m.reaped[i] != m.reaped[j])
    && (forall x :: x in m.reaped ==> x in m.exited)
    && (forall x :: x in m.exited ==> 0 < x < m.nextpid && (x in m.reaped || Zombie(m, x)))
  }

  ghost predicate TreeOk(init: nat, m: Table) {
    && init < |m.procs| && Live(m.procs[init])
    && forall s :: 0 <= s < |m.procs| ==> SlotOk(init, m, s)
  }

  ghost predicate Inv(init: nat, m: Table) {
    TreeOk(init, m) && PidsOk(m)
  }

  // After userinit: one process, init, and every other slot unused.
  ghost predicate Start(init: nat, m: Table) {
    && init < |m.procs| && m.procs[init].state.RUNNABLE? && m.procs[init].parent.None?
    && 0 < m.procs[init].pid < m.nextpid && m.procs[init].chan.NoChan?
    && (forall s :: 0 <= s < |m.procs| && s != init ==> m.procs[s].state.UNUSED? && m.procs[s].pid == 0 && m.procs[s].parent.None?)
    && (forall s :: 0 <= s < |m.procs| ==> !m.procs[s].killed)
    && m.exited == {} && m.reaped == []
  }

  lemma StartInv(init: nat, m: Table)
    requires Start(init, m)
    ensures Inv(init, m)
  {
  }

  // --- every step keeps it --------------------------------------------------------------------

  // One live or unborn slot changes, keeping pid and parent, and stays live or unborn.
  lemma OneSlotPids(m: Table, m': Table, s: nat, p: Proc)
    requires PidsOk(m) && s < |m.procs| && m' == m.(procs := m.procs[s := p])
    requires p.pid == m.procs[s].pid && (p.state.ZOMBIE? <==> m.procs[s].state.ZOMBIE?)
    requires m.procs[s].state.UNUSED? ==> p.state.UNUSED?
    ensures PidsOk(m')
  {
    forall x | x in m'.exited && x !in m'.reaped ensures Zombie(m', x) {
      var t :| 0 <= t < |m.procs| && m.procs[t].state.ZOMBIE? && m.procs[t].pid == x;
      assert m'.procs[t].state.ZOMBIE? && m'.procs[t].pid == x;
    }
    forall t | 0 <= t < |m'.procs| ensures PidOk(m', t) {
      assert PidOk(m, t);
    }
  }

  lemma SameZombies(m: seq<Proc>, m': seq<Proc>, p: nat)
    requires |m'| == |m| && forall s :: 0 <= s < |m| && ZombieChild(m'[s], p) ==> ZombieChild(m[s], p)
    requires !HasZombie(m, p)
    ensures !HasZombie(m', p)
  {
  }

  // One slot changes; nobody who was live stops being so and no zombie appears.
  lemma OneSlotTree(init: nat, m: Table, m': Table, s: nat, p: Proc)
    requires TreeOk(init, m) && s < |m.procs| && m'.procs == m.procs[s := p]
    requires Live(m.procs[s]) ==> Live(p)
    requires p.state.ZOMBIE? ==> m.procs[s].state.ZOMBIE? && m.procs[s].parent == p.parent
    requires SlotOk(init, m', s)
    ensures TreeOk(init, m')
  {
    forall t | 0 <= t < |m'.procs| ensures SlotOk(init, m', t) {
      if t != s {
        assert SlotOk(init, m, t);
        if m.procs[t].state.SLEEPING? && m.procs[t].chan.OfProc? {
          SameZombies(m.procs, m'.procs, t);
        }
      }
    }
  }

  lemma AllocProcInv(init: nat, m: Table, m': Table, s: nat)
    requires Inv(init, m) && AllocProc(m, m', s)
    ensures Inv(init, m')
  {
    assert SlotOk(init, m, s);
    OneSlotTree(init, m, m', s, m'.procs[s]);
    AllocPids(m, m', s);
  }

  lemma AllocPids(m: Table, m': Table, s: nat)
    requires PidsOk(m) && AllocProc(m, m', s)
    requires forall x :: x in m.reaped ==> x in m.exited
    ensures PidsOk(m')
  {
    forall x | x in m'.exited && x !in m'.reaped ensures Zombie(m', x) {
      var t :| 0 <= t < |m.procs| && m.procs[t].state.ZOMBIE? && m.procs[t].pid == x;
      assert m'.procs[t].state.ZOMBIE? && m'.procs[t].pid == x;
    }
    forall t | 0 <= t < |m'.procs| ensures PidOk(m', t) {
      assert PidOk(m, t);
    }
    forall a, b | 0 <= a < b < |m'.procs| && m'.procs[a].pid == m'.procs[b].pid ensures m'.procs[a].pid == 0 {
      assert PidOk(m, a) && PidOk(m, b);
    }
  }

  lemma ForkAbortInv(init: nat, m: Table, m': Table, s: nat)
    requires Inv(init, m) && ForkAbort(m, m', s)
    ensures Inv(init, m')
  {
    assert SlotOk(init, m, s);
    OneSlotTree(init, m, m', s, m'.procs[s]);
    OneSlotPids(m, m', s, m'.procs[s]);
  }

  lemma SetParentInv(init: nat, m: Table, m': Table, p: nat, s: nat)
    requires Inv(init, m) && SetParent(m, m', p, s)
    ensures Inv(init, m')
  {
    OneSlotTree(init, m, m', s, m'.procs[s]);
    OneSlotPids(m, m', s, m'.procs[s]);
  }

  lemma ForkDoneInv(init: nat, m: Table, m': Table, s: nat)
    requires Inv(init, m) && ForkDone(m, m', s)
    ensures Inv(init, m')
  {
    assert SlotOk(init, m, s);
    OneSlotTree(init, m, m', s, m'.procs[s]);
    OneSlotPids(m, m', s, m'.procs[s]);
  }

  lemma DispatchInv(init: nat, m: Table, m': Table, s: nat)
    requires Inv(init, m) && Dispatch(m, m', s)
    ensures Inv(init, m')
  {
    assert SlotOk(init, m, s);
    OneSlotTree(init, m, m', s, m'.procs[s]);
    OneSlotPids(m, m', s, m'.procs[s]);
  }

  lemma YieldInv(init: nat, m: Table, m': Table, p: nat)
    requires Inv(init, m) && Yield(m, m', p)
    ensures Inv(init, m')
  {
    assert SlotOk(init, m, p);
    OneSlotTree(init, m, m', p, m'.procs[p]);
    OneSlotPids(m, m', p, m'.procs[p]);
  }

  lemma SleepInv(init: nat, m: Table, m': Table, p: nat, addr: nat)
    requires Inv(init, m) && Sleep(m, m', p, addr)
    ensures Inv(init, m')
  {
    assert SlotOk(init, m, p);
    OneSlotTree(init, m, m', p, m'.procs[p]);
    OneSlotPids(m, m', p, m'.procs[p]);
  }

  lemma KillInv(init: nat, m: Table, m': Table, s: nat)
    requires Inv(init, m) && Kill(m, m', s)
    ensures Inv(init, m')
  {
    assert SlotOk(init, m, s);
    OneSlotTree(init, m, m', s, m'.procs[s]);
    OneSlotPids(m, m', s, m'.procs[s]);
  }

  lemma WaitSleepInv(init: nat, m: Table, m': Table, p: nat)
    requires Inv(init, m) && WaitSleep(m, m', p)
    ensures Inv(init, m')
  {
    assert SlotOk(init, m, p);
    SameZombies(m.procs, m'.procs, p);
    OneSlotTree(init, m, m', p, m'.procs[p]);
    OneSlotPids(m, m', p, m'.procs[p]);
  }

  lemma WaitReapInv(init: nat, m: Table, m': Table, p: nat, s: nat)
    requires Inv(init, m) && WaitReap(m, m', p, s)
    ensures Inv(init, m')
  {
    OneSlotTree(init, m, m', s, m'.procs[s]);
    ReapPids(m, m', s, m'.procs[s]);
  }

  lemma ReapPids(m: Table, m': Table, s: nat, p: Proc)
    requires PidsOk(m) && s < |m.procs| && m.procs[s].state.ZOMBIE? && p.state.UNUSED? && p.pid == 0
    requires m' == m.(procs := m.procs[s := p], reaped := m.reaped + [m.procs[s].pid])
    ensures PidsOk(m')
  {
    assert PidOk(m, s);
    forall x | x in m'.exited && x !in m'.reaped ensures Zombie(m', x) {
      var t :| 0 <= t < |m.procs| && m.procs[t].state.ZOMBIE? && m.procs[t].pid == x;
      assert m'.reaped[|m.reaped|] == m.procs[s].pid;
      assert m'.procs[t].state.ZOMBIE? && m'.procs[t].pid == x;
    }
    forall t | 0 <= t < |m'.procs| ensures PidOk(m', t) {
      assert PidOk(m, t);
    }
  }

  // Steps that change states and parents only: pids stay where they are.
  lemma SamePids(m: Table, m': Table)
    requires PidsOk(m) && |m'.procs| == |m.procs| && m' == m.(procs := m'.procs)
    requires forall s :: 0 <= s < |m.procs| ==>
               && m'.procs[s].pid == m.procs[s].pid
               && (m'.procs[s].state.ZOMBIE? <==> m.procs[s].state.ZOMBIE?)
               && (m'.procs[s].state.UNUSED? <==> m.procs[s].state.UNUSED?)
    ensures PidsOk(m')
  {
    forall x | x in m'.exited && x !in m'.reaped ensures Zombie(m', x) {
      var t :| 0 <= t < |m.procs| && m.procs[t].state.ZOMBIE? && m.procs[t].pid == x;
      assert m'.procs[t].state.ZOMBIE? && m'.procs[t].pid == x;
    }
    forall t | 0 <= t < |m'.procs| ensures PidOk(m', t) {
      assert PidOk(m, t);
    }
  }

  lemma WokenTree(init: nat, m: Table, m': Table, chan: Chan)
    requires TreeOk(init, m) && m'.procs == Woken(m.procs, chan)
    ensures TreeOk(init, m')
  {
    forall t | 0 <= t < |m'.procs| ensures SlotOk(init, m', t) {
      assert SlotOk(init, m, t);
      if m'.procs[t].state.SLEEPING? && m'.procs[t].chan.OfProc? {
        SameZombies(m.procs, m'.procs, t);
      }
    }
  }

  lemma WakeupInv(init: nat, m: Table, m': Table, addr: nat)
    requires Inv(init, m) && Wakeup(m, m', addr)
    ensures Inv(init, m')
  {
    WokenTree(init, m, m', Other(addr));
    SamePids(m, m');
  }

  // What exit does to a slot other than the exiting one.
  lemma ExitedSlot(procs: seq<Proc>, p: nat, init: nat, s: nat)
    requires p < |procs| && s < |procs|
    ensures |Exited(procs, p, init)| == |procs|
    ensures var q, q' := procs[s], Exited(procs, p, init)[s];
            && q'.pid == q.pid && q'.chan == q.chan && q'.killed == q.killed
            && q'.parent == (if IsChild(q, p) then Some(init) else q.parent)
            && (s == p ==> q'.state == ZOMBIE)
            && (s != p ==> q'.state == q.state || (q.state.SLEEPING? && q'.state.RUNNABLE?))
            && (s != p && q.chan.OfProc? && procs[p].parent == Some(q.chan.slot) ==> !q'.state.SLEEPING?)
            && (s != p && q.chan == OfProc(init) && HasZombie(procs, p) ==> !q'.state.SLEEPING?)
  {
  }

  lemma ExitTree(init: nat, m: Table, m': Table, p: nat)
    requires TreeOk(init, m) && Exit(init, m, m', p)
    ensures TreeOk(init, m')
  {
    ExitedSlot(m.procs, p, init, init);
    forall t | 0 <= t < |m'.procs| ensures SlotOk(init, m', t) {
      ExitSlotOk(init, m, m', p, t);
    }
  }

  lemma ExitSlotOk(init: nat, m: Table, m': Table, p: nat, t: nat)
    requires TreeOk(init, m) && Exit(init, m, m', p) && |m'.procs| == |m.procs| && t < |m.procs|
    ensures SlotOk(init, m', t)
  {
    assert SlotOk(init, m, t);
    ExitedSlot(m.procs, p, init, t);
    var q := m'.procs[t];
    if q.parent.Some? {
      ExitedSlot(m.procs, p, init, q.parent.value);
    }
    if q.state.SLEEPING? && q.chan.OfProc? {
      forall s | 0 <= s < |m'.procs| ensures !ZombieChild(m'.procs[s], t) {
        ExitedSlot(m.procs, p, init, s);
        assert SlotOk(init, m, s);
        assert !ZombieChild(m.procs[s], t);
      }
    }
  }

  lemma ExitPids(init: nat, m: Table, m': Table, p: nat)
    requires PidsOk(m) && Exit(init, m, m', p)
    ensures PidsOk(m')
  {
    forall s | 0 <= s < |m.procs|
      ensures |m'.procs| == |m.procs| && m'.procs[s].pid == m.procs[s].pid
      ensures m'.procs[s].state.ZOMBIE? <==> m.procs[s].state.ZOMBIE? || s == p
      ensures m'.procs[s].state.UNUSED? <==> m.procs[s].state.UNUSED?
    {
      ExitedSlot(m.procs, p, init, s);
    }
    assert PidOk(m, p);
    forall x | x in m'.exited && x !in m'.reaped ensures Zombie(m', x) {
      if x == m.procs[p].pid {
        assert m'.procs[p].state.ZOMBIE?;
      } else {
        var t :| 0 <= t < |m.procs| && m.procs[t].state.ZOMBIE? && m.procs[t].pid == x;
        assert m'.procs[t].state.ZOMBIE? && m'.procs[t].pid == x;
      }
    }
    forall t | 0 <= t < |m'.procs| ensures PidOk(m', t) {
      assert PidOk(m, t);
    }
  }

  lemma ExitInv(init: nat, m: Table, m': Table, p: nat)
    requires Inv(init, m) && Exit(init, m, m', p)
    ensures Inv(init, m')
  {
    ExitTree(init, m, m', p);
    ExitPids(init, m, m', p);
  }

  lemma NextInv(init: nat, m: Table, m': Table)
    requires Inv(init, m) && Next(init, m, m')
    ensures Inv(init, m')
  {
    if m' == m {
    } else if s :| AllocProc(m, m', s) {
      AllocProcInv(init, m, m', s);
    } else if s :| ForkAbort(m, m', s) {
      ForkAbortInv(init, m, m', s);
    } else if p, s :| SetParent(m, m', p, s) {
      SetParentInv(init, m, m', p, s);
    } else if s :| ForkDone(m, m', s) {
      ForkDoneInv(init, m, m', s);
    } else if s :| Dispatch(m, m', s) {
      DispatchInv(init, m, m', s);
    } else if p :| Yield(m, m', p) {
      YieldInv(init, m, m', p);
    } else if p, addr :| Sleep(m, m', p, addr) {
      SleepInv(init, m, m', p, addr);
    } else if addr :| Wakeup(m, m', addr) {
      WakeupInv(init, m, m', addr);
    } else if s :| Kill(m, m', s) {
      KillInv(init, m, m', s);
    } else if p :| Exit(init, m, m', p) {
      ExitInv(init, m, m', p);
    } else if p, s :| WaitReap(m, m', p, s) {
      WaitReapInv(init, m, m', p, s);
    } else {
      var p :| WaitSleep(m, m', p);
      WaitSleepInv(init, m, m', p);
    }
  }

  // --- runs ---------------------------------------------------------------------------------

  ghost predicate Run(init: nat, run: seq<Table>) {
    && |run| > 0 && Start(init, run[0])
    && forall i :: 0 <= i < |run| - 1 ==> Next(init, run[i], run[i + 1])
  }

  lemma {:induction false} RunInv(init: nat, run: seq<Table>, i: nat)
    requires Run(init, run) && i < |run|
    ensures Inv(init, run[i])
  {
    if i == 0 {
      StartInv(init, run[0]);
    } else {
      RunInv(init, run, i - 1);
      NextInv(init, run[i - 1], run[i]);
    }
  }

  // Nobody sleeps in wait while one of their children is a zombie.
  lemma NoMissedExit(init: nat, run: seq<Table>, i: nat, p: nat, s: nat)
    requires Run(init, run) && i < |run| && p < |run[i].procs| && s < |run[i].procs|
    requires run[i].procs[p].state.SLEEPING? && run[i].procs[p].chan.OfProc?
    ensures run[i].procs[p].chan.slot == p && !ZombieChild(run[i].procs[s], p)
  {
    RunInv(init, run, i);
    assert SlotOk(init, run[i], p);
  }

  // Every process but init, running or dead, has a live parent, who can wait for it.
  lemma LiveParent(init: nat, run: seq<Table>, i: nat, s: nat)
    requires Run(init, run) && i < |run| && s < |run[i].procs| && s != init
    requires Live(run[i].procs[s]) || run[i].procs[s].state.ZOMBIE?
    ensures var q := run[i].procs[s].parent;
            q.Some? && q.value < |run[i].procs| && Live(run[i].procs[q.value])
  {
    RunInv(init, run, i);
    assert SlotOk(init, run[i], s);
  }

  // No pid is returned by two calls of wait, and what is returned has exited.
  lemma ReapedOnce(init: nat, run: seq<Table>, i: nat, j: nat, k: nat)
    requires Run(init, run) && i < |run| && j < k < |run[i].reaped|
    ensures run[i].reaped[j] != run[i].reaped[k] && run[i].reaped[j] in run[i].exited
  {
    RunInv(init, run, i);
  }

  // A pid that wait has returned is in no slot any more.
  lemma ReapedGone(init: nat, run: seq<Table>, i: nat, x: nat, s: nat)
    requires Run(init, run) && i < |run| && x in run[i].reaped && s < |run[i].procs|
    ensures run[i].procs[s].pid != x
  {
    RunInv(init, run, i);
    assert PidOk(run[i], s);
  }

  // No exit is lost: a pid that has exited has been returned, or is still in the table under a
  // live parent (or is init's own, which never exits).
  lemma ExitNotLost(init: nat, run: seq<Table>, i: nat, x: nat) returns (s: nat)
    requires Run(init, run) && i < |run| && x in run[i].exited && x !in run[i].reaped
    ensures s < |run[i].procs| && run[i].procs[s].pid == x && run[i].procs[s].state.ZOMBIE?
    ensures var q := run[i].procs[s].parent;
            q.Some? && q.value < |run[i].procs| && Live(run[i].procs[q.value])
  {
    RunInv(init, run, i);
    s :| 0 <= s < |run[i].procs| && run[i].procs[s].state.ZOMBIE? && run[i].procs[s].pid == x;
    assert SlotOk(init, run[i], s);
  }

  // --- waking up --------------------------------------------------------------------------------

  // Every sleeper on the channel is runnable, with all else as it was, and nobody else has changed.
  ghost predicate AllAwake(procs: seq<Proc>, procs': seq<Proc>, chan: Chan) {
    && |procs'| == |procs|
    && forall s :: 0 <= s < |procs| ==>
         && (procs[s].state == SLEEPING && procs[s].chan == chan ==> procs'[s] == procs[s].(state := RUNNABLE))
         && (procs[s].state != SLEEPING || procs[s].chan != chan ==> procs'[s] == procs[s])
  }

  lemma WakeupWakes(m: Table, m': Table, addr: nat)
    requires Wakeup(m, m', addr)
    ensures AllAwake(m.procs, m'.procs, Other(addr)) && m' == m.(procs := m'.procs)
  {
  }

  // A step that is a wakeup of the channel or a kill of the slot.
  ghost predicate Rouses(m: Table, m': Table, s: nat, addr: nat) {
    Wakeup(m, m', addr) || Kill(m, m', s)
  }

  lemma SleeperStep(init: nat, m: Table, m': Table, s: nat, addr: nat)
    requires Next(init, m, m') && s < |m.procs| && m.procs[s].state.SLEEPING? && m.procs[s].chan == Other(addr)
    ensures |m'.procs| == |m.procs|
    ensures m'.procs[s].chan == Other(addr)
    ensures m'.procs[s].state == if Rouses(m, m', s, addr) then RUNNABLE else SLEEPING
  {
    if p :| Exit(init, m, m', p) {
      ExitedOther(m.procs, p, init, s);
    } else if a :| Wakeup(m, m', a) {
      WakeupWakes(m, m', a);
    }
  }

  // exit wakes nobody who sleeps outside wait.
  lemma ExitedOther(procs: seq<Proc>, p: nat, init: nat, s: nat)
    requires p < |procs| && s < |procs| && s != p && procs[s].chan.Other?
    ensures |Exited(procs, p, init)| == |procs|
    ensures Exited(procs, p, init)[s].state == procs[s].state && Exited(procs, p, init)[s].chan == procs[s].chan
  {
  }

  // Slot s sleeps on the address in states i to j.
  ghost predicate Sleeps(run: seq<Table>, i: nat, j: nat, s: nat, addr: nat) {
    forall k :: i <= k <= j < |run| ==> s < |run[k].procs| && run[k].procs[s].state.SLEEPING? && run[k].procs[s].chan == Other(addr)
  }

  // A process asleep on a channel stays asleep exactly as long as nobody wakes that channel or kills it.
  lemma {:induction false} AsleepExactly(init: nat, run: seq<Table>, i: nat, j: nat, s: nat, addr: nat)
    requires Run(init, run) && i <= j < |run| && Sleeps(run, i, i, s, addr)
    ensures Sleeps(run, i, j, s, addr) <==> (forall k :: i <= k < j ==> !Rouses(run[k], run[k + 1], s, addr))
    decreases j
  {
    if i < j {
      var h := j - 1;
      AsleepExactly(init, run, i, h, s, addr);
      assert Next(init, run[h], run[h + 1]);
      assert Sleeps(run, i, j, s, addr) ==> Sleeps(run, i, h, s, addr);
      if Sleeps(run, i, h, s, addr) {
        SleeperStep(init, run[h], run[h + 1], s, addr);
      }
    }
  }

  // A slot that allocproc takes has no children left over from its previous life.
  lemma NoStrayChildren(init: nat, run: seq<Table>, i: nat, s: nat, t: nat)
    requires Run(init, run) && i + 1 < |run| && AllocProc(run[i], run[i + 1], s) && t < |run[i].procs|
    ensures |run[i + 1].procs| == |run[i].procs| && !IsChild(run[i + 1].procs[t], s)
  {
    RunInv(init, run, i);
    assert SlotOk(init, run[i], t);
  }

  // --- fork among other processes -----------------------------------------------------------

  // A step of the fork that is filling in slot s.
  ghost predicate ForkStep(m: Table, m': Table, s: nat) {
    ForkAbort(m, m', s) || (exists p :: SetParent(m, m', p, s)) || ForkDone(m, m', s)
  }

  // Whatever other processes do meanwhile, a slot that is being filled in stays as it is, except
  // that it can be marked killed, and that init takes the place of a parent that exits.
  ghost predicate SameEmbryo(init: nat, a: Proc, b: Proc) {
    && b.state.EMBRYO? && b.pid == a.pid && (a.killed ==> b.killed)
    && (b.parent == a.parent || (a.parent.Some? && b.parent == Some(init)))
  }

  lemma EmbryoStep(init: nat, m: Table, m': Table, s: nat)
    requires Next(init, m, m') && s < |m.procs| && m.procs[s].state.EMBRYO? && !ForkStep(m, m', s)
    ensures |m'.procs| == |m.procs| && SameEmbryo(init, m.procs[s], m'.procs[s])
  {
    if p :| Exit(init, m, m', p) {
      ExitedSlot(m.procs, p, init, s);
    }
  }

  // Between allocproc in step i and state j the child keeps its slot and its pid, and no other slot
  // in use has that pid.
  lemma {:induction false} ForkUndisturbed(init: nat, run: seq<Table>, i: nat, j: nat, s: nat)
    requires Run(init, run) && i < j < |run| && AllocProc(run[i], run[i + 1], s)
    requires forall k :: i < k < j ==> !ForkStep(run[k], run[k + 1], s)
    ensures s < |run[j].procs| && run[j].procs[s].state.EMBRYO? && run[j].procs[s].pid == run[i].nextpid
    ensures run[j].procs[s].parent.None?
    ensures forall t :: 0 <= t < |run[j].procs| && t != s && !run[j].procs[t].state.UNUSED? ==> run[j].procs[t].pid != run[i].nextpid
    decreases j
  {
    RunInv(init, run, j);
    RunInv(init, run, i);
    if j == i + 1 {
      assert SlotOk(init, run[i], s);
    } else {
      ForkUndisturbed(init, run, i, j - 1, s);
      assert Next(init, run[j - 1], run[j - 1 + 1]) && !ForkStep(run[j - 1], run[j - 1 + 1], s);
      EmbryoStep(init, run[j - 1], run[j], s);
    }
  }

  // --- processes that are born killed --------------------------------------------------------

  // kill does not look at the state of the slot it finds, and allocproc does not clear killed.
  predicate Unborn(p: Proc) {
    p.state.UNUSED? || p.state.EMBRYO?
  }

  // What a step can do to the flag of slot s.
  lemma FlagStep(init: nat, m: Table, m': Table, s: nat)
    requires Next(init, m, m') && s < |m.procs|
    ensures |m'.procs| == |m.procs|
    ensures var q, q' := m.procs[s], m'.procs[s];
            && (q'.killed && !q.killed ==> Kill(m, m', s))
            && (Unborn(q') && !Unborn(q) ==> !q'.killed)
            && (Unborn(q) && q.killed ==> q'.killed)
  {
    if p :| Exit(init, m, m', p) {
      ExitedSlot(m.procs, p, init, s);
    }
  }

  // The slot was hit by a kill in step k and has not held a process since.
  ghost predicate HitUnborn(run: seq<Table>, s: nat, k: nat, i: nat) {
    && 0 <= k < i < |run| && Kill(run[k], run[k + 1], s)
    && forall j :: k < j <= i ==> s < |run[j].procs| && Unborn(run[j].procs[s])
  }

  lemma {:induction false} FlagHistory(init: nat, run: seq<Table>, i: nat, s: nat)
    requires Run(init, run) && i < |run| && s < |run[0].procs|
    ensures |run[i].procs| == |run[0].procs|
    ensures Unborn(run[i].procs[s]) ==> (run[i].procs[s].killed <==> exists k: nat :: HitUnborn(run, s, k, i))
  {
    if i > 0 {
      FlagHistory(init, run, i - 1, s);
      assert Next(init, run[i - 1], run[i - 1 + 1]);
      FlagStep(init, run[i - 1], run[i], s);
      if Unborn(run[i].procs[s]) {
        FlagBack(run, i - 1, i, s);
      }
    }
  }

  lemma FlagBack(run: seq<Table>, h: nat, i: nat, s: nat)
    requires i == h + 1 < |run| && s < |run[h].procs| == |run[i].procs| && Unborn(run[i].procs[s])
    requires var q, q' := run[h].procs[s], run[i].procs[s];
             && (q'.killed && !q.killed ==> Kill(run[h], run[i], s))
             && (!Unborn(q) ==> !q'.killed) && (Unborn(q) && q.killed ==> q'.killed)
             && (Unborn(q) ==> (q.killed <==> exists k: nat :: HitUnborn(run, s, k, h)))
    ensures run[i].procs[s].killed <==> exists k: nat :: HitUnborn(run, s, k, i)
  {
    if run[i].procs[s].killed {
      if run[h].procs[s].killed {
        var k: nat :| HitUnborn(run, s, k, h);
        assert HitUnborn(run, s, k, i);
      } else {
        assert HitUnborn(run, s, h, i);
      }
    }
    if k: nat :| HitUnborn(run, s, k, i) {
      assert k < h ==> HitUnborn(run, s, k, h);
    }
  }

  // A new process starts its life killed if and only if a kill has hit its slot while the slot was
  // unused or being filled in, since the last process there was reaped.
  lemma BornKilledExactly(init: nat, run: seq<Table>, i: nat, s: nat)
    requires Run(init, run) && i + 1 < |run| && s < |run[0].procs| && ForkDone(run[i], run[i + 1], s)
    ensures run[i + 1].procs[s].killed <==> exists k: nat :: HitUnborn(run, s, k, i)
  {
    FlagHistory(init, run, i, s);
  }

  // kill(0) finds the first unused slot, and the next process made there is born killed.
  lemma BornKilled() returns (run: seq<Table>)
    ensures Run(0, run) && |run| == 6 && |run[0].procs| == 2
    ensures Kill(run[1], run[2], 1) && run[1].procs[1].pid == 0 && run[1].procs[0].pid != 0
    ensures ForkDone(run[4], run[5], 1) && run[5].procs[1].state.RUNNABLE? && run[5].procs[1].killed
  {
    var i0, free := Proc(RUNNABLE, 1, None, NoChan, false), Proc(UNUSED, 0, None, NoChan, false);
    var i1 := i0.(state := RUNNING);
    var m0 := Table([i0, free], 2, {}, []);
    var m1 := m0.(procs := [i1, free]);
    var m2 := m0.(procs := [i1, free.(killed := true)]);
    var p := Proc(EMBRYO, 2, None, NoChan, true);
    var m3 := Table([i1, p], 3, {}, []);
    var m4 := m3.(procs := [i1, p.(parent := Some(0))]);
    var m5 := m3.(procs := [i1, p.(parent := Some(0), state := RUNNABLE)]);
    assert Dispatch(m0, m1, 0);
    assert Kill(m1, m2, 1);
    assert AllocProc(m2, m3, 1);
    assert SetParent(m3, m4, 0, 1);
    assert ForkDone(m4, m5, 1);
    run := [m0, m1, m2, m3, m4, m5];
  }

  // --- the code of the critical sections ---------------------------------------------------

  // What one round of wait's loop ends with.
  datatype Waited = Reaped(pid: nat) | Failed | Asleep

  predicate HasChild(procs: seq<Proc>, p: nat) {
    exists s :: 0 <= s < |procs| && IsChild(procs[s], p)
  }

  class Ptable {
    const init: nat
    var procs: seq<Proc>
    var nextpid: nat
    ghost var m: Table
    ghost var run: seq<Table>      // the states of the table since userinit, m the last

    ghost predicate Valid()
      reads this
    {
      && Run(init, run) && run[|run| - 1] == m
      && m.procs == procs && m.nextpid == nextpid
    }

    ghost predicate Running(p: nat)
      reads this
    {
      p < |procs| && procs[p].state.RUNNING?
    }

    // The table after userinit: slot 0 is init.
    constructor (slots: nat)
      requires slots > 0
      ensures Valid() && init == 0 && |procs| == slots
    {
      init := 0;
      var all := seq(slots, s => if s == 0 then Proc(RUNNABLE, 1, None, NoChan, false)
                                 else Proc(UNUSED, 0, None, NoChan, false));
      procs := all;
      nextpid := 2;
      m := Table(all, 2, {}, []);
      run := [Table(all, 2, {}, [])];
    }

    // The table has become m' in one step.
    ghost method Step(m': Table)
      requires Run(init, run) && run[|run| - 1] == m && Next(init, m, m') && procs == m'.procs && nextpid == m'.nextpid
      modifies this`m, this`run
      ensures Valid() && m == m' && run == old(run) + [m']
    {
      m, run := m', run + [m'];
    }

    method Allocproc() returns (s: Option<nat>)
      requires Valid()
      modifies this
      ensures Valid()
      ensures s.Some? ==> AllocProc(old(m), m, s.value) && forall i :: 0 <= i < s.value ==> !old(procs)[i].state.UNUSED?
      ensures s.None? ==> m == old(m) && forall i :: 0 <= i < |procs| ==> !procs[i].state.UNUSED?
    {
      for i := 0 to |procs|
        invariant forall j :: 0 <= j < i ==> !procs[j].state.UNUSED?
        invariant m == old(m) && Valid()
      {
        if procs[i].state.UNUSED? {
          procs, nextpid := procs[i := procs[i].(state := EMBRYO, pid := nextpid)], nextpid + 1;
          ghost var m' := m.(procs := procs, nextpid := nextpid);
          assert AllocProc(m, m', i);
          Step(m');
          return Some(i);
        }
      }
      s := None;
    }

    // fork, nothing else happening meanwhile; the flags say whether kalloc and copyuvm find memory.
    method Fork(curproc: nat, kstack: bool, pages: bool) returns (pid: Option<nat>)
      requires Valid() && Running(curproc)
      modifies this
      ensures Valid()
      ensures pid.Some? <==> kstack && pages && exists s :: 0 <= s < |old(procs)| && old(procs)[s].state.UNUSED?
      ensures pid.Some? ==>
                exists s :: 0 <= s < |old(procs)| && old(procs)[s].state.UNUSED?
                  && procs == old(procs)[s := old(procs)[s].(state := RUNNABLE, pid := pid.value, parent := Some(curproc))]
      ensures pid.Some? ==> forall s :: 0 <= s < |old(procs)| && !old(procs)[s].state.UNUSED? ==> old(procs)[s].pid != pid.value
      ensures pid.None? ==>
                |procs| == |old(procs)| && forall s :: 0 <= s < |procs| ==>
                  procs[s].state == old(procs)[s].state && procs[s].parent == old(procs)[s].parent
    {
      RunInv(init, run, |run| - 1);
      var np := Allocproc();
      if np.None? {
        return None;
      }
      var s := np.value;
      assert SlotOk(init, old(m), s);
      if !kstack || !pages {
        procs := procs[s := procs[s].(state := UNUSED)];
        assert ForkAbort(m, m.(procs := procs), s);
        Step(m.(procs := procs));
        return None;
      }
      procs := procs[s := procs[s].(parent := Some(curproc))];
      assert SetParent(m, m.(procs := procs), curproc, s);
      Step(m.(procs := procs));
      procs := procs[s := procs[s].(state := RUNNABLE)];
      assert ForkDone(m, m.(procs := procs), s);
      Step(m.(procs := procs));
      pid := Some(procs[s].pid);
      forall t | 0 <= t < |old(procs)| && !old(procs)[t].state.UNUSED? ensures old(procs)[t].pid != pid.value {
        assert PidOk(old(m), t);
      }
    }

    method Wakeup1(chan: Chan)
      modifies this`procs
      ensures procs == Woken(old(procs), chan) && AllAwake(old(procs), procs, chan)
    {
      for i := 0 to |procs|
        invariant |procs| == |old(procs)|
        invariant forall j :: 0 <= j < i ==> procs[j] == Woken1(old(procs)[j], chan)
        invariant forall j :: i <= j < |procs| ==> procs[j] == old(procs)[j]
      {
        if procs[i].state.SLEEPING? && procs[i].chan == chan {
          procs := procs[i := procs[i].(state := RUNNABLE)];
        }
      }
    }

    method WakeupAll(addr: nat)
      requires Valid()
      modifies this
      ensures Valid() && Wakeup(old(m), m, addr) && AllAwake(old(procs), procs, Other(addr))
    {
      Wakeup1(Other(addr));
      assert Wakeup(m, m.(procs := procs), addr);
      Step(m.(procs := procs));
    }

    method KillPid(pid: nat) returns (found: bool)
      requires Valid()
      modifies this
      ensures Valid()
      ensures found <==> exists s :: 0 <= s < |old(procs)| && old(procs)[s].pid == pid
      ensures found ==> exists s: nat :: Kill(old(m), m, s) && old(procs)[s].pid == pid
                                    && (forall t :: 0 <= t < s ==> old(procs)[t].pid != pid)
                                    && procs == old(procs)[s := old(procs)[s].(killed := true, state := procs[s].state)]
                                    && procs[s].state == if old(procs)[s].state == SLEEPING then RUNNABLE else old(procs)[s].state
      ensures !found ==> m == old(m)
    {
      for i := 0 to |procs|
        invariant forall j :: 0 <= j < i ==> procs[j].pid != pid
        invariant m == old(m) && Valid()
      {
        if procs[i].pid == pid {
          procs := procs[i := procs[i].(killed := true)];
          if procs[i].state.SLEEPING? {
            procs := procs[i := procs[i].(state := RUNNABLE)];
          }
          ghost var m' := m.(procs := procs);
          assert m'.procs == m.procs[i := Killed(m.procs[i])];
          assert Kill(m, m', i);
          Step(m');
          return true;
        }
      }
      found := false;
    }

    // exit, from the moment the lock is taken.
    method ExitProc(curproc: nat)
      requires Valid() && Running(curproc) && curproc != init
      modifies this
      ensures Valid() && Exit(init, old(m), m, curproc)
    {
      RunInv(init, run, |run| - 1);
      assert SlotOk(init, m, curproc);
      Wakeup1(OfProc(procs[curproc].parent.value));
      PassChildren(curproc);
      procs := procs[curproc := procs[curproc].(state := ZOMBIE)];
      ghost var m' := m.(procs := procs, exited := m.exited + {m.procs[curproc].pid});
      assert Exit(init, m, m', curproc);
      Step(m');
    }

    // The loop of exit; init is woken once for every zombie passed to it.
    method PassChildren(curproc: nat)
      requires curproc != init
      modifies this`procs
      ensures var passed := Reparented(old(procs), curproc, init);
              procs == if HasZombie(old(procs), curproc) then Woken(passed, OfProc(init)) else passed
    {
      var zombie := false;
      for i := 0 to |procs|
        invariant |procs| == |old(procs)|
        invariant zombie <==> HasZombie(old(procs)[..i], curproc)
        invariant forall j :: 0 <= j < |procs| ==>
                    procs[j] == var q := if j < i then Orphan(old(procs)[j], curproc, init) else old(procs)[j];
                                if zombie then Woken1(q, OfProc(init)) else q
      {
        ghost var z := zombie;
        assert old(procs)[..i + 1] == old(procs)[..i] + [old(procs)[i]];
        if IsChild(procs[i], curproc) {
          procs := procs[i := procs[i].(parent := Some(init))];
          if procs[i].state.ZOMBIE? {
            Wakeup1(OfProc(init));
            zombie := true;
          }
        }
        assert z ==> HasZombie(old(procs)[..i + 1], curproc) by {
          if z {
            var s :| 0 <= s < i && ZombieChild(old(procs)[..i][s], curproc);
            assert ZombieChild(old(procs)[..i + 1][s], curproc);
          }
        }
        assert zombie && !z ==> ZombieChild(old(procs)[..i + 1][i], curproc);
      }
      assert old(procs)[..|old(procs)|] == old(procs);
    }

    // One round of the loop of wait, and of new_wait, up to the point where the lock is dropped.
    method Wait(curproc: nat) returns (r: Waited)
      requires Valid() && Running(curproc)
      modifies this
      ensures Valid()
      ensures r.Reaped? <==> HasZombie(old(procs), curproc)
      ensures r.Reaped? ==> exists s: nat :: WaitReap(old(m), m, curproc, s) && r.pid == old(procs)[s].pid
                                    && procs == old(procs)[s := Proc(UNUSED, 0, None, old(procs)[s].chan, false)]
      ensures r.Reaped? ==> forall t :: 0 <= t < |procs| ==> procs[t].pid != r.pid
      ensures r.Failed? ==> m == old(m) && (!HasChild(procs, curproc) || procs[curproc].killed)
      ensures r.Asleep? ==> WaitSleep(old(m), m, curproc) && HasChild(old(procs), curproc) && !old(procs)[curproc].killed
    {
      var havekids := false;
      for i := 0 to |procs|
        invariant m == old(m) && Valid()
        invariant forall j :: 0 <= j < i ==> !ZombieChild(procs[j], curproc)
        invariant havekids <==> exists j :: 0 <= j < i && IsChild(procs[j], curproc)
      {
        if IsChild(procs[i], curproc) {
          havekids := true;
          if procs[i].state.ZOMBIE? {
            r := Reaped(procs[i].pid);
            ghost var was := m;
            procs := procs[i := procs[i].(state := UNUSED, pid := 0, parent := None, killed := false)];
            ghost var m' := m.(procs := procs, reaped := m.reaped + [m.procs[i].pid]);
            assert ZombieChild(old(procs)[i], curproc);
            assert WaitReap(was, m', curproc, i);
            Step(m');
            assert m.reaped[|was.reaped|] == r.pid;
            forall t | 0 <= t < |procs| ensures procs[t].pid != r.pid {
              ReapedGone(init, run, |run| - 1, r.pid, t);
            }
            return;
          }
        }
      }
      if !havekids || procs[curproc].killed {
        return Failed;
      }
      procs := procs[curproc := procs[curproc].(state := SLEEPING, chan := OfProc(curproc))];
      ghost var m' := m.(procs := procs);
      assert WaitSleep(m, m', curproc);
      Step(m');
      r := Asleep;
    }
  }
}
