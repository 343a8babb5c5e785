/**
 A sleep-lock shared by any number of processes: acquiresleep and releasesleep step by step,
 with the spinlock lk->lk, ptable.lock, the hand-over from one to the other inside sleep, and
 wakeups that are not meant for the sleeper.
 */
module SleepLock {

  import opened Kernel

  // Where a process is.
  datatype PC =
    | Idle | Holding             // outside, without or with the sleep-lock
    | Busy(holds: bool)          // outside, in some other section of ptable.lock
    | Test | Got                 // acquiresleep: lk->lk taken; locked set
    | Sleep0 | Sleep1 | Sleep2   // sleep: called; ptable.lock taken; lk->lk released
    | Asleep(runnable: bool)     // switched away from
    | Wake1 | Wake2              // sleep: switched back to; ptable.lock released
    | Rls1 | Rls2 | Rls3 | Rls4 | Rls5
                                 // releasesleep: lk->lk taken; locked cleared; wakeup has ptable.lock;
                                 // has woken; has released ptable.lock

  // `owner` is lk->pid, `spin` and `ptable` the holders of lk->lk and ptable.lock.
  datatype Machine = Machine(locked: bool, owner: Option<nat>, spin: Option<nat>, ptable: Option<nat>, pcs: seq<PC>)

  function HoldsSpin(pc: PC): bool {
    pc.Test? || pc.Got? || pc.Sleep0? || pc.Sleep1? || pc.Rls1? || pc.Rls2? || pc.Rls3? || pc.Rls4? || pc.Rls5?
  }

  function HoldsPtable(pc: PC): bool {
    pc.Busy? || pc.Sleep1? || pc.Sleep2? || pc.Wake1? || pc.Rls3? || pc.Rls4?
  }

  // Between setting and clearing lk->locked.
  function Owns(pc: PC): bool {
    pc.Got? || pc.Holding? || pc == Busy(true) || pc.Rls1?
  }

  function Woken1(pc: PC): PC {
    if pc.Asleep? then Asleep(true) else pc
  }

  function Woken(pcs: seq<PC>): (r: seq<PC>)
    ensures |r| == |pcs| && forall p :: 0 <= p < |r| ==> r[p] == Woken1(pcs[p])
  {
    seq(|pcs|, p requires 0 <= p < |pcs| => Woken1(pcs[p]))
  }

  ghost function To(m: Machine, p: nat, pc: PC): Machine
    requires p < |m.pcs|
  {
    m.(pcs := m.pcs[p := pc])
  }

  ghost predicate TakeSpin(m: Machine, m': Machine, p: nat, pc: PC)
    requires p < |m.pcs|
  {
    m.spin.None? && m' == To(m, p, pc).(spin := Some(p))
  }

  ghost predicate TakePtable(m: Machine, m': Machine, p: nat, pc: PC)
    requires p < |m.pcs|
  {
    m.ptable.None? && m' == To(m, p, pc).(ptable := Some(p))
  }

  // One step of process p, or of the scheduler on its behalf.
  ghost predicate Step(m: Machine, m': Machine, p: nat) {
    && p < |m.pcs|
    && match m.pcs[p]
       case Idle => TakeSpin(m, m', p, Test) || TakePtable(m, m', p, Busy(false))
       case Test => if m.locked then m' == To(m, p, Sleep0) else m' == To(m, p, Got).(locked := true, owner := Some(p))
       case Got => m' == To(m, p, Holding).(spin := None)
       case Sleep0 => TakePtable(m, m', p, Sleep1)
       case Sleep1 => m' == To(m, p, Sleep2).(spin := None)
       case Sleep2 => m' == To(m, p, Asleep(false)).(ptable := None)
       case Asleep(runnable) => runnable && TakePtable(m, m', p, Wake1)
       case Wake1 => m' == To(m, p, Wake2).(ptable := None)
       case Wake2 => TakeSpin(m, m', p, Test)
       case Holding => TakeSpin(m, m', p, Rls1) || TakePtable(m, m', p, Busy(true))
       case Rls1 => m' == To(m, p, Rls2).(locked := false, owner := None)
       case Rls2 => TakePtable(m, m', p, Rls3)
       case Rls3 => m' == m.(pcs := Woken(m.pcs)[p := Rls4])
       case Rls4 => m' == To(m, p, Rls5).(ptable := None)
       case Rls5 => m' == To(m, p, Idle).(spin := None)
       case Busy(holds) =>
         || m' == To(m, p, if holds then Holding else Idle).(ptable := None)
         || exists q :: Kills(m, m', q)
  }

  // kill, called by a process in a section of ptable.lock, wakes q whatever it sleeps on.
  ghost predicate Kills(m: Machine, m': Machine, q: nat) {
    q < |m.pcs| && m' == To(m, q, Woken1(m.pcs[q]))
  }

  // --- the invariant -----------------------------------------------------------------------

  // Somebody is between clearing `locked` and waking the sleepers.
  ghost predicate Releasing(m: Machine) {
    m.spin.Some? && m.spin.value < |m.pcs| && (m.pcs[m.spin.value].Rls2? || m.pcs[m.spin.value].Rls3?)
  }

  ghost predicate ProcOk(m: Machine, p: nat)
    requires p < |m.pcs|
  {
    var pc := m.pcs[p];
    && (m.spin == Some(p) <==> HoldsSpin(pc))
    && (m.ptable == Some(p) <==> HoldsPtable(pc))
    && (m.owner == Some(p) <==> Owns(pc))
    && (pc.Sleep0? || pc.Sleep1? ==> m.locked)
    && (pc.Sleep2? || pc == Asleep(false) ==> m.locked || Releasing(m))
  }

  ghost predicate Inv(m: Machine) {
    && (m.spin.Some? ==> m.spin.value < |m.pcs|)
    && (m.ptable.Some? ==> m.ptable.value < |m.pcs|)
    && (m.owner.Some? ==> m.owner.value < |m.pcs|)
    && (m.locked <==> m.owner.Some?)
    && forall p :: 0 <= p < |m.pcs| ==> ProcOk(m, p)
  }

  ghost predicate Start(m: Machine) {
    && m.locked == false && m.owner.None? && m.spin.None? && m.ptable.None?
    && forall p :: 0 <= p < |m.pcs| ==> m.pcs[p] == Idle
  }

  lemma OutsideStepInv(m: Machine, m': Machine, p: nat)
    requires Inv(m) && Step(m, m', p)
    requires var pc := m.pcs[p]; pc.Idle? || pc.Holding? || pc.Busy?
    ensures Inv(m')
  {
    assert ProcOk(m, p);
    forall q | 0 <= q < |m'.pcs| ensures ProcOk(m', q) {
      assert ProcOk(m, q);
    }
  }

  lemma AcquireStepInv(m: Machine, m': Machine, p: nat)
    requires Inv(m) && Step(m, m', p)
    requires var pc := m.pcs[p]; pc.Test? || pc.Got? || pc.Wake1? || pc.Wake2? || pc.Asleep?
    ensures Inv(m')
  {
    assert ProcOk(m, p);
    forall q | 0 <= q < |m'.pcs| ensures ProcOk(m', q) {
      assert ProcOk(m, q);
    }
  }

  lemma SleepStepInv(m: Machine, m': Machine, p: nat)
    requires Inv(m) && Step(m, m', p)
    requires var pc := m.pcs[p]; pc.Sleep0? || pc.Sleep1? || pc.Sleep2?
    ensures Inv(m')
  {
    assert ProcOk(m, p);
    forall q | 0 <= q < |m'.pcs| ensures ProcOk(m', q) {
      assert ProcOk(m, q);
    }
  }

  lemma ReleaseStepInv(m: Machine, m': Machine, p: nat)
    requires Inv(m) && Step(m, m', p)
    requires var pc := m.pcs[p]; pc.Rls1? || pc.Rls2? || pc.Rls3? || pc.Rls4? || pc.Rls5?
    ensures Inv(m')
  {
    assert ProcOk(m, p);
    forall q | 0 <= q < |m'.pcs| ensures ProcOk(m', q) {
      assert ProcOk(m, q);
    }
  }

  lemma StepInv(m: Machine, m': Machine, p: nat)
    requires Inv(m) && Step(m, m', p)
    ensures Inv(m')
  {
    match m.pcs[p]
    case Idle | Holding | Busy(_) => OutsideStepInv(m, m', p);
    case Sleep0 | Sleep1 | Sleep2 => SleepStepInv(m, m', p);
    case Rls1 | Rls2 | Rls3 | Rls4 | Rls5 => ReleaseStepInv(m, m', p);
    case Test | Got | Wake1 | Wake2 | Asleep(_) => AcquireStepInv(m, m', p);
  }

  // --- runs ------------------------------------------------------------------------------------

  ghost predicate Next(m: Machine, m': Machine) {
    exists p :: Step(m, m', p)
  }

  ghost predicate Run(run: seq<Machine>) {
    && |run| > 0 && Start(run[0])
    && forall i :: 0 <= i < |run| - 1 ==> Next(run[i], run[i + 1])
  }

  lemma {:induction false} RunInv(run: seq<Machine>, i: nat)
    requires Run(run) && i < |run|
    ensures Inv(run[i])
  {
    if i > 0 {
      RunInv(run, i - 1);
      assert Next(run[i - 1], run[i]);
      var p :| Step(run[i - 1], run[i], p);
      StepInv(run[i - 1], run[i], p);
    }
  }

  // At most one process holds the lock.
  lemma MutualExclusion(run: seq<Machine>, i: nat, p: nat, q: nat)
    requires Run(run) && i < |run| && p < |run[i].pcs| && q < |run[i].pcs|
    requires Owns(run[i].pcs[p]) && Owns(run[i].pcs[q])
    ensures p == q && run[i].locked
  {
    RunInv(run, i);
    assert ProcOk(run[i], p) && ProcOk(run[i], q);
  }

  // No wakeup is lost: whoever sleeps, or is past the test and about to, does so while the lock
  // is held, or while a process that has cleared it still has to wake the sleepers.
  lemma NoLostWakeup(run: seq<Machine>, i: nat, p: nat)
    requires Run(run) && i < |run| && p < |run[i].pcs|
    requires run[i].pcs[p] == Asleep(false) || run[i].pcs[p].Sleep2?
    ensures run[i].locked || exists r :: 0 <= r < |run[i].pcs| && (run[i].pcs[r].Rls2? || run[i].pcs[r].Rls3?)
  {
    RunInv(run, i);
    assert ProcOk(run[i], p);
  }

  // holdingsleep: inside lk->lk, locked && lk->pid == own pid says exactly whether the caller holds
  // the lock.
  lemma HoldingSleepExact(run: seq<Machine>, i: nat, p: nat)
    requires Run(run) && i < |run| && p < |run[i].pcs| && (run[i].pcs[p].Idle? || run[i].pcs[p].Holding?)
    ensures run[i].locked && run[i].owner == Some(p) <==> run[i].pcs[p].Holding?
  {
    RunInv(run, i);
    assert ProcOk(run[i], p);
  }

  // Whoever holds ptable.lock can take its next step.
  lemma PtableHolderMoves(m: Machine, p: nat) returns (m': Machine)
    requires Inv(m) && m.ptable == Some(p)
    ensures Step(m, m', p) && m' != m
  {
    assert ProcOk(m, p);
    match m.pcs[p]
    case Busy(holds) => m' := To(m, p, if holds then Holding else Idle).(ptable := None);
    case Sleep1 => m' := To(m, p, Sleep2).(spin := None);
    case Sleep2 => m' := To(m, p, Asleep(false)).(ptable := None);
    case Wake1 => m' := To(m, p, Wake2).(ptable := None);
    case Rls3 =>
      m' := m.(pcs := Woken(m.pcs)[p := Rls4]);
      assert m'.pcs[p] != m.pcs[p];
    case Rls4 => m' := To(m, p, Rls5).(ptable := None);
  }

  // A sleeper is never left behind with the lock free: the process that has cleared it can take
  // its next step towards the wakeup, or waits for ptable.lock and the holder of that can.
  lemma SleeperWillBeWoken(run: seq<Machine>, i: nat, p: nat) returns (r: nat, m': Machine)
    requires Run(run) && i < |run| && p < |run[i].pcs| && run[i].pcs[p] == Asleep(false) && !run[i].locked
    ensures Step(run[i], m', r) && m' != run[i] && r != p
    ensures run[i].pcs[r].Rls2? || run[i].ptable == Some(r)
  {
    RunInv(run, i);
    var m := run[i];
    assert ProcOk(m, p);
    if m.ptable.Some? {
      r := m.ptable.value;
      m' := PtableHolderMoves(m, r);
      assert ProcOk(m, r);
    } else {
      r := m.spin.value;
      assert ProcOk(m, r);
      m' := To(m, r, Rls3).(ptable := Some(r));
    }
  }
}
