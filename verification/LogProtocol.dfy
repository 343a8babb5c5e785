/**
 The write-ahead log as a state machine: one step per critical section, one for the test that
 log_write makes outside of one, and one per disk-block write.  A crash may happen between any
 two steps, including inside recovery.  The class in Log.dfy is shown to take only these steps.
 */
module LogProtocol {
  import opened Blocks
  import opened Kernel


  // Where the log lives: header at `start`, log blocks start+1 .. start+size-1.
  datatype Layout = Layout(start: nat, size: nat)

  predicate InLog(L: Layout, b: nat) {
    L.start <= b < L.start + L.size
  }

  // The log block that holds the i-th logged block.
  function LogBlock(L: Layout, i: nat): nat {
    L.start + 1 + i
  }

  predicate Home(L: Layout, d: Disk, b: nat) {
    b in d && !InLog(L, b)
  }

  ghost predicate AllHome(L: Layout, d: Disk, lh: seq<nat>) {
    forall i :: 0 <= i < |lh| ==> lh[i] in d && !InLog(L, lh[i])
  }

  ghost predicate Distinct(lh: seq<nat>) {
    forall i, j :: 0 <= i < j < |lh| ==> lh[i] != lh[j]
  }

  // --- the on-disk header -------------------------------------------------

  // struct logheader laid over a block: n, then block[0 .. LOGSIZE-1].
  function Count(h: Block): int {
    h[0]
  }

  function Entry(h: Block, i: nat): int
    requires i < LOGSIZE
  {
    h[1 + i]
  }

  ghost predicate HeaderOk(L: Layout, d: Disk) {
    && L.start in d
    && 0 <= Count(d[L.start]) <= LOGSIZE
    && Count(d[L.start]) < L.size
    && (forall i: nat :: i < Count(d[L.start]) ==>
          0 <= Entry(d[L.start], i) && Home(L, d, Entry(d[L.start], i)))
    && (forall i: nat, j: nat :: i < j < Count(d[L.start]) ==> Entry(d[L.start], i) != Entry(d[L.start], j))
  }

  ghost function HeaderPrefix(h: Block, k: nat): (r: seq<nat>)
    requires k <= LOGSIZE
    requires forall i: nat :: i < k ==> 0 <= Entry(h, i)
    ensures |r| == k && forall i :: 0 <= i < k ==> r[i] == Entry(h, i)
  {
    if k == 0 then [] else HeaderPrefix(h, k - 1) + [Entry(h, k - 1)]
  }

  // The block numbers that read_head would load.
  ghost function Header(L: Layout, d: Disk): (h: seq<nat>)
    requires HeaderOk(L, d)
    ensures |h| == Count(d[L.start]) && Distinct(h)
    ensures forall i :: 0 <= i < |h| ==> h[i] == Entry(d[L.start], i) && Home(L, d, h[i])
  {
    HeaderPrefix(d[L.start], Count(d[L.start]))
  }

  // write_head overwrites the count and the first |lh| entries; stale words stay.
  function EncodeHeader(stale: Block, lh: seq<nat>): (b: Block)
    requires |lh| <= LOGSIZE
  {
    [|lh| as int] + lh + stale[1 + |lh|..]
  }

  // --- what a crash now would lead to ------------------------------------

  // The disk after the first k log blocks were copied to their home locations.
  ghost function Installed(L: Layout, d: Disk, lh: seq<nat>, k: nat): (r: Disk)
    requires k <= |lh|
    requires forall i: nat :: i < k ==> LogBlock(L, i) in d
    requires forall i :: 0 <= i < k ==> lh[i] in d
    ensures r.Keys == d.Keys
  {
    if k == 0 then d
    else Installed(L, d, lh, k - 1)[lh[k - 1] := d[LogBlock(L, k - 1)]]
  }

  ghost function HomeBlocks(L: Layout, d: Disk): Disk {
    map b | b in d && !InLog(L, b) :: d[b]
  }

  ghost predicate DiskOk(L: Layout, d: Disk) {
    && 0 < L.size
    && (forall b: nat :: InLog(L, b) ==> b in d)
    && HeaderOk(L, d)
  }

  // The home blocks that an uninterrupted recovery from disk d would leave.
  ghost function Committed(L: Layout, d: Disk): Disk
    requires DiskOk(L, d)
  {
    assert forall i: nat :: i < |Header(L, d)| ==> InLog(L, LogBlock(L, i));
    HomeBlocks(L, Installed(L, d, Header(L, d), |Header(L, d)|))
  }

  // --- the machine ---------------------------------------------------------

  // One file-system call: the blocks it has logged, the blocks whose cached contents it has
  // changed without having called log_write yet, and the block of a log_write that has made its
  // space test but does not have the lock yet.
  datatype Op = Active(logged: set<nat>, touched: set<nat>, call: Option<nat>) | Done

  datatype Phase =
    | Running                 // system calls may be active
    | Copying(tail: nat)      // write_log, then the header write that commits
    | Installing(tail: nat)   // install_trans, then the header write that clears
    | Cleared                 // back in end_op, `committing` still set
    | Booting                 // power is back, nothing read yet
    | Recovering(tail: nat)   // install_trans and clearing, during recovery

  datatype State = State(disk: Disk, view: Disk, lh: seq<nat>, ops: seq<Op>, phase: Phase)

  // log.outstanding
  function Outstanding(ops: seq<Op>): nat {
    if ops == [] then 0
    else Outstanding(ops[..|ops| - 1]) + (if ops[|ops| - 1].Active? then 1 else 0)
  }

  // Log space promised to active operations and not used yet.
  ghost function Unused(ops: seq<Op>): int {
    if ops == [] then 0
    else Unused(ops[..|ops| - 1])
         + (match ops[|ops| - 1] case Active(g, _, _) => MAXOPBLOCKS - |g| case Done => 0)
  }

  function ToSet(lh: seq<nat>): set<nat> {
    set i | 0 <= i < |lh| :: lh[i]
  }

  function Absorb(lh: seq<nat>, b: nat): seq<nat> {
    if b in lh then lh else lh + [b]
  }

  // The two panics at the head of log_write that depend on the log's fill.
  predicate WouldPanic(L: Layout, s: State) {
    |s.lh| >= LOGSIZE || |s.lh| >= L.size - 1
  }

  predicate ActiveOp(s: State, o: nat) {
    o < |s.ops| && s.ops[o].Active?
  }

  // Active, and not in the middle of log_write.
  predicate Idle(s: State, o: nat) {
    ActiveOp(s, o) && s.ops[o].call.None?
  }

  predicate BeginOp(s: State, s': State) {
    && s.phase.Running?
    && |s.lh| + Reserved(Outstanding(s.ops) + 1) <= LOGSIZE
    && s' == s.(ops := s.ops + [Active({}, {}, None)])
  }

  predicate Modify(L: Layout, s: State, s': State, o: nat, b: nat, v: Block) {
    && s.phase.Running? && Idle(s, o) && Home(L, s.disk, b)
    && s' == s.(view := s.view[b := v],
                ops := s.ops[o := s.ops[o].(touched := s.ops[o].touched + {b})])
  }

  // The head of log_write: the space test, made without holding log.lock.
  predicate TestSpace(L: Layout, s: State, s': State, o: nat, b: nat) {
    && s.phase.Running? && Idle(s, o) && Home(L, s.disk, b)
    && !WouldPanic(L, s)
    && s' == s.(ops := s.ops[o := s.ops[o].(call := Some(b))])
  }

  function OpLogged(op: Op, b: nat): Op
    requires op.Active?
  {
    Active(op.logged + {b}, op.touched - {b}, None)
  }

  // The rest of log_write, under the lock; whatever has happened since the test.
  predicate Record(L: Layout, s: State, s': State, o: nat, b: nat) {
    && s.phase.Running? && ActiveOp(s, o) && s.ops[o].call == Some(b)
    && s' == s.(lh := Absorb(s.lh, b),
                ops := s.ops[o := OpLogged(s.ops[o], b)])
  }

  // s with operation o past its test.
  ghost function Tested(s: State, o: nat, b: nat): State
    requires ActiveOp(s, o)
  {
    s.(ops := s.ops[o := s.ops[o].(call := Some(b))])
  }

  ghost function Recorded(s: State, o: nat, b: nat): State
    requires ActiveOp(s, o)
  {
    s.(lh := Absorb(s.lh, b), ops := s.ops[o := OpLogged(s.ops[o], b)])
  }

  predicate EndOp(s: State, s': State, o: nat) {
    && s.phase.Running? && Idle(s, o) && s.ops[o].touched == {}
    && var ops' := s.ops[o := Done];
       s' == s.(ops := ops', phase := if Outstanding(ops') == 0 then Copying(0) else Running)
  }

  // A synchronous block write: the disk and the cached copy change together.
  predicate Wrote(s: State, s': State, b: nat, v: Block) {
    s'.disk == s.disk[b := v] && s'.view == s.view[b := v]
  }

  predicate CopyBlock(L: Layout, s: State, s': State) {
    && s.phase.Copying? && s.phase.tail < |s.lh| && s.lh[s.phase.tail] in s.view
    && Wrote(s, s', LogBlock(L, s.phase.tail), s.view[s.lh[s.phase.tail]])
    && s'.lh == s.lh && s'.ops == s.ops && s'.phase == Copying(s.phase.tail + 1)
  }

  predicate CommitHeader(L: Layout, s: State, s': State) {
    && s.phase.Copying? && 0 < |s.lh| == s.phase.tail && |s.lh| <= LOGSIZE && L.start in s.view
    && Wrote(s, s', L.start, EncodeHeader(s.view[L.start], s.lh))
    && s'.lh == s.lh && s'.ops == s.ops && s'.phase == Installing(0)
  }

  predicate CommitNothing(s: State, s': State) {
    && s.phase == Copying(0) && s.lh == []
    && s' == s.(phase := Cleared)
  }

  predicate InstallBlock(L: Layout, s: State, s': State) {
    && (s.phase.Installing? || s.phase.Recovering?)
    && s.phase.tail < |s.lh| && LogBlock(L, s.phase.tail) in s.view
    && Wrote(s, s', s.lh[s.phase.tail], s.view[LogBlock(L, s.phase.tail)])
    && s'.lh == s.lh && s'.ops == s.ops
    && s'.phase == (if s.phase.Installing? then Installing(s.phase.tail + 1) else Recovering(s.phase.tail + 1))
  }

  predicate ClearHeader(L: Layout, s: State, s': State) {
    && (s.phase.Installing? || s.phase.Recovering?)
    && s.phase.tail == |s.lh| && L.start in s.view
    && Wrote(s, s', L.start, EncodeHeader(s.view[L.start], []))
    && s'.lh == [] && s'.ops == s.ops
    && s'.phase == (if s.phase.Installing? then Cleared else Running)
  }

  predicate FinishCommit(s: State, s': State) {
    s.phase.Cleared? && s' == s.(phase := Running)
  }

  // Power failure: only the disk survives.
  predicate Crash(s: State, s': State) {
    s' == State(s.disk, s.disk, [], [], Booting)
  }

  ghost predicate ReadHeader(L: Layout, s: State, s': State) {
    && s.phase.Booting? && HeaderOk(L, s.disk)
    && s' == s.(lh := Header(L, s.disk), phase := Recovering(0))
  }

  ghost predicate Next(L: Layout, s: State, s': State) {
    || BeginOp(s, s')
    || (exists o, b, v :: Modify(L, s, s', o, b, v))
    || (exists o, b :: TestSpace(L, s, s', o, b))
    || (exists o, b :: Record(L, s, s', o, b))
    || (exists o :: EndOp(s, s', o))
    || CopyBlock(L, s, s')
    || CommitHeader(L, s, s')
    || CommitNothing(s, s')
    || InstallBlock(L, s, s')
    || ClearHeader(L, s, s')
    || FinishCommit(s, s')
    || Crash(s, s')
    || ReadHeader(L, s, s')
  }

  // --- the invariant ---------------------------------------------------------

  ghost predicate Touched(ops: seq<Op>, b: nat) {
    exists o :: 0 <= o < |ops| && ops[o].Active? && b in ops[o].touched
  }

  // The header fits its array, and the logged blocks fit the log area.
  predicate InBounds(L: Layout, s: State) {
    |s.lh| <= LOGSIZE && |s.lh| < L.size
  }

  ghost predicate OpsOk(L: Layout, s: State) {
    && (forall o :: 0 <= o < |s.ops| && s.ops[o].Active? ==>
          && s.ops[o].logged <= ToSet(s.lh)
          && (forall b :: b in s.ops[o].touched ==> Home(L, s.disk, b))
          && (s.ops[o].call.Some? ==> Home(L, s.disk, s.ops[o].call.value)))
    && (!s.phase.Running? ==> forall o :: 0 <= o < |s.ops| ==> s.ops[o].Done?)
  }

  // The cached contents differ from the disk only in logged or touched blocks.
  ghost predicate ViewOk(s: State) {
    && s.view.Keys == s.disk.Keys
    && forall b :: b in s.disk && b !in s.lh && !Touched(s.ops, b) ==> s.view[b] == s.disk[b]
  }

  ghost predicate LogHolds(L: Layout, s: State, k: nat)
    requires DiskOk(L, s.disk) && k <= |s.lh| < L.size
    requires s.view.Keys == s.disk.Keys
    requires AllHome(L, s.disk, s.lh)
  {
    assert forall i: nat :: i < k ==> InLog(L, LogBlock(L, i));
    forall i :: 0 <= i < k ==> s.disk[LogBlock(L, i)] == s.view[s.lh[i]]
  }

  ghost predicate HomeHolds(L: Layout, s: State, k: nat)
    requires k <= |s.lh| && s.view.Keys == s.disk.Keys
    requires AllHome(L, s.disk, s.lh)
  {
    forall i :: 0 <= i < k ==> s.disk[s.lh[i]] == s.view[s.lh[i]]
  }

  ghost predicate PhaseOk(L: Layout, s: State)
    requires DiskOk(L, s.disk) && |s.lh| < L.size && s.view.Keys == s.disk.Keys
    requires AllHome(L, s.disk, s.lh)
  {
    match s.phase
    case Running => Header(L, s.disk) == []
    case Copying(t) => Header(L, s.disk) == [] && t <= |s.lh| && LogHolds(L, s, t)
    case Installing(t) =>
      Header(L, s.disk) == s.lh && t <= |s.lh| && LogHolds(L, s, |s.lh|) && HomeHolds(L, s, t)
    case Cleared => Header(L, s.disk) == [] && s.lh == []
    case Booting => s.lh == [] && s.view == s.disk
    case Recovering(t) =>
      Header(L, s.disk) == s.lh && t <= |s.lh| && s.view == s.disk && LogHolds(L, s, t)
  }

  ghost predicate Inv(L: Layout, s: State) {
    && DiskOk(L, s.disk)
    && InBounds(L, s)
    && Distinct(s.lh)
    && AllHome(L, s.disk, s.lh)
    && OpsOk(L, s)
    && ViewOk(s)
    && PhaseOk(L, s)
  }

  // Power-on over a disk whose header is well formed.
  ghost predicate Init(L: Layout, s: State) {
    DiskOk(L, s.disk) && s == State(s.disk, s.disk, [], [], Booting)
  }

  // --- sums over operations -------------------------------------------------

  lemma {:induction false} UnusedUpdate(ops: seq<Op>, o: nat, p: Op)
    requires o < |ops|
    ensures Unused(ops[o := p]) == Unused(ops) - Unused([ops[o]]) + Unused([p])
    ensures Outstanding(ops[o := p]) == Outstanding(ops) - Outstanding([ops[o]]) + Outstanding([p])
    decreases |ops|
  {
    var n := |ops| - 1;
    if o == n {
      assert ops[o := p][..n] == ops[..n];
      assert [ops[o]][..0] == [] && [p][..0] == [];
    } else {
      assert ops[o := p][..n] == ops[..n][o := p];
      UnusedUpdate(ops[..n], o, p);
    }
  }

  lemma {:induction false} UnusedBound(ops: seq<Op>)
    ensures Unused(ops) <= Reserved(Outstanding(ops))
  {
    if ops != [] {
      UnusedBound(ops[..|ops| - 1]);
    }
  }

  lemma {:induction false} OutstandingZero(ops: seq<Op>)
    ensures Outstanding(ops) == 0 <==> forall o :: 0 <= o < |ops| ==> ops[o].Done?
    ensures Outstanding(ops) == 0 ==> Unused(ops) == 0
  {
    if ops != [] {
      var n := |ops| - 1;
      OutstandingZero(ops[..n]);
      assert forall o :: 0 <= o < n ==> ops[..n][o] == ops[o];
      if Outstanding(ops) == 0 {
        forall o | 0 <= o < |ops| ensures ops[o].Done? {
          if o < n { assert ops[..n][o].Done?; }
        }
      }
    }
  }

  lemma {:induction false} UnusedAtLeast(ops: seq<Op>, o: nat)
    requires o < |ops| && ops[o].Active?
    requires forall i :: 0 <= i < |ops| && ops[i].Active? ==> |ops[i].logged| <= MAXOPBLOCKS
    ensures Unused(ops) >= MAXOPBLOCKS - |ops[o].logged|
    decreases |ops|
  {
    var n := |ops| - 1;
    if o < n {
      assert ops[..n][o] == ops[o];
      UnusedAtLeast(ops[..n], o);
    } else {
      UnusedNonNeg(ops[..n]);
    }
  }

  lemma {:induction false} UnusedNonNeg(ops: seq<Op>)
    requires forall i :: 0 <= i < |ops| && ops[i].Active? ==> |ops[i].logged| <= MAXOPBLOCKS
    ensures 0 <= Unused(ops)
  {
    if ops != [] {
      UnusedNonNeg(ops[..|ops| - 1]);
    }
  }

  // --- header encoding --------------------------------------------------------

  lemma HeaderRoundTrip(L: Layout, d: Disk, lh: seq<nat>)
    requires DiskOk(L, d) && |lh| <= LOGSIZE && |lh| < L.size && Distinct(lh)
    requires AllHome(L, d, lh)
    ensures var d' := d[L.start := EncodeHeader(d[L.start], lh)];
            DiskOk(L, d') && Header(L, d') == lh
  {
  }

  // --- installing -----------------------------------------------------------

  // Pointwise meaning of Installed for distinct home blocks.
  lemma {:induction false} InstalledAt(L: Layout, d: Disk, lh: seq<nat>, k: nat)
    requires k <= |lh| && Distinct(lh)
    requires forall i: nat :: i < k ==> LogBlock(L, i) in d
    requires forall i :: 0 <= i < k ==> lh[i] in d
    ensures forall i :: 0 <= i < k ==> Installed(L, d, lh, k)[lh[i]] == d[LogBlock(L, i)]
    ensures forall b :: b in d && b !in lh ==> Installed(L, d, lh, k)[b] == d[b]
  {
    if k > 0 {
      InstalledAt(L, d, lh, k - 1);
      var before, after := Installed(L, d, lh, k - 1), Installed(L, d, lh, k);
      assert after == before[lh[k - 1] := d[LogBlock(L, k - 1)]];
      forall i | 0 <= i < k ensures after[lh[i]] == d[LogBlock(L, i)] {
        if i < k - 1 {
          assert lh[i] != lh[k - 1] && before[lh[i]] == d[LogBlock(L, i)];
        }
      }
      forall b | b in d && b !in lh ensures after[b] == d[b] {
        assert before[b] == d[b];
      }
    }
  }

  // Committed, read off pointwise.
  lemma CommittedMeaning(L: Layout, d: Disk)
    requires DiskOk(L, d)
    ensures Committed(L, d).Keys == HomeBlocks(L, d).Keys
    ensures forall i :: 0 <= i < |Header(L, d)| ==>
              Home(L, d, Header(L, d)[i]) && Committed(L, d)[Header(L, d)[i]] == d[LogBlock(L, i)]
    ensures forall b :: Home(L, d, b) && b !in Header(L, d) ==> Committed(L, d)[b] == d[b]
  {
    var h := Header(L, d);
    assert forall i: nat :: i < |h| ==> InLog(L, LogBlock(L, i));
    InstalledAt(L, d, h, |h|);
  }

  // Two disks that hold the same logged contents, pointwise.
  lemma CommittedIs(L: Layout, d: Disk, m: Disk)
    requires DiskOk(L, d)
    requires m.Keys == HomeBlocks(L, d).Keys
    requires forall i :: 0 <= i < |Header(L, d)| ==>
               Header(L, d)[i] in m && InLog(L, LogBlock(L, i)) && m[Header(L, d)[i]] == d[LogBlock(L, i)]
    requires forall b :: Home(L, d, b) && b !in Header(L, d) ==> m[b] == d[b]
    ensures Committed(L, d) == m
  {
    CommittedMeaning(L, d);
    var c, h := Committed(L, d), Header(L, d);
    forall b | b in m ensures c[b] == m[b] {
      assert Home(L, d, b);
      if b in h {
        var i :| 0 <= i < |h| && h[i] == b;
      }
    }
  }

  // --- what each kind of block write does to the disk ---------------------------

  // Recovery is idempotent: copying any one log block home changes nothing that
  // a later recovery would produce.
  lemma InstallKeepsCommitted(L: Layout, d: Disk, t: nat)
    requires DiskOk(L, d) && t < |Header(L, d)|
    ensures InLog(L, LogBlock(L, t))
    ensures var d' := d[Header(L, d)[t] := d[LogBlock(L, t)]];
            DiskOk(L, d') && Header(L, d') == Header(L, d) && Committed(L, d') == Committed(L, d)
  {
    var h := Header(L, d);
    assert InLog(L, LogBlock(L, t)) && InLog(L, L.start);
    var d' := d[h[t] := d[LogBlock(L, t)]];
    assert HeaderOk(L, d');
    assert Header(L, d') == h;
    CommittedMeaning(L, d);
    assert forall i: nat :: i < |h| ==> InLog(L, LogBlock(L, i));
    CommittedIs(L, d', Committed(L, d));
  }

  // While the header is empty, log blocks are scratch space.
  lemma CopyKeepsCommitted(L: Layout, d: Disk, t: nat, v: Block)
    requires DiskOk(L, d) && Header(L, d) == [] && t + 1 < L.size
    ensures var d' := d[LogBlock(L, t) := v];
            DiskOk(L, d') && Header(L, d') == [] && Committed(L, d') == Committed(L, d)
  {
  }

  // Writing a header over filled log blocks makes their contents the committed ones.
  lemma HeaderCommits(L: Layout, d: Disk, lh: seq<nat>, m: Disk)
    requires DiskOk(L, d) && |lh| <= LOGSIZE && |lh| < L.size && Distinct(lh) && AllHome(L, d, lh)
    requires m.Keys == HomeBlocks(L, d).Keys
    requires forall i :: 0 <= i < |lh| ==> InLog(L, LogBlock(L, i)) && lh[i] in m && m[lh[i]] == d[LogBlock(L, i)]
    requires forall b :: Home(L, d, b) && b !in lh ==> m[b] == d[b]
    ensures var d' := d[L.start := EncodeHeader(d[L.start], lh)];
            DiskOk(L, d') && Header(L, d') == lh && Committed(L, d') == m
  {
    HeaderRoundTrip(L, d, lh);
    var d' := d[L.start := EncodeHeader(d[L.start], lh)];
    assert InLog(L, L.start);
    CommittedIs(L, d', m);
  }

  // Once every log block is home, the header can be cleared.
  lemma ClearKeepsCommitted(L: Layout, d: Disk)
    requires DiskOk(L, d)
    requires forall i :: 0 <= i < |Header(L, d)| ==>
               InLog(L, LogBlock(L, i)) && d[Header(L, d)[i]] == d[LogBlock(L, i)]
    ensures var d' := d[L.start := EncodeHeader(d[L.start], [])];
            DiskOk(L, d') && Header(L, d') == [] && Committed(L, d') == Committed(L, d) == HomeBlocks(L, d')
  {
    assert InLog(L, L.start);
    var d' := d[L.start := EncodeHeader(d[L.start], [])];
    assert HomeBlocks(L, d') == HomeBlocks(L, d);
    HeaderCommits(L, d, [], HomeBlocks(L, d));
    CommittedIs(L, d, HomeBlocks(L, d));
  }

  // --- every step keeps the invariant -----------------------------------------

  lemma BeginOpInv(L: Layout, s: State, s': State)
    requires Inv(L, s) && BeginOp(s, s')
    ensures Inv(L, s')
  {
    assert s'.ops[..|s.ops|] == s.ops;
    assert forall b :: Touched(s'.ops, b) <==> Touched(s.ops, b) by {
      forall b | Touched(s.ops, b) ensures Touched(s'.ops, b) {
        var o :| 0 <= o < |s.ops| && s.ops[o].Active? && b in s.ops[o].touched;
        assert s'.ops[o] == s.ops[o];
      }
    }
  }

  // Replacing one operation keeps every touched block it does not drop.
  lemma TouchedUpdate(ops: seq<Op>, o: nat, p: Op)
    requires o < |ops| && ops[o].Active?
    ensures p.Active? ==> forall c :: c in p.touched ==> Touched(ops[o := p], c)
    ensures forall c :: Touched(ops, c) && c !in ops[o].touched ==> Touched(ops[o := p], c)
  {
    var ops' := ops[o := p];
    forall c | Touched(ops, c) && c !in ops[o].touched ensures Touched(ops', c) {
      var q :| 0 <= q < |ops| && ops[q].Active? && c in ops[q].touched;
      assert c in ops'[q].touched;
    }
    if p.Active? {
      forall c | c in p.touched ensures Touched(ops', c) {
        assert c in ops'[o].touched;
      }
    }
  }

  lemma ModifyInv(L: Layout, s: State, s': State, o: nat, b: nat, v: Block)
    requires Inv(L, s) && Modify(L, s, s', o, b, v)
    ensures Inv(L, s')
  {
    TouchedUpdate(s.ops, o, s'.ops[o]);
  }

  lemma ToSetSnoc(lh: seq<nat>, b: nat)
    ensures ToSet(lh + [b]) == ToSet(lh) + {b}
  {
    assert (lh + [b])[|lh|] == b;
    assert forall i :: 0 <= i < |lh| ==> (lh + [b])[i] == lh[i];
  }

  lemma TestSpaceInv(L: Layout, s: State, s': State, o: nat, b: nat)
    requires Inv(L, s) && TestSpace(L, s, s', o, b)
    ensures Inv(L, s')
  {
    TouchedUpdate(s.ops, o, s'.ops[o]);
  }

  lemma RecordOps(L: Layout, s: State, s': State, o: nat, b: nat)
    requires Inv(L, s) && Record(L, s, s', o, b)
    ensures OpsOk(L, s')
  {
    ToSetSnoc(s.lh, b);
    assert ToSet(s.lh) <= ToSet(s'.lh) && b in ToSet(s'.lh);
  }

  lemma RecordInv(L: Layout, s: State, s': State, o: nat, b: nat)
    requires Inv(L, s) && Record(L, s, s', o, b) && InBounds(L, s')
    ensures Inv(L, s')
  {
    RecordOps(L, s, s', o, b);
    assert forall c :: c in s'.lh <==> c in s.lh || c == b by {
      if b !in s.lh { assert s'.lh[|s.lh|] == b; }
    }
    TouchedUpdate(s.ops, o, s'.ops[o]);
  }

  lemma EndOpInv(L: Layout, s: State, s': State, o: nat)
    requires Inv(L, s) && EndOp(s, s', o)
    ensures Inv(L, s')
  {
    OutstandingZero(s'.ops);
    TouchedUpdate(s.ops, o, s'.ops[o]);
  }

  // No operation is active outside Running, so nothing is touched there.
  lemma Untouched(L: Layout, s: State)
    requires Inv(L, s) && !s.phase.Running?
    ensures forall b :: !Touched(s.ops, b)
  {
  }

  // What a block write during a commit or a recovery leaves alone.
  lemma QuietWrite(L: Layout, s: State, s': State, b: nat, v: Block)
    requires Inv(L, s) && !s.phase.Running? && b in s.disk && Wrote(s, s', b, v)
    requires s'.ops == s.ops && (s'.lh == s.lh || (s'.lh == [] && HomeHolds(L, s, |s.lh|)))
    ensures OpsOk(L, s') && ViewOk(s')
    ensures forall c :: c in s.disk && c !in s.lh ==> s.view[c] == s.disk[c]
  {
    Untouched(L, s);
    assert forall c :: !Touched(s'.ops, c);
    if s'.lh == [] {
      forall c | c in s.lh ensures s.view[c] == s.disk[c] {
        var i :| 0 <= i < |s.lh| && s.lh[i] == c;
      }
    }
  }

  lemma CopyBlockInv(L: Layout, s: State, s': State)
    requires Inv(L, s) && CopyBlock(L, s, s')
    ensures Inv(L, s')
    ensures Committed(L, s'.disk) == Committed(L, s.disk)
  {
    var t := s.phase.tail;
    CopyKeepsCommitted(L, s.disk, t, s.view[s.lh[t]]);
    assert InLog(L, LogBlock(L, t));
    QuietWrite(L, s, s', LogBlock(L, t), s.view[s.lh[t]]);
  }

  // Writing the header is the commit point: what clients see becomes durable.
  lemma CommitHeaderDisk(L: Layout, s: State, s': State)
    requires Inv(L, s) && CommitHeader(L, s, s')
    requires forall c :: c in s.disk && c !in s.lh ==> s.view[c] == s.disk[c]
    ensures DiskOk(L, s'.disk) && Header(L, s'.disk) == s.lh
    ensures Committed(L, s'.disk) == HomeBlocks(L, s.view)
  {
    assert InLog(L, L.start) && L.start !in s.lh;
    assert forall i: nat :: i < |s.lh| ==> InLog(L, LogBlock(L, i));
    assert LogHolds(L, s, |s.lh|);
    HeaderCommits(L, s.disk, s.lh, HomeBlocks(L, s.view));
  }

  lemma CommitHeaderInv(L: Layout, s: State, s': State)
    requires Inv(L, s) && CommitHeader(L, s, s')
    ensures Inv(L, s')
    ensures Committed(L, s'.disk) == HomeBlocks(L, s.view)
  {
    assert InLog(L, L.start);
    QuietWrite(L, s, s', L.start, s'.disk[L.start]);
    CommitHeaderDisk(L, s, s');
    assert LogHolds(L, s', |s.lh|) by {
      assert LogHolds(L, s, |s.lh|);
    }
  }

  lemma InstallBlockDisk(L: Layout, s: State, s': State)
    requires Inv(L, s) && InstallBlock(L, s, s')
    requires forall c :: c in s.disk && c !in s.lh ==> s.view[c] == s.disk[c]
    ensures DiskOk(L, s'.disk) && Header(L, s'.disk) == s.lh
    ensures Committed(L, s'.disk) == Committed(L, s.disk)
    ensures s'.disk[s.lh[s.phase.tail]] == s.disk[LogBlock(L, s.phase.tail)]
  {
    assert InLog(L, LogBlock(L, s.phase.tail)) && LogBlock(L, s.phase.tail) !in s.lh;
    InstallKeepsCommitted(L, s.disk, s.phase.tail);
  }

  lemma InstalledEntry(L: Layout, s: State, s': State, i: nat, t: nat)
    requires Inv(L, s) && (s.phase.Installing? || s.phase.Recovering?) && t == s.phase.tail < |s.lh| && i < |s.lh|
    requires InLog(L, LogBlock(L, t)) && Wrote(s, s', s.lh[t], s.view[LogBlock(L, t)]) && (s.phase.Recovering? ==> i <= t)
    requires s'.disk[s.lh[t]] == s.disk[LogBlock(L, t)]
    ensures LogBlock(L, i) in s'.disk && s.lh[i] in s'.view && s'.disk[LogBlock(L, i)] == s'.view[s.lh[i]]
  {
    assert InLog(L, LogBlock(L, i)) && s.lh[t] != LogBlock(L, i);
  }

  lemma InstallBlockHolds(L: Layout, s: State, s': State)
    requires Inv(L, s) && InstallBlock(L, s, s') && DiskOk(L, s'.disk) && s'.view.Keys == s'.disk.Keys
    requires s'.disk[s.lh[s.phase.tail]] == s.disk[LogBlock(L, s.phase.tail)]
    ensures AllHome(L, s'.disk, s'.lh)
    ensures s.phase.Installing? ==> LogHolds(L, s', |s.lh|) && HomeHolds(L, s', s.phase.tail + 1)
    ensures s.phase.Recovering? ==> LogHolds(L, s', s.phase.tail + 1)
  {
    var t := s.phase.tail;
    var k := if s.phase.Installing? then |s.lh| else t + 1;
    forall i: nat | i < k ensures s'.disk[LogBlock(L, i)] == s'.view[s.lh[i]] {
      InstalledEntry(L, s, s', i, t);
    }
  }

  lemma InstallBlockInv(L: Layout, s: State, s': State)
    requires Inv(L, s) && InstallBlock(L, s, s')
    ensures Inv(L, s')
    ensures Committed(L, s'.disk) == Committed(L, s.disk)
  {
    var t := s.phase.tail;
    QuietWrite(L, s, s', s.lh[t], s.view[LogBlock(L, t)]);
    InstallBlockDisk(L, s, s');
    InstallBlockHolds(L, s, s');
  }

  lemma AllInstalled(L: Layout, s: State)
    requires Inv(L, s) && (s.phase.Installing? || s.phase.Recovering?) && s.phase.tail == |s.lh|
    ensures Header(L, s.disk) == s.lh && HomeHolds(L, s, |s.lh|)
    ensures forall i :: 0 <= i < |s.lh| ==> InLog(L, LogBlock(L, i)) && s.disk[s.lh[i]] == s.disk[LogBlock(L, i)]
  {
  }

  lemma ClearHeaderInv(L: Layout, s: State, s': State)
    requires Inv(L, s) && ClearHeader(L, s, s')
    ensures Inv(L, s')
    ensures Committed(L, s'.disk) == Committed(L, s.disk) == HomeBlocks(L, s'.disk)
  {
    AllInstalled(L, s);
    assert InLog(L, L.start);
    QuietWrite(L, s, s', L.start, s'.disk[L.start]);
    ClearKeepsCommitted(L, s.disk);
  }

  lemma ReadHeaderInv(L: Layout, s: State, s': State)
    requires Inv(L, s) && ReadHeader(L, s, s')
    ensures Inv(L, s')
  {
  }

  // --- refinement: an atomic transactional store --------------------------------

  // What callers are promised: writes go to a volatile copy, which becomes durable
  // as a whole and only when no operation is half done; a crash restores the
  // durable copy.
  datatype Store = Store(durable: Disk, volatile: Disk, active: nat)

  ghost predicate StoreWrite(a: Store, a': Store, b: nat, v: Block) {
    a.active > 0 && b in a.volatile && a' == a.(volatile := a.volatile[b := v])
  }

  ghost predicate StoreNext(a: Store, a': Store) {
    || a' == a
    || a' == a.(active := a.active + 1)
    || (a.active > 0 && a' == a.(active := a.active - 1))
    || (exists b, v :: StoreWrite(a, a', b, v))
    || (a.active == 0 && a' == a.(durable := a.volatile))
    || a' == Store(a.durable, a.durable, 0)
  }

  ghost function Abs(L: Layout, s: State): Store
    requires DiskOk(L, s.disk)
  {
    Store(Committed(L, s.disk),
          if s.phase.Booting? || s.phase.Recovering? then Committed(L, s.disk) else HomeBlocks(L, s.view),
          Outstanding(s.ops))
  }

  lemma CopyBlockRefines(L: Layout, s: State, s': State)
    requires Inv(L, s) && CopyBlock(L, s, s')
    ensures Inv(L, s') && Abs(L, s') == Abs(L, s)
  {
    CopyBlockInv(L, s, s');
    assert InLog(L, LogBlock(L, s.phase.tail));
    assert HomeBlocks(L, s'.view) == HomeBlocks(L, s.view);
  }

  // The one step at which the durable state changes, and it changes as a whole.
  lemma CommitHeaderRefines(L: Layout, s: State, s': State)
    requires Inv(L, s) && CommitHeader(L, s, s')
    ensures Inv(L, s')
    ensures Abs(L, s).active == 0 && Abs(L, s') == Abs(L, s).(durable := Abs(L, s).volatile)
  {
    OutstandingZero(s.ops);
    CommitHeaderInv(L, s, s');
    assert InLog(L, L.start);
    assert HomeBlocks(L, s'.view) == HomeBlocks(L, s.view);
  }

  lemma InstallBlockRefines(L: Layout, s: State, s': State)
    requires Inv(L, s) && InstallBlock(L, s, s')
    ensures Inv(L, s') && Abs(L, s') == Abs(L, s)
  {
    InstallBlockInv(L, s, s');
    InstallBlockView(L, s, s');
  }

  lemma ClearHeaderRefines(L: Layout, s: State, s': State)
    requires Inv(L, s) && ClearHeader(L, s, s')
    ensures Inv(L, s') && Abs(L, s') == Abs(L, s)
  {
    ClearHeaderInv(L, s, s');
    ClearHeaderView(L, s, s');
  }

  lemma InstallBlockView(L: Layout, s: State, s': State)
    requires Inv(L, s) && InstallBlock(L, s, s')
    ensures s.phase.Installing? ==> HomeBlocks(L, s'.view) == HomeBlocks(L, s.view)
  {
    Untouched(L, s);
    assert InLog(L, LogBlock(L, s.phase.tail));
    if s.phase.Installing? {
      assert LogHolds(L, s, |s.lh|);
    }
  }

  lemma ClearHeaderView(L: Layout, s: State, s': State)
    requires Inv(L, s) && ClearHeader(L, s, s')
    ensures s.phase.Installing? ==> HomeBlocks(L, s'.view) == HomeBlocks(L, s.view)
    ensures s.phase.Recovering? ==> HomeBlocks(L, s'.view) == HomeBlocks(L, s'.disk)
  {
    assert InLog(L, L.start);
  }

  lemma ModifyRefines(L: Layout, s: State, s': State, o: nat, b: nat, v: Block)
    requires Inv(L, s) && Modify(L, s, s', o, b, v)
    ensures Inv(L, s') && StoreWrite(Abs(L, s), Abs(L, s'), b, v)
  {
    ModifyInv(L, s, s', o, b, v);
    UnusedUpdate(s.ops, o, s'.ops[o]);
    OutstandingZero(s.ops);
    assert HomeBlocks(L, s'.view) == HomeBlocks(L, s.view)[b := v];
  }

  lemma BeginOpRefines(L: Layout, s: State, s': State)
    requires Inv(L, s) && BeginOp(s, s')
    ensures Inv(L, s') && Abs(L, s') == Abs(L, s).(active := Abs(L, s).active + 1)
  {
    BeginOpInv(L, s, s');
    assert s'.ops[..|s.ops|] == s.ops;
  }

  lemma TestSpaceRefines(L: Layout, s: State, s': State, o: nat, b: nat)
    requires Inv(L, s) && TestSpace(L, s, s', o, b)
    ensures Inv(L, s') && Abs(L, s') == Abs(L, s)
  {
    TestSpaceInv(L, s, s', o, b);
    UnusedUpdate(s.ops, o, s'.ops[o]);
  }

  lemma RecordRefines(L: Layout, s: State, s': State, o: nat, b: nat)
    requires Inv(L, s) && Record(L, s, s', o, b) && InBounds(L, s')
    ensures Inv(L, s') && Abs(L, s') == Abs(L, s)
  {
    RecordInv(L, s, s', o, b);
    UnusedUpdate(s.ops, o, s'.ops[o]);
  }

  lemma EndOpRefines(L: Layout, s: State, s': State, o: nat)
    requires Inv(L, s) && EndOp(s, s', o)
    ensures Inv(L, s')
    ensures Abs(L, s).active > 0 && Abs(L, s') == Abs(L, s).(active := Abs(L, s).active - 1)
  {
    EndOpInv(L, s, s', o);
    UnusedUpdate(s.ops, o, Done);
    OutstandingZero(s.ops);
  }

  lemma QuietRefines(L: Layout, s: State, s': State)
    requires Inv(L, s) && (CommitNothing(s, s') || FinishCommit(s, s') || ReadHeader(L, s, s'))
    ensures Inv(L, s') && Abs(L, s') == Abs(L, s)
  {
    if ReadHeader(L, s, s') {
      ReadHeaderInv(L, s, s');
    }
  }

  lemma CrashRefines(L: Layout, s: State, s': State)
    requires Inv(L, s) && Crash(s, s')
    ensures Inv(L, s') && Abs(L, s') == Store(Abs(L, s).durable, Abs(L, s).durable, 0)
  {
  }

  lemma InitRefines(L: Layout, s: State)
    requires Init(L, s)
    ensures Inv(L, s)
  {
  }

  // Every step that keeps the log within its bounds is a step of the atomic store, and only the
  // write of a non-empty header changes what is durable.
  lemma StepRefines(L: Layout, s: State, s': State)
    requires Inv(L, s) && Next(L, s, s') && InBounds(L, s')
    ensures Inv(L, s') && StoreNext(Abs(L, s), Abs(L, s'))
    ensures Abs(L, s').durable ==
            if CommitHeader(L, s, s') then Abs(L, s).volatile else Abs(L, s).durable
  {
    if BeginOp(s, s') {
      BeginOpRefines(L, s, s');
    } else if o, b, v :| Modify(L, s, s', o, b, v) {
      ModifyRefines(L, s, s', o, b, v);
    } else if o, b :| TestSpace(L, s, s', o, b) {
      TestSpaceRefines(L, s, s', o, b);
    } else if o, b :| Record(L, s, s', o, b) {
      RecordRefines(L, s, s', o, b);
    } else if o :| EndOp(s, s', o) {
      EndOpRefines(L, s, s', o);
    } else if CopyBlock(L, s, s') {
      CopyBlockRefines(L, s, s');
    } else if CommitHeader(L, s, s') {
      CommitHeaderRefines(L, s, s');
    } else if InstallBlock(L, s, s') {
      InstallBlockRefines(L, s, s');
    } else if ClearHeader(L, s, s') {
      ClearHeaderRefines(L, s, s');
    } else if Crash(s, s') {
      CrashRefines(L, s, s');
    } else {
      QuietRefines(L, s, s');
    }
  }

  // --- whole runs, with any number of crashes anywhere -----------------------------

  ghost predicate Run(L: Layout, run: seq<State>) {
    0 < |run| && forall k: nat :: k < |run| ==> At(L, run, k)
  }

  // State k of a run is the first one, or reached from the one before.
  ghost predicate At(L: Layout, run: seq<State>, k: nat)
    requires k < |run|
  {
    if k == 0 then Init(L, run[0]) else Next(L, run[k - 1], run[k])
  }

  lemma RunSnoc(L: Layout, run: seq<State>, s: State)
    requires Run(L, run) && Next(L, run[|run| - 1], s)
    ensures Run(L, run + [s])
  {
    var r := run + [s];
    forall k: nat | k < |r| ensures At(L, r, k) {
      if k < |run| {
        assert At(L, run, k);
      }
    }
  }

  // What the operations of the run have made durable after k steps.
  ghost function Durable(L: Layout, run: seq<State>, k: nat): Disk
    requires Run(L, run) && k < |run|
  {
    assert At(L, run, 0);
    if k == 0 then Committed(L, run[0].disk)
    else if CommitHeader(L, run[k - 1], run[k]) then HomeBlocks(L, run[k - 1].view)
    else Durable(L, run, k - 1)
  }

  // The log has stayed within its bounds, up to step k.
  ghost predicate Roomy(L: Layout, run: seq<State>, k: nat)
    requires k < |run|
  {
    forall j :: 0 <= j <= k ==> InBounds(L, run[j])
  }

  // A record step that appends although the test would fail by now.
  ghost predicate Overfull(L: Layout, s: State, s': State) {
    exists o, b :: Record(L, s, s', o, b) && b !in s.lh && WouldPanic(L, s)
  }

  lemma BoundsStep(L: Layout, s: State, s': State)
    requires L.size > 0 && InBounds(L, s) && Next(L, s, s')
    ensures InBounds(L, s') <==> !Overfull(L, s, s')
  {
  }

  // That happens in a run exactly if it goes out of bounds.
  lemma {:induction false} RoomyExactly(L: Layout, run: seq<State>, k: nat)
    requires Run(L, run) && k < |run|
    ensures Roomy(L, run, k) <==> forall j :: 0 <= j < k ==> !Overfull(L, run[j], run[j + 1])
  {
    assert At(L, run, 0);
    if k > 0 {
      var j := k - 1;
      RoomyExactly(L, run, j);
      assert At(L, run, k);
      assert Roomy(L, run, k) <==> Roomy(L, run, j) && InBounds(L, run[k]);
      if Roomy(L, run, j) {
        BoundsStep(L, run[j], run[j + 1]);
      }
    }
  }

  // What recovery would produce is what the operations have made durable.
  ghost predicate Atomic(L: Layout, run: seq<State>, k: nat)
    requires Run(L, run) && k < |run|
  {
    DiskOk(L, run[k].disk) && Committed(L, run[k].disk) == Durable(L, run, k)
  }

  lemma {:induction false} RunInv(L: Layout, run: seq<State>, k: nat)
    requires Run(L, run) && k < |run| && Roomy(L, run, k)
    ensures Inv(L, run[k]) && Atomic(L, run, k)
  {
    assert At(L, run, k);
    if k == 0 {
      InitRefines(L, run[0]);
    } else {
      RunInv(L, run, k - 1);
      assert At(L, run, k);
      StepRefines(L, run[k - 1], run[k]);
    }
  }

  // Crash atomicity.  Whenever the system is up (recovery has completed and no
  // commit is half way), the home blocks on disk are exactly the durable state:
  // the initial disk plus whole committed groups.  Recovery, interrupted and
  // restarted any number of times, never adds or loses part of a group.
  lemma CrashAtomicity(L: Layout, run: seq<State>, k: nat)
    requires Run(L, run) && k < |run| && forall j :: 0 <= j < k ==> !Overfull(L, run[j], run[j + 1])
    ensures Atomic(L, run, k)
    ensures run[k].phase.Running? || run[k].phase.Cleared? ==> HomeBlocks(L, run[k].disk) == Durable(L, run, k)
    ensures k > 0 && CommitHeader(L, run[k - 1], run[k]) ==>
              && Outstanding(run[k - 1].ops) == 0
              && Durable(L, run, k) == HomeBlocks(L, run[k - 1].view)
    ensures k > 0 && !CommitHeader(L, run[k - 1], run[k]) ==> Durable(L, run, k) == Durable(L, run, k - 1)
  {
    RoomyExactly(L, run, k);
    RunInv(L, run, k);
    if run[k].phase.Running? || run[k].phase.Cleared? {
      CommittedIs(L, run[k].disk, HomeBlocks(L, run[k].disk));
    }
    if k > 0 {
      RunInv(L, run, k - 1);
      OutstandingZero(run[k - 1].ops);
    }
  }

  // --- what happens out of bounds -------------------------------------------------

  // Before the first block of the log that does not exist is written.
  predicate Early(L: Layout, s: State) {
    s.phase.Running? || (s.phase.Copying? && s.phase.tail < L.size)
  }

  // What holds of an early state, however much has been logged.
  ghost predicate Loose(L: Layout, s: State) {
    && DiskOk(L, s.disk) && Header(L, s.disk) == [] && s.view.Keys == s.disk.Keys && AllHome(L, s.disk, s.lh)
    && forall o: nat :: ActiveOp(s, o) && s.ops[o].call.Some? ==> Home(L, s.disk, s.ops[o].call.value)
  }

  lemma HomeIsCommitted(L: Layout, d: Disk)
    requires DiskOk(L, d) && Header(L, d) == []
    ensures Committed(L, d) == HomeBlocks(L, d)
  {
  }

  lemma LooseCopy(L: Layout, s: State, s': State)
    requires Loose(L, s) && CopyBlock(L, s, s') && s.phase.tail < L.size - 1
    ensures Loose(L, s') && HomeBlocks(L, s'.disk) == HomeBlocks(L, s.disk)
  {
    assert InLog(L, LogBlock(L, s.phase.tail)) && s'.disk[L.start] == s.disk[L.start];
  }

  lemma LooseStep(L: Layout, s: State, s': State)
    requires Loose(L, s) && Early(L, s) && Next(L, s, s') && Early(L, s')
    ensures Loose(L, s') && HomeBlocks(L, s'.disk) == HomeBlocks(L, s.disk) && !CommitHeader(L, s, s')
  {
    if CopyBlock(L, s, s') {
      LooseCopy(L, s, s');
    }
  }

  lemma {:induction false} RunLoose(L: Layout, run: seq<State>, j: nat, k: nat)
    requires Run(L, run) && j <= k < |run| && Roomy(L, run, j) && forall t :: j <= t <= k ==> Early(L, run[t])
    ensures Loose(L, run[k]) && HomeBlocks(L, run[k].disk) == Durable(L, run, k)
    decreases k
  {
    if k == j {
      RunInv(L, run, j);
      HomeIsCommitted(L, run[j].disk);
    } else {
      RunLoose(L, run, j, k - 1);
      assert At(L, run, k);
      LooseStep(L, run[k - 1], run[k]);
    }
  }

  // Copying one block too many overwrites the block after the log, before any header is written:
  // crash atomicity survives only if that block has the same contents already.
  lemma OverwritesExactly(L: Layout, run: seq<State>, j: nat, k: nat)
    requires Run(L, run) && j <= k && k + 1 < |run| && Roomy(L, run, j) && forall t :: j <= t <= k ==> Early(L, run[t])
    requires L.size > 0 && run[k].phase == Copying(L.size - 1) && CopyBlock(L, run[k], run[k + 1])
    ensures var v, after := run[k].view[run[k].lh[L.size - 1]], L.start + L.size;
            Atomic(L, run, k + 1) <==> after in run[k].disk && run[k].disk[after] == v
  {
    RunLoose(L, run, j, k);
    var s, s' := run[k], run[k + 1];
    var b, v := LogBlock(L, L.size - 1), s.view[s.lh[L.size - 1]];
    assert DiskOk(L, s'.disk) && Header(L, s'.disk) == [] by { assert s'.disk[L.start] == s.disk[L.start]; }
    HomeIsCommitted(L, s'.disk);
    assert !InLog(L, b) && HomeBlocks(L, s'.disk) == HomeBlocks(L, s.disk)[b := v];
    assert HomeBlocks(L, s.disk)[b := v] == HomeBlocks(L, s.disk) <==> b in HomeBlocks(L, s.disk) && HomeBlocks(L, s.disk)[b] == v;
  }

  // --- the log reservation -------------------------------------------------------

  // What begin_op relies on: no operation logs more than MAXOPBLOCKS different blocks.
  ghost predicate WithinBudget(s: State) {
    forall o: nat :: ActiveOp(s, o) ==> |s.ops[o].logged| <= MAXOPBLOCKS
  }

  ghost predicate Budgeted(run: seq<State>, k: nat)
    requires k < |run|
  {
    forall j :: 0 <= j <= k ==> WithinBudget(run[j])
  }

  // The log has room for what is still promised to active operations.
  ghost predicate Fits(s: State) {
    |s.lh| + Unused(s.ops) <= LOGSIZE
  }

  // What holds of header and operations in every run, in bounds or not.
  ghost predicate Tidy(s: State) {
    && Distinct(s.lh)
    && (forall o: nat :: ActiveOp(s, o) ==> s.phase.Running? && s.ops[o].logged <= ToSet(s.lh))
  }

  lemma RecordTidy(s: State, s': State, o: nat, b: nat)
    requires Tidy(s) && ActiveOp(s, o) && s' == s.(lh := Absorb(s.lh, b), ops := s.ops[o := OpLogged(s.ops[o], b)])
    ensures Tidy(s')
  {
    ToSetSnoc(s.lh, b);
    assert ToSet(s.lh) <= ToSet(s'.lh) && b in ToSet(s'.lh);
  }

  lemma StepTidy(L: Layout, s: State, s': State)
    requires Tidy(s) && Next(L, s, s')
    ensures Tidy(s')
  {
    if o: nat, b: nat :| Record(L, s, s', o, b) {
      RecordTidy(s, s', o, b);
    } else if o: nat :| EndOp(s, s', o) {
      OutstandingZero(s'.ops);
    } else if BeginOp(s, s') || (exists o, b, v :: Modify(L, s, s', o, b, v)) || (exists o, b :: TestSpace(L, s, s', o, b)) {
      StartTidy(L, s, s');
    } else {
      QuietTidy(L, s, s');
    }
  }

  lemma StartTidy(L: Layout, s: State, s': State)
    requires Tidy(s)
    requires BeginOp(s, s') || (exists o, b, v :: Modify(L, s, s', o, b, v)) || (exists o, b :: TestSpace(L, s, s', o, b))
    ensures Tidy(s')
  {
  }

  lemma QuietTidy(L: Layout, s: State, s': State)
    requires Tidy(s)
    requires || CopyBlock(L, s, s') || CommitHeader(L, s, s') || CommitNothing(s, s') || InstallBlock(L, s, s')
             || ClearHeader(L, s, s') || FinishCommit(s, s') || Crash(s, s') || ReadHeader(L, s, s')
    ensures Tidy(s')
  {
    assert forall o: nat :: ActiveOp(s', o) ==> ActiveOp(s, o);
  }

  // The locked part of log_write keeps room by itself.
  lemma RecordFits(s: State, s': State, o: nat, b: nat)
    requires ActiveOp(s, o) && s.ops[o].logged <= ToSet(s.lh) && Fits(s)
    requires s'.lh == Absorb(s.lh, b)
    requires s'.ops == s.ops[o := OpLogged(s.ops[o], b)]
    ensures Fits(s')
  {
    UnusedUpdate(s.ops, o, s'.ops[o]);
    var g := s.ops[o].logged;
    if b in g {
      assert g + {b} == g;
    }
  }

  lemma BeginOpFits(s: State, s': State)
    requires BeginOp(s, s')
    ensures Fits(s')
  {
    UnusedBound(s.ops);
    assert s'.ops[..|s.ops|] == s.ops;
  }

  // An operation changes without logging anything or ending.
  lemma SameFits(s: State, s': State, o: nat)
    requires ActiveOp(s, o) && ActiveOp(s', o) && s'.ops == s.ops[o := s'.ops[o]] && s'.lh == s.lh && Fits(s)
    requires s'.ops[o].logged == s.ops[o].logged
    ensures Fits(s')
  {
    UnusedUpdate(s.ops, o, s'.ops[o]);
  }

  lemma EndOpFits(s: State, s': State, o: nat)
    requires EndOp(s, s', o) && Fits(s) && WithinBudget(s)
    ensures Fits(s')
  {
    UnusedUpdate(s.ops, o, Done);
  }

  // Every step of operations within their budget keeps room for what is promised.
  lemma StepFits(L: Layout, s: State, s': State)
    requires Tidy(s) && Next(L, s, s') && Fits(s) && WithinBudget(s)
    ensures Fits(s')
  {
    if BeginOp(s, s') {
      BeginOpFits(s, s');
    } else if o: nat, b: nat, v: Block :| Modify(L, s, s', o, b, v) {
      SameFits(s, s', o);
    } else if o: nat, b: nat :| TestSpace(L, s, s', o, b) {
      SameFits(s, s', o);
    } else if o: nat, b: nat :| Record(L, s, s', o, b) {
      RecordFits(s, s', o, b);
    } else if o: nat :| EndOp(s, s', o) {
      EndOpFits(s, s', o);
    } else {
      QuietFits(L, s, s');
    }
  }

  // The steps of commits, crashes and recovery find no operation active.
  lemma QuietFits(L: Layout, s: State, s': State)
    requires Tidy(s) && Fits(s)
    requires || CopyBlock(L, s, s') || CommitHeader(L, s, s') || CommitNothing(s, s') || InstallBlock(L, s, s')
             || ClearHeader(L, s, s') || FinishCommit(s, s') || Crash(s, s') || ReadHeader(L, s, s')
    ensures Fits(s')
  {
    if !Crash(s, s') {
      assert forall o: nat :: o < |s.ops| && s.ops[o].Active? ==> ActiveOp(s, o);
      OutstandingZero(s.ops);
    }
  }

  lemma {:induction false} RunFits(L: Layout, run: seq<State>, k: nat)
    requires Run(L, run) && k < |run|
    ensures Tidy(run[k]) && (Budgeted(run, k) ==> Fits(run[k]))
  {
    assert At(L, run, k);
    if k > 0 {
      RunFits(L, run, k - 1);
      StepTidy(L, run[k - 1], run[k]);
      if Budgeted(run, k) {
        StepFits(L, run[k - 1], run[k]);
      }
    }
  }

  // In every run logged blocks are distinct and no operation is active outside Running.  As long as
  // every operation keeps to its budget, the reservation never overcommits the log.
  lemma ReservationSound(L: Layout, run: seq<State>, k: nat)
    requires Run(L, run) && k < |run|
    ensures Budgeted(run, k) ==> 0 <= Unused(run[k].ops) && |run[k].lh| + Unused(run[k].ops) <= LOGSIZE
    ensures Distinct(run[k].lh)
    ensures forall o: nat :: ActiveOp(run[k], o) ==> run[k].phase.Running?
  {
    RunFits(L, run, k);
    if Budgeted(run, k) {
      assert WithinBudget(run[k]);
      assert forall o :: 0 <= o < |run[k].ops| && run[k].ops[o].Active? ==> ActiveOp(run[k], o);
      UnusedNonNeg(run[k].ops);
    }
  }

  // A log area of more than LOGSIZE blocks and operations within their budgets: then the log stays
  // within its bounds, although log_write makes its test without the lock.
  lemma BudgetedIsRoomy(L: Layout, run: seq<State>, k: nat)
    requires Run(L, run) && k < |run| && L.size > LOGSIZE && Budgeted(run, k)
    ensures Roomy(L, run, k) && Atomic(L, run, k)
  {
    forall j: nat | j <= k ensures InBounds(L, run[j]) {
      ReservationSound(L, run, j);
    }
    RunInv(L, run, k);
  }

  // With such a log area and budgets, log_write's space panic happens exactly when the log holds
  // LOGSIZE blocks, and every active operation has then used its whole budget.
  lemma PanicExactly(L: Layout, run: seq<State>, k: nat)
    requires Run(L, run) && k < |run| && L.size > LOGSIZE && Budgeted(run, k)
    ensures WouldPanic(L, run[k]) <==> |run[k].lh| == LOGSIZE
    ensures WouldPanic(L, run[k]) ==>
              forall o: nat :: ActiveOp(run[k], o) ==> |run[k].ops[o].logged| == MAXOPBLOCKS
  {
    ReservationSound(L, run, k);
    assert WithinBudget(run[k]);
    assert forall o :: 0 <= o < |run[k].ops| && run[k].ops[o].Active? ==> ActiveOp(run[k], o);
    if WouldPanic(L, run[k]) {
      forall o: nat | ActiveOp(run[k], o) ensures |run[k].ops[o].logged| == MAXOPBLOCKS {
        UnusedAtLeast(run[k].ops, o);
      }
    }
  }

  ghost predicate CallBy(L: Layout, s: State, s': State, o: nat) {
    exists b :: Record(L, s, s', o, b)
  }

  // The number of log_write calls operation o has made, up to step k.
  ghost function Calls(L: Layout, run: seq<State>, o: nat, k: nat): nat
    requires k < |run|
  {
    if k == 0 || Crash(run[k - 1], run[k]) then 0
    else Calls(L, run, o, k - 1)
         + (if CallBy(L, run[k - 1], run[k], o) then 1 else 0)
  }

  // As long as an operation has not used up its budget, log_write takes its next block.
  lemma BelowBudgetNeverPanics(L: Layout, run: seq<State>, o: nat, k: nat)
    requires Run(L, run) && k < |run| && L.size > LOGSIZE && Budgeted(run, k)
    requires ActiveOp(run[k], o) && |run[k].ops[o].logged| < MAXOPBLOCKS
    ensures !WouldPanic(L, run[k])
  {
    PanicExactly(L, run, k);
  }

  lemma {:induction false} LoggedAtMostCalls(L: Layout, run: seq<State>, o: nat, k: nat)
    requires Run(L, run) && k < |run| && ActiveOp(run[k], o)
    ensures |run[k].ops[o].logged| <= Calls(L, run, o, k)
  {
    assert At(L, run, k);
    if k > 0 && !Crash(run[k - 1], run[k]) {
      var s, s' := run[k - 1], run[k];
      if ActiveOp(s, o) {
        LoggedAtMostCalls(L, run, o, k - 1);
        LoggedGrows(L, s, s', o);
      }
    }
  }

  lemma LoggedGrows(L: Layout, s: State, s': State, o: nat)
    requires Next(L, s, s') && ActiveOp(s, o) && ActiveOp(s', o)
    ensures |s'.ops[o].logged| <= |s.ops[o].logged| + (if CallBy(L, s, s', o) then 1 else 0)
  {
  }

  // No active operation has made more than MAXOPBLOCKS calls, up to step k.
  ghost predicate FewCalls(L: Layout, run: seq<State>, k: nat)
    requires k < |run|
  {
    forall j: nat, o: nat :: j <= k && ActiveOp(run[j], o) ==> Calls(L, run, o, j) <= MAXOPBLOCKS
  }

  lemma FewCallsBudgeted(L: Layout, run: seq<State>, k: nat)
    requires Run(L, run) && k < |run| && FewCalls(L, run, k)
    ensures Budgeted(run, k)
  {
    forall j: nat, o: nat | j <= k && ActiveOp(run[j], o) ensures |run[j].ops[o].logged| <= MAXOPBLOCKS {
      LoggedAtMostCalls(L, run, o, j);
    }
  }

  // If every operation makes at most MAXOPBLOCKS calls of log_write, none of these calls panics.
  lemma EarlyCallsNeverPanic(L: Layout, run: seq<State>, o: nat, k: nat)
    requires Run(L, run) && k < |run| && L.size > LOGSIZE && FewCalls(L, run, k)
    requires ActiveOp(run[k], o) && Calls(L, run, o, k) < MAXOPBLOCKS
    ensures !WouldPanic(L, run[k])
  {
    FewCallsBudgeted(L, run, k);
    LoggedAtMostCalls(L, run, o, k);
    BelowBudgetNeverPanics(L, run, o, k);
  }

  // --- where it goes wrong --------------------------------------------------------------

  // The blocks that are logged below begin two blocks after the log.
  function Base(L: Layout): nat {
    L.start + L.size + 1
  }

  // A disk with an empty log and room for them.
  ghost predicate Plain(L: Layout, d: Disk) {
    && L.size > 0 && (forall b: nat :: b < Base(L) + LOGSIZE + 1 ==> Has(d, b)) && Has(d, L.start) && Count(d[L.start]) == 0
  }

  ghost predicate Has(d: Disk, b: nat) {
    b in d
  }

  // All zero except for block c.
  ghost function Marked(n: nat, c: nat): (d: Disk)
    ensures forall b: nat :: b in d <==> b < n
    ensures forall b: nat :: b < n ==> d[b][0] == if b == c then 1 else 0
  {
    if n == 0 then map[] else Marked(n - 1, c)[n - 1 := seq(BLOCKWORDS, _ => if n - 1 == c then 1 else 0)]
  }

  lemma AnyDisk(L: Layout) returns (d: Disk)
    requires L.size > 0
    ensures Plain(L, d)
  {
    d := Marked(Base(L) + LOGSIZE + 1, Base(L));
  }

  // The log holds the n blocks from Base(L) on.
  ghost predicate Lists(L: Layout, lh: seq<nat>, n: nat) {
    |lh| == n && forall i :: 0 <= i < n ==> lh[i] == Base(L) + i
  }

  ghost predicate Between(L: Layout, op: Op, n: nat) {
    op.Active? && op.touched == {} && op.call.None? && forall b :: b in op.logged ==> b < Base(L) + n
  }

  // Three operations have logged n blocks on disk d and changed nothing.
  ghost predicate Three(L: Layout, d: Disk, s: State, n: nat) {
    && s == State(d, d, s.lh, s.ops, Running) && Lists(L, s.lh, n)
    && |s.ops| == 3 && Between(L, s.ops[0], n) && Between(L, s.ops[1], n) && Between(L, s.ops[2], n)
  }

  // They have taken turns.
  ghost predicate Fair(L: Layout, d: Disk, s: State, n: nat) {
    && Three(L, d, s, n)
    && var x, y, z := |s.ops[0].logged|, |s.ops[1].logged|, |s.ops[2].logged|;
       x + y + z == n && x >= y >= z >= x - 1
  }

  // Whose turn it is.
  ghost function Turn(s: State): nat
    requires |s.ops| == 3 && s.ops[0].Active? && s.ops[1].Active? && s.ops[2].Active?
  {
    if |s.ops[0].logged| == |s.ops[2].logged| then 0 else if |s.ops[1].logged| == |s.ops[2].logged| then 1 else 2
  }

  lemma FairBudget(L: Layout, d: Disk, s: State, n: nat)
    requires Fair(L, d, s, n) && n <= LOGSIZE
    ensures WithinBudget(s)
  {
  }

  // A run that has booted with an empty log and not yet written a header or left the log; with
  // `budget` all operations keep to their budgets.
  ghost predicate Booted(L: Layout, run: seq<State>, budget: bool) {
    |run| > 2 && forall k: nat :: k < |run| ==> BootedAt(L, run, budget, k)
  }

  ghost predicate BootedAt(L: Layout, run: seq<State>, budget: bool, k: nat)
    requires k < |run|
  {
    && At(L, run, k) && (budget ==> WithinBudget(run[k]))
    && (k <= 2 ==> run[k].lh == []) && (k >= 2 ==> Early(L, run[k]))
  }

  lemma BootedRun(L: Layout, run: seq<State>, budget: bool)
    requires Booted(L, run, budget)
    ensures Run(L, run) && (budget ==> Budgeted(run, |run| - 1)) && (L.size > 0 ==> Roomy(L, run, 2))
    ensures forall t :: 2 <= t < |run| ==> Early(L, run[t])
  {
    forall k: nat | k < |run| ensures At(L, run, k) && (budget ==> WithinBudget(run[k])) {
      assert BootedAt(L, run, budget, k);
    }
    forall k: nat | k <= 2 ensures run[k].lh == [] {
      assert BootedAt(L, run, budget, k);
    }
    forall k: nat | 2 <= k < |run| ensures Early(L, run[k]) {
      assert BootedAt(L, run, budget, k);
    }
  }

  // Some such run leads to s.
  ghost predicate Reach(L: Layout, s: State, budget: bool) {
    exists run: seq<State> :: Booted(L, run, budget) && run[|run| - 1] == s
  }

  lemma ReachStep(L: Layout, s: State, s': State, budget: bool)
    requires Reach(L, s, budget) && Next(L, s, s') && Early(L, s') && (budget ==> WithinBudget(s'))
    ensures Reach(L, s', budget)
  {
    var run: seq<State> :| Booted(L, run, budget) && run[|run| - 1] == s;
    var r := run + [s'];
    forall k: nat | k < |r| ensures BootedAt(L, r, budget, k) {
      if k < |run| {
        assert BootedAt(L, run, budget, k);
      }
    }
    assert Booted(L, r, budget) && r[|r| - 1] == s';
  }

  lemma Boot(L: Layout, d: Disk, budget: bool) returns (s: State)
    requires Plain(L, d)
    ensures Reach(L, s, budget) && Fair(L, d, s, 0)
  {
    assert Has(d, L.start) && EncodeHeader(d[L.start], []) == d[L.start];
    var s0 := State(d, d, [], [], Booting);
    var s1 := State(d, d, [], [], Recovering(0));
    var s2 := State(d, d, [], [], Running);
    forall b: nat | InLog(L, b) ensures b in d { assert Has(d, b); }
    assert ReadHeader(L, s0, s1);
    assert ClearHeader(L, s1, s2) by { assert d[L.start := d[L.start]] == d; }
    var run := [s0, s1, s2];
    assert BootedAt(L, run, budget, 0) && BootedAt(L, run, budget, 1) && BootedAt(L, run, budget, 2);
    assert Booted(L, run, budget) && run[|run| - 1] == s2;
    s := BeginAll(L, d, s2, budget);
  }

  lemma BeginAll(L: Layout, d: Disk, s0: State, budget: bool) returns (s: State)
    requires Reach(L, s0, budget) && s0 == State(d, d, [], [], Running)
    ensures Reach(L, s, budget) && Fair(L, d, s, 0)
  {
    var a := Active({}, {}, None);
    var s1, s2 := s0.(ops := [a]), s0.(ops := [a, a]);
    s := s0.(ops := [a, a, a]);
    assert [a][..0] == [] && [a, a][..1] == [a];
    assert Outstanding([a]) == 1 && Outstanding([a, a]) == 2;
    assert BeginOp(s0, s1) && BeginOp(s1, s2) && BeginOp(s2, s);
    ReachStep(L, s0, s1, budget);
    ReachStep(L, s1, s2, budget);
    ReachStep(L, s2, s, budget);
  }

  lemma SameBudget(s: State, s': State)
    requires WithinBudget(s) && forall o: nat :: ActiveOp(s', o) ==> ActiveOp(s, o) && s'.ops[o].logged == s.ops[o].logged
    ensures WithinBudget(s')
  {
  }

  lemma TestOne(L: Layout, d: Disk, s: State, o: nat, b: nat, budget: bool)
    requires Reach(L, s, budget) && s.phase.Running? && Idle(s, o) && Home(L, s.disk, b) && !WouldPanic(L, s)
    requires budget ==> WithinBudget(s)
    ensures Reach(L, Tested(s, o, b), budget) && (budget ==> WithinBudget(Tested(s, o, b)))
  {
    assert TestSpace(L, s, Tested(s, o, b), o, b);
    if budget {
      SameBudget(s, Tested(s, o, b));
    }
    ReachStep(L, s, Tested(s, o, b), budget);
  }

  lemma RecordOne(L: Layout, d: Disk, s: State, s': State, o: nat, b: nat, budget: bool)
    requires Reach(L, s, budget) && Record(L, s, s', o, b) && (budget ==> WithinBudget(s'))
    ensures Reach(L, s', budget)
  {
    ReachStep(L, s, s', budget);
  }

  // A log_write without interruption.
  lemma LogOne(L: Layout, d: Disk, s: State, s': State, o: nat, b: nat, budget: bool)
    requires Reach(L, s, budget) && s.phase.Running? && Idle(s, o) && Home(L, s.disk, b) && !WouldPanic(L, s)
    requires s' == Recorded(s, o, b) && (budget ==> WithinBudget(s) && WithinBudget(s'))
    ensures Reach(L, s', budget)
  {
    TestOne(L, d, s, o, b, budget);
    RecordOne(L, d, Tested(s, o, b), s', o, b, budget);
  }

  // Operations p and q both make their tests before either records.
  lemma LogTwo(L: Layout, d: Disk, s: State, s1: State, s2: State, p: nat, b: nat, q: nat, c: nat, budget: bool)
    requires Reach(L, s, budget) && s.phase.Running? && !WouldPanic(L, s) && p != q
    requires Idle(s, p) && Home(L, s.disk, b) && Idle(s, q) && Home(L, s.disk, c)
    requires s1 == Recorded(s, p, b) && s2 == Recorded(s1, q, c)
    requires budget ==> WithinBudget(s) && WithinBudget(s1) && WithinBudget(s2)
    ensures Reach(L, s2, budget)
  {
    var t1 := Tested(s, p, b);
    TestOne(L, d, s, p, b, budget);
    var t2 := Tested(t1, q, c);
    TestOne(L, d, t1, q, c, budget);
    var t3 := Tested(s1, q, c);
    assert t3.ops == t2.ops[p := OpLogged(t2.ops[p], b)];
    if budget {
      SameBudget(s1, t3);
    }
    RecordOne(L, d, t2, t3, p, b, budget);
    RecordOne(L, d, t3, s2, q, c, budget);
  }

  lemma CanLog(L: Layout, d: Disk, s: State, n: nat, o: nat, b: nat)
    requires Plain(L, d) && Three(L, d, s, n) && o < 3 && Base(L) <= b <= Base(L) + LOGSIZE
    ensures s.phase.Running? && Idle(s, o) && Home(L, s.disk, b)
    ensures n < LOGSIZE && n < L.size - 1 ==> !WouldPanic(L, s)
  {
    assert Has(d, b);
  }

  lemma ThreeNext(L: Layout, d: Disk, s: State, n: nat, o: nat)
    requires Three(L, d, s, n) && o < 3
    ensures Idle(s, o) && Three(L, d, Recorded(s, o, Base(L) + n), n + 1)
    ensures var s' := Recorded(s, o, Base(L) + n);
            forall p :: 0 <= p < 3 ==> |s'.ops[p].logged| == |s.ops[p].logged| + (if p == o then 1 else 0)
  {
    var b := Base(L) + n;
    assert b !in s.lh && b !in s.ops[o].logged;
    assert s.ops[o].touched - {b} == {};
  }

  lemma FairNext(L: Layout, d: Disk, s: State, n: nat)
    requires Fair(L, d, s, n)
    ensures var o := Turn(s);
            && o < 3 && Idle(s, o) && Fair(L, d, Recorded(s, o, Base(L) + n), n + 1)
            && Turn(Recorded(s, o, Base(L) + n)) != o
  {
    ThreeNext(L, d, s, n, Turn(s));
  }

  lemma {:induction false} FillLog(L: Layout, d: Disk, n: nat) returns (s: State)
    requires Plain(L, d) && n <= LOGSIZE && n < L.size
    ensures Reach(L, s, true) && Fair(L, d, s, n)
  {
    if n == 0 {
      s := Boot(L, d, true);
    } else {
      var s1 := FillLog(L, d, n - 1);
      s := FillMore(L, d, s1, n - 1);
    }
  }

  // The next log_write, of the operation whose turn it is.
  lemma NextTurn(L: Layout, d: Disk, s: State, n: nat) returns (o: nat, s': State)
    requires Fair(L, d, s, n) && n < LOGSIZE
    ensures o == Turn(s) < 3 && Idle(s, o) && s' == Recorded(s, o, Base(L) + n) && Fair(L, d, s', n + 1) && Turn(s') != o
    ensures WithinBudget(s) && WithinBudget(s')
  {
    o := Turn(s);
    FairNext(L, d, s, n);
    s' := Recorded(s, o, Base(L) + n);
    FairBudget(L, d, s, n);
    FairBudget(L, d, s', n + 1);
  }

  lemma FillMore(L: Layout, d: Disk, s: State, n: nat) returns (s': State)
    requires Plain(L, d) && n < LOGSIZE && n < L.size - 1 && Reach(L, s, true) && Fair(L, d, s, n)
    ensures Reach(L, s', true) && Fair(L, d, s', n + 1)
  {
    var o;
    o, s' := NextTurn(L, d, s, n);
    CanLog(L, d, s, n, o, Base(L) + n);
    LogOne(L, d, s, s', o, Base(L) + n, true);
  }

  // The layout mkfs builds has exactly LOGSIZE log blocks, header included.  There
  // an operation within its budget can be refused: the hypothesis
  // L.size > LOGSIZE of EarlyCallsNeverPanic cannot be dropped.
  lemma SmallLogPanics() returns (L: Layout, run: seq<State>, o: nat)
    ensures L == Layout(2, LOGSIZE) && Run(L, run) && Budgeted(run, |run| - 1)
    ensures var s := run[|run| - 1]; ActiveOp(s, o) && |s.ops[o].logged| < MAXOPBLOCKS && WouldPanic(L, s)
  {
    L, o := Layout(2, LOGSIZE), 2;
    var d := AnyDisk(L);
    var s := FillLog(L, d, LOGSIZE - 1);
    run :| Booted(L, run, true) && run[|run| - 1] == s;
    BootedRun(L, run, true);
  }

  // The space check comes before absorption.  So even with a large log area an
  // operation may panic when it logs again a block it has already logged: counting
  // different blocks instead of calls is not enough.
  lemma AbsorbedWritePanics() returns (L: Layout, run: seq<State>, o: nat, b: nat)
    ensures L.size > LOGSIZE && Run(L, run) && Budgeted(run, |run| - 1)
    ensures var s := run[|run| - 1];
            ActiveOp(s, o) && b in s.ops[o].logged && |s.ops[o].logged + {b}| <= MAXOPBLOCKS && WouldPanic(L, s)
  {
    L, o := Layout(2, LOGSIZE + 1), 0;
    var d := AnyDisk(L);
    var s := FillLog(L, d, LOGSIZE);
    var g := s.ops[0].logged;
    b :| b in g;
    assert g + {b} == g;
    run :| Booted(L, run, true) && run[|run| - 1] == s;
    BootedRun(L, run, true);
  }

  // The first of three operations alone has logged n blocks.
  lemma {:induction false} GreedyLog(L: Layout, d: Disk, n: nat) returns (s: State)
    requires Plain(L, d) && L.size > LOGSIZE && n <= LOGSIZE
    ensures Reach(L, s, false) && Three(L, d, s, n) && |s.ops[0].logged| == n && |s.ops[1].logged| == 0
  {
    if n == 0 {
      s := Boot(L, d, false);
    } else {
      var s1 := GreedyLog(L, d, n - 1);
      s := LogMore(L, d, s1, n - 1, 0);
    }
  }

  // Operation o logs the next block, budget or not.
  lemma LogMore(L: Layout, d: Disk, s: State, n: nat, o: nat) returns (s': State)
    requires Plain(L, d) && n < LOGSIZE && n < L.size - 1 && Reach(L, s, false) && Three(L, d, s, n) && o < 3
    ensures Reach(L, s', false) && Three(L, d, s', n + 1)
    ensures forall p :: 0 <= p < 3 ==> |s'.ops[p].logged| == |s.ops[p].logged| + (if p == o then 1 else 0)
  {
    var b := Base(L) + n;
    CanLog(L, d, s, n, o, b);
    ThreeNext(L, d, s, n, o);
    s' := Recorded(s, o, b);
    LogOne(L, d, s, s', o, b, false);
  }

  // One operation that does not keep to its budget can make another panic that has logged nothing:
  // Budgeted cannot be dropped from BelowBudgetNeverPanics.
  lemma OverBudgetPanics() returns (L: Layout, run: seq<State>, o: nat)
    ensures L.size > LOGSIZE && Run(L, run) && !Budgeted(run, |run| - 1)
    ensures var s := run[|run| - 1]; ActiveOp(s, o) && s.ops[o].logged == {} && WouldPanic(L, s)
  {
    L, o := Layout(2, LOGSIZE + 1), 1;
    var d := AnyDisk(L);
    var s := GreedyLog(L, d, LOGSIZE);
    assert ActiveOp(s, 0) && !WithinBudget(s);
    run :| Booted(L, run, false) && run[|run| - 1] == s;
    BootedRun(L, run, false);
  }

  // With a large log and an operation over its budget: two calls pass the test at LOGSIZE - 1, and
  // the second record stores past the end of lh.block.
  lemma LargeLogOverflows() returns (L: Layout, run: seq<State>)
    ensures L.size > LOGSIZE && Run(L, run) && !Roomy(L, run, |run| - 1) && |run[|run| - 1].lh| == LOGSIZE + 1
  {
    L := Layout(2, LOGSIZE + 1);
    var n := LOGSIZE - 1;
    var d := AnyDisk(L);
    var s := GreedyLog(L, d, n);
    var b, c := Base(L) + n, Base(L) + (n + 1);
    CanLog(L, d, s, n, 1, b);
    CanLog(L, d, s, n, 2, c);
    ThreeNext(L, d, s, n, 1);
    var s1 := Recorded(s, 1, b);
    ThreeNext(L, d, s1, n + 1, 2);
    var s2 := Recorded(s1, 2, c);
    LogTwo(L, d, s, s1, s2, 1, b, 2, c, false);
    run :| Booted(L, run, false) && run[|run| - 1] == s2;
    BootedRun(L, run, false);
  }

  // Operation o ends while q is still active.
  lemma EndOne(L: Layout, d: Disk, s: State, s': State, o: nat, q: nat)
    requires Reach(L, s, true) && WithinBudget(s) && s.phase.Running? && Idle(s, o) && s.ops[o].touched == {}
    requires ActiveOp(s', q) && s' == s.(ops := s.ops[o := Done])
    ensures Reach(L, s', true) && WithinBudget(s')
  {
    OutstandingZero(s'.ops);
    assert EndOp(s, s', o);
    SameBudget(s, s');
    ReachStep(L, s, s', true);
  }

  // The commit begins.
  ghost function Closed(s: State): State {
    s.(ops := [Done, Done, Done], phase := Copying(0))
  }

  // All three operations end.
  lemma EndAll(L: Layout, d: Disk, s: State, n: nat)
    requires Reach(L, s, true) && Three(L, d, s, n) && WithinBudget(s) && L.size > 0
    ensures Reach(L, Closed(s), true)
  {
    var s1, s2 := s.(ops := [Done, s.ops[1], s.ops[2]]), s.(ops := [Done, Done, s.ops[2]]);
    var s3 := Closed(s);
    EndOne(L, d, s, s1, 0, 2);
    EndOne(L, d, s1, s2, 1, 2);
    OutstandingZero(s3.ops);
    assert s3.ops == s2.ops[2 := Done];
    assert EndOp(s2, s3, 2);
    ReachStep(L, s2, s3, true);
  }

  ghost function CopiedNext(L: Layout, s: State): State
    requires s.phase.Copying? && s.phase.tail < |s.lh| && s.lh[s.phase.tail] in s.view
  {
    var b, v := LogBlock(L, s.phase.tail), s.view[s.lh[s.phase.tail]];
    s.(disk := s.disk[b := v], view := s.view[b := v], phase := Copying(s.phase.tail + 1))
  }

  // t blocks have been copied into the log.
  ghost predicate Copied(L: Layout, d: Disk, s: State, t: nat) {
    && s.phase == Copying(t) && Lists(L, s.lh, L.size) && s.view.Keys == d.Keys && s.ops == [Done, Done, Done]
    && forall b :: b in d && !InLog(L, b) ==> b in s.disk && s.disk[b] == d[b] && s.view[b] == d[b]
  }

  lemma {:induction false} CopyAll(L: Layout, d: Disk, s: State, t: nat) returns (s': State)
    requires Plain(L, d) && t < L.size <= LOGSIZE && Three(L, d, s, L.size) && Reach(L, Closed(s), true)
    ensures Reach(L, s', true) && Copied(L, d, s', t)
  {
    if t == 0 {
      s' := Closed(s);
    } else {
      var s1 := CopyAll(L, d, s, t - 1);
      assert Has(d, s1.lh[t - 1]) && Has(d, LogBlock(L, t - 1));
      s' := CopiedNext(L, s1);
      assert CopyBlock(L, s1, s') && InLog(L, LogBlock(L, t - 1));
      ReachStep(L, s1, s', true);
    }
  }

  // Two calls pass the test with one block of the log left, and the commit fills the log.
  lemma ToTheEdge(L: Layout, d: Disk) returns (s: State)
    requires 2 <= L.size <= LOGSIZE && Plain(L, d)
    ensures Reach(L, s, true) && Copied(L, d, s, L.size - 1)
  {
    s := FillLog(L, d, L.size - 2);
    s := FillTwo(L, d, s, L.size - 2);
    FairBudget(L, d, s, L.size);
    EndAll(L, d, s, L.size);
    s := CopyAll(L, d, s, L.size - 1);
  }

  lemma TwoMore(L: Layout, d: Disk, s: State, s1: State, s2: State, n: nat, p: nat, q: nat, b: nat, c: nat)
    requires Plain(L, d) && n + 2 <= LOGSIZE && n + 2 <= L.size && Reach(L, s, true) && Three(L, d, s, n)
    requires p < 3 && q < 3 && p != q && Base(L) <= b < c <= Base(L) + LOGSIZE
    requires Idle(s, p) && s1 == Recorded(s, p, b) && Idle(s1, q) && s2 == Recorded(s1, q, c)
    requires WithinBudget(s) && WithinBudget(s1) && WithinBudget(s2)
    ensures Reach(L, s2, true)
  {
    CanLog(L, d, s, n, p, b);
    CanLog(L, d, s, n, q, c);
    LogTwo(L, d, s, s1, s2, p, b, q, c, true);
  }

  lemma TwoTurns(L: Layout, d: Disk, s: State, n: nat) returns (p: nat, q: nat, s1: State, s2: State)
    requires n + 2 <= LOGSIZE && Fair(L, d, s, n)
    ensures p < 3 && q < 3 && p != q && Idle(s, p) && s1 == Recorded(s, p, Base(L) + n)
    ensures Idle(s1, q) && s2 == Recorded(s1, q, Base(L) + (n + 1)) && Fair(L, d, s2, n + 2)
    ensures WithinBudget(s) && WithinBudget(s1) && WithinBudget(s2)
  {
    p, s1 := NextTurn(L, d, s, n);
    q, s2 := NextTurn(L, d, s1, n + 1);
  }

  lemma FillTwo(L: Layout, d: Disk, s: State, n: nat) returns (s': State)
    requires Plain(L, d) && n + 2 <= LOGSIZE && n + 2 <= L.size && Reach(L, s, true) && Fair(L, d, s, n)
    ensures Reach(L, s', true) && Fair(L, d, s', n + 2)
  {
    var p, q, s1;
    p, q, s1, s' := TwoTurns(L, d, s, n);
    TwoMore(L, d, s, s1, s', n, p, q, Base(L) + n, Base(L) + (n + 1));
  }

  // With any log of at most LOGSIZE blocks, the one mkfs makes included, and every operation within
  // its budget: two calls pass the test with one block of the log left, and the commit overwrites
  // the block after the log before it writes its header.
  lemma SmallLogOverwrites(L: Layout) returns (run: seq<State>)
    requires 2 <= L.size <= LOGSIZE
    ensures Run(L, run) && Budgeted(run, |run| - 1) && !Atomic(L, run, |run| - 1)
  {
    var d := Marked(Base(L) + LOGSIZE + 1, Base(L) + L.size - 1);
    var s := ToTheEdge(L, d);
    var r: seq<State> :| Booted(L, r, true) && r[|r| - 1] == s;
    BootedRun(L, r, true);
    run := OneMore(L, d, r, s);
  }

  lemma OneMore(L: Layout, d: Disk, r: seq<State>, s: State) returns (run: seq<State>)
    requires 2 <= L.size && Run(L, r) && Budgeted(r, |r| - 1) && 2 < |r| && Roomy(L, r, 2) && forall t :: 2 <= t < |r| ==> Early(L, r[t])
    requires r[|r| - 1] == s && Copied(L, d, s, L.size - 1)
    requires L.start + L.size in d && Base(L) + L.size - 1 in d && d[L.start + L.size] != d[Base(L) + L.size - 1]
    ensures Run(L, run) && Budgeted(run, |run| - 1) && !Atomic(L, run, |run| - 1)
  {
    assert s.lh[L.size - 1] in s.view;
    var s' := CopiedNext(L, s);
    assert CopyBlock(L, s, s');
    RunSnoc(L, r, s');
    run := r + [s'];
    assert forall t :: 0 <= t < |r| ==> run[t] == r[t];
    assert WithinBudget(s');
    assert Roomy(L, run, 2);
    OverwritesExactly(L, run, 2, |r| - 1);
  }

  // A log without blocks: every test fails.
  lemma {:induction false} NoLogNoCalls(L: Layout, run: seq<State>, k: nat)
    requires Run(L, run) && k < |run| && L.size <= 1
    ensures Roomy(L, run, k) && forall o: nat :: ActiveOp(run[k], o) ==> run[k].ops[o].call.None?
  {
    assert At(L, run, k) && At(L, run, 0);
    if k > 0 {
      NoLogNoCalls(L, run, k - 1);
      BoundsStep(L, run[k - 1], run[k]);
    }
  }

  // Operations that keep to their budgets are crash-atomic in every run, if and only if the log area has
  // more than LOGSIZE blocks, header included (or no block to log anything in).
  lemma AtomicExactly(L: Layout)
    ensures (forall run: seq<State>, k: nat :: Run(L, run) && k < |run| && Budgeted(run, k) ==> Atomic(L, run, k))
            <==> L.size > LOGSIZE || L.size <= 1
  {
    if 2 <= L.size <= LOGSIZE {
      var run := SmallLogOverwrites(L);
    } else {
      forall run: seq<State>, k: nat | Run(L, run) && k < |run| && Budgeted(run, k) ensures Atomic(L, run, k) {
        if L.size > LOGSIZE {
          BudgetedIsRoomy(L, run, k);
        } else {
          NoLogNoCalls(L, run, k);
          RunInv(L, run, k);
        }
      }
    }
  }
}
