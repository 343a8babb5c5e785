/**
 log.c over the buffer cache.  Every critical section and every block write adds
 the state it reaches to the ghost field `run`; `run` is always a run of the
 machine in LogProtocol.dfy, so its theorems hold of everything this code does.
 */
module Log {
  import opened Blocks
  import opened Kernel
  import opened LogProtocol
  import opened BufferCache

  // Buffers are in use only by readers, who hold blocks in `held`.
  ghost predicate Quiet(cache: Cache, held: set<nat>)
    reads cache
  {
    cache.changed == {} && forall i :: 0 <= i < |cache.bufs| && cache.bufs[i].locked ==> cache.bufs[i].blockno in held
  }

  // Readers hold on to what they have.
  ghost predicate SameHeld(bufs: seq<Buf>, bufs': seq<Buf>, held: set<nat>) {
    |bufs'| == |bufs| && forall i :: 0 <= i < |bufs| && bufs[i].locked && bufs[i].blockno in held ==> bufs'[i] == bufs[i]
  }

  // The loop bodies of write_log and install_trans: copy block src over block dst
  // and write dst.  Not ok means bget panicked for want of a buffer.
  method CopyThrough(cache: Cache, src: nat, dst: nat, dstFirst: bool, ghost held: set<nat>) returns (ok: bool)
    requires cache.Valid() && Quiet(cache, held) && src in cache.disk && dst in cache.disk && src != dst
    requires src !in held && dst !in held
    modifies cache
    ensures cache.Valid() && SameHeld(old(cache.bufs), cache.bufs, held)
    ensures !ok ==> cache.disk == old(cache.disk)
    ensures ok ==> Quiet(cache, held) && cache.disk == old(cache.disk)[dst := old(cache.Contents())[src]]
    ensures ok ==> cache.Contents() == old(cache.Contents())[dst := old(cache.Contents())[src]]
    ensures ok ==> DirtyBlocks(cache.bufs) == old(DirtyBlocks(cache.bufs)) - {dst}
    ensures OneDirty(old(cache.bufs), src, dst, dstFirst) ==> (ok <==> Room(old(cache.bufs), if dstFirst then dst else src))
    ensures ok && OneDirty(old(cache.bufs), src, dst, dstFirst) ==> CopyKeeps(old(cache.bufs), cache.bufs, dstFirst)
    ensures old(AllFree(cache.bufs)) ==> (ok <==> |cache.bufs| >= 2) && (ok ==> AllFree(cache.bufs))
  {
    var one, two := if dstFirst then dst else src, if dstFirst then src else dst;
    var a, b;
    FirstRoom(cache.bufs, one);
    ok, a := cache.Bread(one);
    if !ok { return; }
    ghost var b1 := cache.bufs;
    SecondThere(old(cache.bufs), b1, one, two, a);
    ok, b := cache.Bread(two);
    if !ok { return; }
    ghost var b2 := cache.bufs;
    MoveAndWrite(cache, if dstFirst then b else a, if dstFirst then a else b, held);
    BothBack(old(cache.bufs), b1, b2, cache.bufs, one, two, a, b, dstFirst);
  }

  // Of the two blocks, the one that is read second is pinned, and the other is not.
  ghost predicate OneDirty(bufs: seq<Buf>, src: nat, dst: nat, dstFirst: bool) {
    SecondDirty(bufs, if dstFirst then dst else src, if dstFirst then src else dst)
  }

  ghost predicate SecondDirty(bufs: seq<Buf>, one: nat, two: nat) {
    && (forall i :: 0 <= i < |bufs| && bufs[i].dirty ==> bufs[i].dev == 1)
    && two in DirtyBlocks(bufs) && one !in DirtyBlocks(bufs)
  }

  // Buffers remain for the next copy.
  ghost predicate CopyKeeps(bufs: seq<Buf>, bufs': seq<Buf>, same: bool) {
    && (same ==> Keeps(bufs, bufs'))
    && (if AnyFree(bufs) then AnyFree(bufs') else forall c :: Cached(bufs, c) ==> Cached(bufs', c))
  }

  lemma FirstRoom(bufs: seq<Buf>, one: nat)
    ensures AllFree(bufs) ==> (Room(bufs, one) <==> |bufs| >= 1)
  {
    if AllFree(bufs) {
      AllFreeRoom(bufs, one);
    }
  }

  lemma SecondThere(b0: seq<Buf>, b1: seq<Buf>, one: nat, two: nat, a: nat)
    requires one != two && Fetched(b0, b1, one, a)
    ensures SecondDirty(b0, one, two) ==> Room(b1, two)
    ensures AllFree(b0) ==> (Room(b1, two) <==> |b0| >= 2)
  {
    if SecondDirty(b0, one, two) {
      var i := DirtyThere(b0, two);
      DirtyStays(b0, b1, one, a, two, i);
    }
    if AllFree(b0) {
      SecondRoom(b0, b1, one, two, a);
    }
  }

  lemma BothBack(b0: seq<Buf>, b1: seq<Buf>, b2: seq<Buf>, b3: seq<Buf>, one: nat, two: nat, a: nat, b: nat, first: bool)
    requires Unique(b0) && Fetched(b0, b1, one, a) && Fetched(b1, b2, two, b) && one != two && a != b
    requires |b3| == |b2| && (forall i :: 0 <= i < |b2| && i != a && i != b ==> b3[i] == b2[i])
    requires GivenBack(b2[a], b3[a], first) && GivenBack(b2[b], b3[b], !first)
    ensures SecondDirty(b0, one, two) ==> CopyKeeps(b0, b3, first)
    ensures AllFree(b0) ==> AllFree(b3)
  {
    if SecondDirty(b0, one, two) {
      var i := DirtyThere(b0, two);
      assert For(b0[i], 1, two);
      PairKeeps(b0, b1, b2, b3, one, two, a, b, first);
    }
    if AllFree(b0) {
      AllGivenBack(b0, b1, b2, b3, one, two, a, b, first);
    }
  }

  // Whether blocks lo .. hi-1 can be read one after the other.
  ghost predicate Ready(bufs: seq<Buf>, lo: nat, hi: nat) {
    AnyFree(bufs) || forall c: nat :: lo <= c < hi ==> Cached(bufs, c)
  }

  // The next block can be read exactly when the cache the loop began with had room for it.
  lemma ReadyNext(b0: seq<Buf>, bufs: seq<Buf>, lo: nat, c: nat, next: nat)
    requires Keeps(b0, bufs) && Ready(b0, lo, c) && lo <= c && next == c + 1
    ensures Room(bufs, c) <==> Ready(b0, lo, next)
  {
    if !AnyFree(b0) {
      SameRoom(b0, bufs);
    }
  }

  // After the log blocks comes the header.
  lemma CommitRoom(b0: seq<Buf>, bufs: seq<Buf>, start: nat, end: nat)
    requires Keeps(b0, bufs) && start < end && Ready(b0, start + 1, end)
    ensures Room(bufs, start) <==> Ready(b0, start, end)
  {
    if !AnyFree(b0) {
      SameRoom(b0, bufs);
    }
  }

  lemma StillReady(b0: seq<Buf>, bufs: seq<Buf>, lo: nat, hi: nat)
    requires Keeps(b0, bufs) && Ready(b0, lo, hi)
    ensures Ready(bufs, lo, hi)
  {
    if !AnyFree(b0) {
      SameRoom(b0, bufs);
    }
  }

  lemma ReadyRoom(bufs: seq<Buf>, lo: nat, hi: nat, c: nat)
    requires lo <= c < hi
    ensures Ready(bufs, lo, hi) ==> Room(bufs, c)
  {
  }

  lemma ReadyKept(b0: seq<Buf>, bufs: seq<Buf>, lo: nat, hi: nat)
    ensures CopyKeeps(b0, bufs, false) && Ready(b0, lo, hi) ==> Ready(bufs, lo, hi)
  {
  }

  lemma NotReady(bufs: seq<Buf>, lo: nat, c: nat, hi: nat)
    requires lo <= c <= hi && !Ready(bufs, lo, c)
    ensures !Ready(bufs, lo, hi)
  {
  }

  // Block src of the log, which lies in lo .. hi-1, to its home location dst; `pinned` when dst is still in the cache.
  method InstallCopy(cache: Cache, src: nat, dst: nat, ghost held: set<nat>, ghost lo: nat, ghost hi: nat, ghost pinned: bool)
    returns (ok: bool)
    requires cache.Valid() && Quiet(cache, held) && src in cache.disk && dst in cache.disk && src != dst
    requires src !in held && dst !in held && lo <= src < hi
    requires pinned ==> dst in DirtyBlocks(cache.bufs) && src !in DirtyBlocks(cache.bufs)
    modifies cache
    ensures cache.Valid() && SameHeld(old(cache.bufs), cache.bufs, held)
    ensures !ok ==> cache.disk == old(cache.disk)
    ensures ok ==> Quiet(cache, held) && cache.disk == old(cache.disk)[dst := old(cache.Contents())[src]]
    ensures ok ==> cache.Contents() == old(cache.Contents())[dst := old(cache.Contents())[src]]
    ensures ok ==> DirtyBlocks(cache.bufs) == old(DirtyBlocks(cache.bufs)) - {dst}
    ensures pinned && Ready(old(cache.bufs), lo, hi) ==> ok && Ready(cache.bufs, lo, hi)
    ensures old(AllFree(cache.bufs)) ==> (ok <==> |cache.bufs| >= 2) && (ok ==> AllFree(cache.bufs))
  {
    ReadyRoom(cache.bufs, lo, hi, src);
    ok := CopyThrough(cache, src, dst, false, held);
    ReadyKept(old(cache.bufs), cache.bufs, lo, hi);
  }

  ghost predicate OnlyLocked(bufs: seq<Buf>, a: nat, b: nat, held: set<nat>) {
    forall i :: 0 <= i < |bufs| && i != a && i != b && bufs[i].locked ==> bufs[i].blockno in held
  }

  method MoveAndWrite(cache: Cache, from: nat, to: nat, ghost held: set<nat>)
    requires cache.Valid() && cache.changed == {} && from < |cache.bufs| && to < |cache.bufs| && from != to
    requires cache.bufs[from].locked && cache.bufs[from].valid && cache.bufs[to].locked && cache.bufs[to].valid
    requires OnlyLocked(cache.bufs, from, to, held)
    requires cache.bufs[from].blockno !in held && cache.bufs[to].blockno !in held
    modifies cache
    ensures cache.Valid() && Quiet(cache, held) && SameHeld(old(cache.bufs), cache.bufs, held)
    ensures var dst, data := old(cache.bufs)[to].blockno, old(cache.bufs)[from].data;
            && cache.disk == old(cache.disk)[dst := data]
            && cache.Contents() == old(cache.Contents())[dst := data]
            && DirtyBlocks(cache.bufs) == old(DirtyBlocks(cache.bufs)) - {dst}
    ensures |cache.bufs| == |old(cache.bufs)|
    ensures forall i :: 0 <= i < |cache.bufs| && i != from && i != to ==> cache.bufs[i] == old(cache.bufs)[i]
    ensures GivenBack(old(cache.bufs)[from], cache.bufs[from], false) && GivenBack(old(cache.bufs)[to], cache.bufs[to], true)
  {
    cache.Modify(to, cache.bufs[from].data);
    cache.Bwrite(to);
    assert cache.changed == {};
    cache.Brelse(from);
    cache.Brelse(to);
  }

  // New contents for the one buffer held: bwrite and brelse.
  method ChangeAndWrite(cache: Cache, b: nat, data: Block, ghost held: set<nat>)
    requires cache.Valid() && cache.changed == {} && b < |cache.bufs| && cache.bufs[b].locked && cache.bufs[b].valid
    requires OnlyLocked(cache.bufs, b, b, held) && cache.bufs[b].blockno !in held
    modifies cache
    ensures cache.Valid() && Quiet(cache, held) && SameHeld(old(cache.bufs), cache.bufs, held)
    ensures var c := old(cache.bufs)[b].blockno;
            && cache.disk == old(cache.disk)[c := data] && cache.Contents() == old(cache.Contents())[c := data]
            && DirtyBlocks(cache.bufs) == old(DirtyBlocks(cache.bufs)) - {c}
    ensures |cache.bufs| == |old(cache.bufs)| && cache.bufs == old(cache.bufs)[b := cache.bufs[b]]
    ensures GivenBack(old(cache.bufs)[b], cache.bufs[b], true)
  {
    cache.Modify(b, data);
    cache.Bwrite(b);
    assert cache.changed == {};
    cache.Brelse(b);
  }

  // bread a block, take a copy, brelse.
  method FetchBlock(cache: Cache, b: nat, ghost held: set<nat>) returns (ok: bool, data: Block)
    requires cache.Valid() && Quiet(cache, held) && b in cache.disk && b !in held
    modifies cache
    ensures cache.Valid() && cache.disk == old(cache.disk) && cache.Contents() == old(cache.Contents())
    ensures DirtyBlocks(cache.bufs) == old(DirtyBlocks(cache.bufs))
    ensures ok ==> Quiet(cache, held) && data == cache.Contents()[b]
    ensures |cache.bufs| == |old(cache.bufs)| && (ok <==> Room(old(cache.bufs), b))
    ensures ok && old(AllFree(cache.bufs)) ==> AllFree(cache.bufs)
  {
    var i;
    ok, i := cache.Bread(b);
    data := seq(BLOCKWORDS, _ => 0);
    if ok {
      data := cache.bufs[i].data;
      cache.Brelse(i);
    }
  }

  // --- the machine's steps, as the class takes them ----------------------------------

  // A run that has stayed within the bounds of the log leads to s.
  ghost predicate Reaches(L: Layout, run: seq<State>, s: State) {
    Run(L, run) && Roomy(L, run, |run| - 1) && run[|run| - 1] == s
  }

  lemma Extend(L: Layout, run: seq<State>, s: State, s': State)
    requires Reaches(L, run, s) && Next(L, s, s') && InBounds(L, s')
    ensures Reaches(L, run + [s'], s')
  {
    RunSnoc(L, run, s');
  }

  // Block b written with v, in the next phase.
  ghost function Written(s: State, b: nat, v: Block, phase: Phase): State {
    s.(disk := s.disk[b := v], view := s.view[b := v], phase := phase)
  }

  lemma DiskStaysOk(L: Layout, run: seq<State>, s: State)
    requires Reaches(L, run, s)
    ensures DiskOk(L, s.disk)
  {
    RunInv(L, run, |run| - 1);
  }

  lemma ActiveMeansRunning(L: Layout, run: seq<State>, s: State, o: nat)
    requires Reaches(L, run, s) && ActiveOp(s, o)
    ensures s.phase.Running? && s.view.Keys == s.disk.Keys
  {
    RunInv(L, run, |run| - 1);
  }

  ghost function ModifiedBy(s: State, o: nat, b: nat, v: Block): State
    requires ActiveOp(s, o)
  {
    s.(view := s.view[b := v], ops := s.ops[o := s.ops[o].(touched := s.ops[o].touched + {b})])
  }

  lemma ModifyStep(L: Layout, run: seq<State>, s: State, o: nat, b: nat, v: Block)
    requires Reaches(L, run, s) && Idle(s, o) && Home(L, s.disk, b)
    ensures var s' := ModifiedBy(s, o, b, v);
            && LogProtocol.Modify(L, s, s', o, b, v) && Reaches(L, run + [s'], s')
            && Outstanding(s'.ops) == Outstanding(s.ops)
            && forall c :: Touched(s.ops, c) || c == b ==> Touched(s'.ops, c)
  {
    var s' := ModifiedBy(s, o, b, v);
    ActiveMeansRunning(L, run, s, o);
    assert LogProtocol.Modify(L, s, s', o, b, v);
    Extend(L, run, s, s');
    UnusedUpdate(s.ops, o, s'.ops[o]);
    TouchedUpdate(s.ops, o, s'.ops[o]);
  }

  lemma TestSpaceStep(L: Layout, run: seq<State>, s: State, o: nat, b: nat)
    requires Reaches(L, run, s) && Idle(s, o) && Home(L, s.disk, b) && !WouldPanic(L, s)
    ensures var s' := Tested(s, o, b);
            && LogProtocol.TestSpace(L, s, s', o, b) && Reaches(L, run + [s'], s')
            && Outstanding(s'.ops) == Outstanding(s.ops)
            && forall c :: Touched(s.ops, c) ==> Touched(s'.ops, c)
  {
    var s' := Tested(s, o, b);
    ActiveMeansRunning(L, run, s, o);
    assert LogProtocol.TestSpace(L, s, s', o, b);
    Extend(L, run, s, s');
    UnusedUpdate(s.ops, o, s'.ops[o]);
    TouchedUpdate(s.ops, o, s'.ops[o]);
  }

  lemma RecordStep(L: Layout, run: seq<State>, s: State, o: nat, b: nat)
    requires Reaches(L, run, s) && ActiveOp(s, o) && s.ops[o].call == Some(b) && (b in s.lh || !WouldPanic(L, s))
    ensures var s' := Recorded(s, o, b);
            && LogProtocol.Record(L, s, s', o, b) && Reaches(L, run + [s'], s')
            && Outstanding(s'.ops) == Outstanding(s.ops)
            && Pinned(s'.phase, s'.lh) == Pinned(s.phase, s.lh) + {b}
            && forall c :: Touched(s.ops, c) && c != b ==> Touched(s'.ops, c)
  {
    var s' := Recorded(s, o, b);
    ActiveMeansRunning(L, run, s, o);
    assert LogProtocol.Record(L, s, s', o, b);
    Extend(L, run, s, s');
    UnusedUpdate(s.ops, o, s'.ops[o]);
    TouchedUpdate(s.ops, o, s'.ops[o]);
    ToSetSnoc(s.lh, b);
  }

  ghost function CopyNext(L: Layout, s: State): State
    requires s.phase.Copying? && s.phase.tail < |s.lh| && s.lh[s.phase.tail] in s.view
  {
    Written(s, LogBlock(L, s.phase.tail), s.view[s.lh[s.phase.tail]], Copying(s.phase.tail + 1))
  }

  lemma CopyFacts(L: Layout, s: State)
    requires Inv(L, s) && s.phase.Copying? && s.phase.tail < |s.lh|
    ensures var t := s.phase.tail;
            && LogBlock(L, t) in s.disk && s.lh[t] in s.view && LogBlock(L, t) != s.lh[t]
            && LogBlock(L, t) !in Pinned(s.phase, s.lh) && InLog(L, LogBlock(L, t))
            && LogProtocol.CopyBlock(L, s, CopyNext(L, s))
            && HomeBlocks(L, CopyNext(L, s).view) == HomeBlocks(L, s.view)
  {
  }

  lemma CopyStep(L: Layout, run: seq<State>, s: State)
    requires Reaches(L, run, s) && s.phase.Copying? && s.phase.tail < |s.lh|
    ensures var t := s.phase.tail;
            && LogBlock(L, t) in s.disk && s.lh[t] in s.view && LogBlock(L, t) != s.lh[t]
            && LogBlock(L, t) !in Pinned(s.phase, s.lh) && InLog(L, LogBlock(L, t))
            && Reaches(L, run + [CopyNext(L, s)], CopyNext(L, s))
            && HomeBlocks(L, CopyNext(L, s).view) == HomeBlocks(L, s.view)
  {
    RunInv(L, run, |run| - 1);
    CopyFacts(L, s);
    Extend(L, run, s, CopyNext(L, s));
  }

  ghost function CommitNext(L: Layout, s: State): State
    requires L.start in s.view && |s.lh| <= LOGSIZE
  {
    Written(s, L.start, EncodeHeader(s.view[L.start], s.lh), Installing(0))
  }

  lemma CommitFacts(L: Layout, s: State)
    requires Inv(L, s) && s.phase == Copying(|s.lh|) && s.lh != []
    ensures L.start in s.view && L.start in s.disk && |s.lh| <= LOGSIZE && L.start !in Pinned(s.phase, s.lh)
    ensures LogProtocol.CommitHeader(L, s, CommitNext(L, s))
    ensures HomeBlocks(L, CommitNext(L, s).view) == HomeBlocks(L, s.view)
  {
    UnusedNonNeg(s.ops);
    assert InLog(L, L.start);
  }

  lemma CommitStep(L: Layout, run: seq<State>, s: State)
    requires Reaches(L, run, s) && s.phase == Copying(|s.lh|) && s.lh != []
    ensures L.start in s.view && L.start in s.disk && |s.lh| <= LOGSIZE && L.start !in Pinned(s.phase, s.lh)
    ensures var s' := CommitNext(L, s);
            && Reaches(L, run + [s'], s') && Pinned(s'.phase, s'.lh) == Pinned(s.phase, s.lh)
            && HomeBlocks(L, s'.view) == HomeBlocks(L, s.view)
            && DiskOk(L, s'.disk) && Committed(L, s'.disk) == HomeBlocks(L, s.view)
  {
    RunInv(L, run, |run| - 1);
    CommitFacts(L, s);
    var s' := CommitNext(L, s);
    Extend(L, run, s, s');
    assert DiskOk(L, s'.disk) && Committed(L, s'.disk) == HomeBlocks(L, s.view) by { CommitHeaderInv(L, s, s'); }
    assert s.lh[0..] == s.lh;
  }

  ghost function Bump(phase: Phase): Phase
    requires phase.Installing? || phase.Recovering?
  {
    if phase.Installing? then Installing(phase.tail + 1) else Recovering(phase.tail + 1)
  }

  ghost function InstallNext(L: Layout, s: State): State
    requires (s.phase.Installing? || s.phase.Recovering?) && s.phase.tail < |s.lh|
    requires LogBlock(L, s.phase.tail) in s.view
  {
    Written(s, s.lh[s.phase.tail], s.view[LogBlock(L, s.phase.tail)], Bump(s.phase))
  }

  lemma InstallFacts(L: Layout, s: State)
    requires Inv(L, s) && (s.phase.Installing? || s.phase.Recovering?) && s.phase.tail < |s.lh|
    ensures var t := s.phase.tail;
            && LogBlock(L, t) in s.view && LogBlock(L, t) in s.disk && s.lh[t] in s.disk && LogBlock(L, t) != s.lh[t]
            && InLog(L, LogBlock(L, t))
            && LogProtocol.InstallBlock(L, s, InstallNext(L, s)) && Distinct(s.lh)
  {
  }

  // No block of the log is pinned.
  lemma LogUnpinned(L: Layout, d: Disk, phase: Phase, lh: seq<nat>, c: nat)
    requires AllHome(L, d, lh) && InLog(L, c)
    ensures c !in Pinned(phase, lh)
  {
  }

  lemma InstallStep(L: Layout, run: seq<State>, s: State)
    requires Reaches(L, run, s) && (s.phase.Installing? || s.phase.Recovering?) && s.phase.tail < |s.lh|
    ensures var t := s.phase.tail;
            && LogBlock(L, t) in s.view && LogBlock(L, t) in s.disk && s.lh[t] in s.disk && LogBlock(L, t) != s.lh[t]
            && InLog(L, LogBlock(L, t)) && LogBlock(L, t) !in Pinned(s.phase, s.lh)
            && var s' := InstallNext(L, s);
               && Reaches(L, run + [s'], s') && Pinned(s'.phase, s'.lh) == Pinned(s.phase, s.lh) - {s.lh[t]}
               && (s.phase.Installing? ==> HomeBlocks(L, s'.view) == HomeBlocks(L, s.view))
               && DiskOk(L, s.disk) && DiskOk(L, s'.disk) && Committed(L, s'.disk) == Committed(L, s.disk)
  {
    RunInv(L, run, |run| - 1);
    InstallFacts(L, s);
    LogUnpinned(L, s.disk, s.phase, s.lh, LogBlock(L, s.phase.tail));
    InstallKeeps(L, s);
    Extend(L, run, s, InstallNext(L, s));
    TailSet(s.lh, s.phase.tail);
  }

  lemma InstallKeeps(L: Layout, s: State)
    requires Inv(L, s) && (s.phase.Installing? || s.phase.Recovering?) && s.phase.tail < |s.lh|
    requires LogBlock(L, s.phase.tail) in s.view && LogBlock(L, s.phase.tail) in s.disk && s.lh[s.phase.tail] in s.disk
    requires LogProtocol.InstallBlock(L, s, InstallNext(L, s))
    ensures var s' := InstallNext(L, s);
            && (s.phase.Installing? ==> HomeBlocks(L, s'.view) == HomeBlocks(L, s.view))
            && DiskOk(L, s.disk) && DiskOk(L, s'.disk) && Committed(L, s'.disk) == Committed(L, s.disk)
  {
    InstallBlockInv(L, s, InstallNext(L, s));
    InstallBlockView(L, s, InstallNext(L, s));
  }

  ghost function EraseNext(L: Layout, s: State): State
    requires L.start in s.view
  {
    Written(s, L.start, EncodeHeader(s.view[L.start], []), if s.phase.Installing? then Cleared else Running).(lh := [])
  }

  lemma EraseFacts(L: Layout, s: State)
    requires Inv(L, s) && (s.phase == Installing(|s.lh|) || s.phase == Recovering(|s.lh|))
    ensures L.start in s.view && L.start in s.disk && Pinned(s.phase, s.lh) == {}
    ensures LogProtocol.ClearHeader(L, s, EraseNext(L, s))
  {
  }

  lemma EraseStep(L: Layout, run: seq<State>, s: State)
    requires Reaches(L, run, s) && (s.phase == Installing(|s.lh|) || s.phase == Recovering(|s.lh|))
    ensures L.start in s.view && L.start in s.disk && Pinned(s.phase, s.lh) == {}
    ensures var s' := EraseNext(L, s);
            && Reaches(L, run + [s'], s') && Pinned(s'.phase, s'.lh) == {} && s'.view == s'.disk
            && DiskOk(L, s.disk) && HomeBlocks(L, s'.disk) == Committed(L, s.disk)
  {
    RunInv(L, run, |run| - 1);
    EraseFacts(L, s);
    var s' := EraseNext(L, s);
    Extend(L, run, s, s');
    assert HomeBlocks(L, s'.disk) == Committed(L, s.disk) && ViewOk(s') by { ClearHeaderInv(L, s, s'); }
    ErasedView(L, s, s');
  }

  lemma ErasedView(L: Layout, s: State, s': State)
    requires Inv(L, s) && LogProtocol.ClearHeader(L, s, s') && ViewOk(s')
    ensures s'.view == s'.disk
  {
    Untouched(L, s);
  }

  lemma TailSet(lh: seq<nat>, t: nat)
    requires Distinct(lh) && t < |lh|
    ensures ToSet(lh[t + 1..]) == ToSet(lh[t..]) - {lh[t]}
  {
  }

  lemma EmptyStep(L: Layout, run: seq<State>, s: State)
    requires Reaches(L, run, s) && s.phase == Copying(0) && s.lh == []
    ensures var s' := s.(phase := Cleared); Reaches(L, run + [s'], s')
    ensures s.disk == s.view
  {
    Extend(L, run, s, s.(phase := Cleared));
    RunInv(L, run, |run| - 1);
    Untouched(L, s);
  }

  lemma EndOpStep(L: Layout, run: seq<State>, s: State, o: nat)
    requires Reaches(L, run, s) && Idle(s, o) && s.ops[o].touched == {}
    ensures var ops' := s.ops[o := Done];
            var s' := s.(ops := ops', phase := if Outstanding(ops') == 0 then Copying(0) else Running);
            && s.phase.Running? && Reaches(L, run + [s'], s') && Pinned(s'.phase, s'.lh) == Pinned(s.phase, s.lh)
            && Outstanding(ops') == Outstanding(s.ops) - 1
            && forall c :: Touched(s.ops, c) ==> Touched(ops', c)
  {
    ActiveMeansRunning(L, run, s, o);
    var ops' := s.ops[o := Done];
    var s' := s.(ops := ops', phase := if Outstanding(ops') == 0 then Copying(0) else Running);
    assert LogProtocol.EndOp(s, s', o);
    Extend(L, run, s, s');
    UnusedUpdate(s.ops, o, Done);
    TouchedUpdate(s.ops, o, Done);
  }

  lemma BootStep(L: Layout, run: seq<State>, s: State)
    requires Reaches(L, run, s) && s.phase == Booting
    ensures L.start in s.disk && DiskOk(L, s.disk) && s.view == s.disk && s.lh == []
    ensures var s' := s.(lh := Header(L, s.disk), phase := Recovering(0)); Reaches(L, run + [s'], s')
  {
    RunInv(L, run, |run| - 1);
    var s' := s.(lh := Header(L, s.disk), phase := Recovering(0));
    assert ReadHeader(L, s, s');
    Extend(L, run, s, s');
  }

  lemma BeginOpStep(L: Layout, run: seq<State>, s: State)
    requires Reaches(L, run, s) && s.phase.Running?
    requires |s.lh| + Reserved(Outstanding(s.ops) + 1) <= LOGSIZE
    ensures var s' := s.(ops := s.ops + [Active({}, {}, None)]);
            && LogProtocol.BeginOp(s, s') && Reaches(L, run + [s'], s')
            && Outstanding(s'.ops) == Outstanding(s.ops) + 1
            && forall c :: Touched(s.ops, c) ==> Touched(s'.ops, c)
  {
    var s' := s.(ops := s.ops + [Active({}, {}, None)]);
    Extend(L, run, s, s');
    assert s'.ops[..|s.ops|] == s.ops;
    forall c | Touched(s.ops, c) ensures Touched(s'.ops, c) {
      var o :| 0 <= o < |s.ops| && s.ops[o].Active? && c in s.ops[o].touched;
      assert s'.ops[o] == s.ops[o];
    }
  }

  // --- log.c ----------------------------------------------------------------------

  class WriteAheadLog {
    const cache: Cache
    const layout: Layout            // log.start, log.size
    var n: nat                      // log.lh.n
    var block: seq<nat>             // log.lh.block
    var outstanding: nat
    var committing: bool
    ghost var st: State             // where the machine is
    ghost var run: seq<State>       // how it got there

    // The disk is the machine's disk, even inside a step.
    ghost predicate Traced()
      reads this, cache
    {
      Reaches(layout, run, st) && st.disk == cache.disk
    }

    ghost predicate Valid()
      reads this, cache
    {
      && cache.Valid()
      && |block| == LOGSIZE && n <= LOGSIZE
      && Reaches(layout, run, st)
      && st.disk == cache.disk && st.view == cache.Contents() && st.lh == block[..n]
      && outstanding == Outstanding(st.ops)
      && (committing <==> st.phase.Copying? || st.phase.Installing? || st.phase.Cleared?)
      // Pinned buffers are exactly the logged blocks, until installing unpins them.
      && DirtyBlocks(cache.bufs) == Pinned(st.phase, st.lh)
      && (forall i :: i in cache.changed ==> i < |cache.bufs| && Touched(st.ops, cache.bufs[i].blockno))
    }

    // Readers hold neither blocks of the log nor logged blocks, for which a commit would wait.
    ghost predicate Spared(held: set<nat>)
      reads this
    {
      |block| == LOGSIZE && n <= LOGSIZE && forall b :: b in held ==> !InLog(layout, b) && b !in block[..n]
    }

    // initlog, before recovery: the machine has just been switched on.
    constructor (c: Cache, L: Layout)
      requires c.Valid() && c.changed == {} && c.Contents() == c.disk && DirtyBlocks(c.bufs) == {}
      requires DiskOk(L, c.disk)
      ensures Valid() && cache == c && layout == L && st.phase == Booting
    {
      cache, layout := c, L;
      n, block := 0, seq(LOGSIZE, _ => 0);
      outstanding, committing := 0, false;
      st := State(c.disk, c.disk, [], [], Booting);
      run := [State(c.disk, c.disk, [], [], Booting)];
    }

    ghost method Take(s: State)
      requires Reaches(layout, run + [s], s)
      modifies this`st, this`run
      ensures st == s && Reaches(layout, run, st)
    {
      run := run + [s];
      st := s;
    }

    // begin_op, one turn of its loop; not admitted means the caller sleeps.
    method BeginOp() returns (admitted: bool, ghost o: nat)
      requires Valid() && (st.phase.Running? || committing)
      modifies this`outstanding, this`st, this`run
      ensures Valid()
      ensures admitted <==> !old(committing) && old(n + Reserved(outstanding + 1)) <= LOGSIZE
      ensures admitted ==> ActiveOp(st, o) && o == |old(st).ops| && LogProtocol.BeginOp(old(st), st)
      ensures !admitted ==> st == old(st) && run == old(run)
    {
      if committing {
        return false, 0;
      } else if n + Reserved(outstanding + 1) > LOGSIZE {
        return false, 0;
      }
      o := Admit();
      return true, o;
    }

    method Admit() returns (ghost o: nat)
      requires Valid() && st.phase.Running? && n + Reserved(outstanding + 1) <= LOGSIZE
      modifies this`outstanding, this`st, this`run
      ensures Valid() && ActiveOp(st, o) && o == |old(st).ops| && LogProtocol.BeginOp(old(st), st)
    {
      outstanding := outstanding + 1;
      o := |st.ops|;
      BeginOpStep(layout, run, st);
      Take(st.(ops := st.ops + [Active({}, {}, None)]));
    }

    // A system call changes the data of a buffer it holds.
    method ModifyBuffer(b: nat, data: Block, ghost o: nat)
      requires Valid() && Idle(st, o)
      requires b < |cache.bufs| && cache.bufs[b].locked && cache.bufs[b].valid
      requires !InLog(layout, cache.bufs[b].blockno)
      modifies this`st, this`run, cache
      ensures Valid() && LogProtocol.Modify(layout, old(st), st, o, old(cache.bufs[b].blockno), data)
      ensures cache.bufs == old(cache.bufs)[b := old(cache.bufs)[b].(data := data)]
    {
      ghost var c := cache.bufs[b].blockno;
      ActiveMeansRunning(layout, run, st, o);
      cache.Modify(b, data);
      ModifyStep(layout, run, st, o, c, data);
      Take(ModifiedBy(st, o, c, data));
    }

    // The space test of log_write, made without the lock; a panic if it fails.
    method TestSpace(b: nat, ghost o: nat) returns (panics: bool)
      requires Valid() && Idle(st, o) && b < |cache.bufs| && cache.bufs[b].locked && cache.bufs[b].valid
      requires !InLog(layout, cache.bufs[b].blockno)
      modifies this`st, this`run
      ensures Valid() && (panics <==> WouldPanic(layout, old(st)))
      ensures panics ==> st == old(st) && run == old(run)
      ensures !panics ==> LogProtocol.TestSpace(layout, old(st), st, o, cache.bufs[b].blockno)
    {
      panics := n >= LOGSIZE || n >= layout.size - 1;
      if !panics {
        ActiveMeansRunning(layout, run, st, o);
        TestSpaceStep(layout, run, st, o, cache.bufs[b].blockno);
        Take(Tested(st, o, cache.bufs[b].blockno));
      }
    }

    // The header update of log_write.  Without room the store would go past the end of the array.
    method RecordBlock(c: nat)
      requires |block| == LOGSIZE && n <= LOGSIZE && (n < LOGSIZE || c in block[..n])
      modifies this`n, this`block
      ensures |block| == LOGSIZE && n <= LOGSIZE && block[..n] == Absorb(old(block[..n]), c)
    {
      var i := 0;
      while i < n
        invariant i <= n
        invariant forall j :: 0 <= j < i ==> block[j] != c
      {
        if block[i] == c { break; }
        i := i + 1;
      }
      block := block[i := c];
      if i == n {
        n := n + 1;
      }
    }

    // log_write from acquire on, whatever has happened since the test: record the block in the
    // header unless it is there, and pin it.
    method Record(b: nat, ghost o: nat)
      requires Valid() && ActiveOp(st, o) && b < |cache.bufs| && cache.bufs[b].locked && cache.bufs[b].valid
      requires st.ops[o].call == Some(cache.bufs[b].blockno)
      requires cache.bufs[b].blockno in st.lh || !WouldPanic(layout, st)
      modifies this`n, this`block, this`st, this`run, cache
      ensures Valid() && LogProtocol.Record(layout, old(st), st, o, old(cache.bufs[b].blockno))
      ensures cache.bufs == old(cache.bufs)[b := old(cache.bufs)[b].(dirty := true)]
    {
      var c := cache.bufs[b].blockno;
      RecordStep(layout, run, st, o, c);
      RecordBlock(c);
      cache.Pin(b);
      Take(Recorded(st, o, c));
    }

    // log_write when nothing comes between its two parts.
    method LogWrite(b: nat, ghost o: nat) returns (panics: bool)
      requires Valid() && Idle(st, o)
      requires b < |cache.bufs| && cache.bufs[b].locked && cache.bufs[b].valid
      requires !InLog(layout, cache.bufs[b].blockno)
      modifies this`n, this`block, this`st, this`run, cache
      ensures Valid() && (panics <==> WouldPanic(layout, old(st)))
      ensures panics ==> st == old(st) && cache.bufs == old(cache.bufs)
      ensures !panics ==> st == Recorded(old(st), o, old(cache.bufs[b].blockno))
      ensures !panics ==> cache.bufs == old(cache.bufs)[b := old(cache.bufs)[b].(dirty := true)]
    {
      panics := TestSpace(b, o);
      if !panics {
        Record(b, o);
      }
    }

    // write_log: copy the logged blocks from the cache to the log.
    method WriteLog(ghost held: set<nat>) returns (ok: bool)
      requires Valid() && Quiet(cache, held) && Spared(held) && st.phase == Copying(0)
      modifies this`st, this`run, cache
      ensures Traced() && SameHeld(old(cache.bufs), cache.bufs, held)
      ensures ok ==> Valid() && Quiet(cache, held) && st.phase == Copying(n) && st.ops == old(st.ops)
      ensures ok ==> HomeBlocks(layout, st.view) == HomeBlocks(layout, old(st.view))
      ensures ok <==> Ready(old(cache.bufs), layout.start + 1, layout.start + 1 + n)
      ensures ok ==> Keeps(old(cache.bufs), cache.bufs)
    {
      ok := true;
      var tail := 0;
      while tail < n
        invariant tail <= n && st.phase == Copying(tail) && st.ops == old(st.ops)
        invariant Keeps(old(cache.bufs), cache.bufs) && Ready(old(cache.bufs), layout.start + 1, layout.start + 1 + tail)
        invariant SameHeld(old(cache.bufs), cache.bufs, held)
        invariant Valid() && Quiet(cache, held)
        invariant HomeBlocks(layout, st.view) == HomeBlocks(layout, old(st.view))
      {
        CopyStep(layout, run, st);
        assert layout.start + tail + 1 == LogBlock(layout, tail) && block[..n][tail] == block[tail];
        assert block[tail] in block[..n];
        ReadyNext(old(cache.bufs), cache.bufs, layout.start + 1, layout.start + tail + 1, layout.start + 1 + (tail + 1));
        ghost var b1 := cache.bufs;
        ok := CopyThrough(cache, block[tail], layout.start + tail + 1, true, held);
        if !ok {
          NotReady(old(cache.bufs), layout.start + 1, layout.start + 1 + (tail + 1), layout.start + 1 + n);
          return;
        }
        KeepsTwice(old(cache.bufs), b1, cache.bufs);
        Take(CopyNext(layout, st));
        tail := tail + 1;
      }
    }

    // write_head: write the in-memory header over the header block.
    method WriteHead(ghost held: set<nat>) returns (ok: bool)
      requires cache.Valid() && Quiet(cache, held) && |block| == LOGSIZE && n <= LOGSIZE && layout.start in cache.disk
      requires layout.start !in held
      modifies cache
      ensures SameHeld(old(cache.bufs), cache.bufs, held)
      ensures !ok ==> cache.disk == old(cache.disk)
      ensures ok ==> cache.Valid() && Quiet(cache, held)
      ensures ok ==> var h := EncodeHeader(old(cache.Contents())[layout.start], block[..n]);
                && cache.disk == old(cache.disk)[layout.start := h]
                && cache.Contents() == old(cache.Contents())[layout.start := h]
                && DirtyBlocks(cache.bufs) == old(DirtyBlocks(cache.bufs)) - {layout.start}
      ensures ok <==> Room(old(cache.bufs), layout.start)
      ensures ok && layout.start !in old(DirtyBlocks(cache.bufs)) ==> Keeps(old(cache.bufs), cache.bufs)
    {
      var b;
      ok, b := cache.Bread(layout.start);
      if !ok { return; }
      ghost var b1 := cache.bufs;
      var hb := HeaderImage(cache.bufs[b].data);
      ChangeAndWrite(cache, b, hb, held);
      if layout.start !in old(DirtyBlocks(cache.bufs)) {
        FetchKeeps(old(cache.bufs), b1, cache.bufs, layout.start, b);
      }
    }

    // The stores of write_head into the buffer.
    method HeaderImage(stale: Block) returns (hb: Block)
      requires |block| == LOGSIZE && n <= LOGSIZE
      ensures hb == EncodeHeader(stale, block[..n])
    {
      hb := stale[0 := n];
      for i := 0 to n
        invariant hb == EncodeHeader(stale[0 := n], block[..i])[0 := n]
      {
        hb := hb[1 + i := block[i]];
      }
    }

    // install_trans: copy committed blocks from the log to their home locations.
    method InstallTrans(ghost held: set<nat>) returns (ok: bool)
      requires Valid() && Quiet(cache, held) && Spared(held) && (st.phase == Installing(0) || st.phase == Recovering(0))
      modifies this`st, this`run, cache
      ensures Traced() && SameHeld(old(cache.bufs), cache.bufs, held)
      ensures ok ==> Valid() && Quiet(cache, held) && DiskOk(layout, st.disk) && DiskOk(layout, old(st.disk))
      ensures ok ==> st.phase == (if old(st.phase).Installing? then Installing(n) else Recovering(n)) && st.ops == old(st.ops)
      ensures ok ==> Committed(layout, st.disk) == Committed(layout, old(st.disk))
      ensures ok && old(st.phase).Installing? ==> HomeBlocks(layout, st.view) == HomeBlocks(layout, old(st.view))
      ensures old(st.phase).Installing? && Ready(old(cache.bufs), layout.start, layout.start + 1 + n) ==>
                ok && Ready(cache.bufs, layout.start, layout.start + 1 + n)
      ensures |cache.bufs| == |old(cache.bufs)|
      ensures old(AllFree(cache.bufs)) ==> (ok <==> n == 0 || |cache.bufs| >= 2) && (ok ==> AllFree(cache.bufs))
    {
      ok := true;
      var tail := 0;
      DiskStaysOk(layout, run, st);
      while tail < n
        invariant tail <= n && st.phase == if old(st.phase).Installing? then Installing(tail) else Recovering(tail)
        invariant st.ops == old(st.ops)
        invariant SameHeld(old(cache.bufs), cache.bufs, held)
        invariant Valid() && Quiet(cache, held) && DiskOk(layout, st.disk) && DiskOk(layout, old(st.disk))
        invariant Committed(layout, st.disk) == Committed(layout, old(st.disk))
        invariant old(st.phase).Installing? ==> HomeBlocks(layout, st.view) == HomeBlocks(layout, old(st.view))
        invariant old(st.phase).Installing? && Ready(old(cache.bufs), layout.start, layout.start + 1 + n) ==>
                    Ready(cache.bufs, layout.start, layout.start + 1 + n)
        invariant |cache.bufs| == |old(cache.bufs)|
        invariant old(AllFree(cache.bufs)) ==> AllFree(cache.bufs) && (tail > 0 ==> |cache.bufs| >= 2)
      {
        ok := InstallOne(tail, held);
        if !ok { return; }
        tail := tail + 1;
      }
    }

    method InstallOne(tail: nat, ghost held: set<nat>) returns (ok: bool)
      requires Valid() && Quiet(cache, held) && Spared(held) && tail < n && (st.phase == Installing(tail) || st.phase == Recovering(tail))
      modifies this`st, this`run, cache
      ensures Traced() && SameHeld(old(cache.bufs), cache.bufs, held)
      ensures ok ==> Valid() && Quiet(cache, held) && DiskOk(layout, st.disk) && DiskOk(layout, old(st.disk))
      ensures ok ==> st.phase == Bump(old(st.phase)) && st.ops == old(st.ops)
      ensures ok ==> Committed(layout, st.disk) == Committed(layout, old(st.disk))
      ensures ok && old(st.phase).Installing? ==> HomeBlocks(layout, st.view) == HomeBlocks(layout, old(st.view))
      ensures old(st.phase).Installing? && Ready(old(cache.bufs), layout.start, layout.start + 1 + n) ==>
                ok && Ready(cache.bufs, layout.start, layout.start + 1 + n)
      ensures old(AllFree(cache.bufs)) ==> (ok <==> |cache.bufs| >= 2) && (ok ==> AllFree(cache.bufs))
    {
      InstallStep(layout, run, st);
      assert layout.start + tail + 1 == LogBlock(layout, tail) && block[..n][tail] == block[tail];
      assert st.phase.Installing? ==> st.lh[tail..][0] == block[tail];
      ok := InstallCopy(cache, layout.start + tail + 1, block[tail], held, layout.start, layout.start + 1 + n, st.phase.Installing?);
      if !ok { return; }
      Take(InstallNext(layout, st));
    }

    // The header write that commits.
    method CommitPoint(ghost held: set<nat>) returns (ok: bool)
      requires Valid() && Quiet(cache, held) && Spared(held) && st.phase == Copying(n) && n > 0
      modifies this`st, this`run, cache
      ensures Traced() && SameHeld(old(cache.bufs), cache.bufs, held)
      ensures ok ==> Valid() && Quiet(cache, held) && st.phase == Installing(0) && DiskOk(layout, st.disk)
      ensures ok ==> st.ops == old(st.ops)
      ensures ok ==> HomeBlocks(layout, st.view) == HomeBlocks(layout, old(st.view))
      ensures ok ==> Committed(layout, st.disk) == HomeBlocks(layout, old(st.view))
      ensures ok <==> Room(old(cache.bufs), layout.start)
      ensures ok ==> Keeps(old(cache.bufs), cache.bufs)
    {
      CommitStep(layout, run, st);
      ok := WriteHead(held);
      if !ok { return; }
      Take(CommitNext(layout, st));
    }

    // The header write that erases the transaction, after log.lh.n = 0.
    method EraseLog(ghost held: set<nat>) returns (ok: bool)
      requires Valid() && Quiet(cache, held) && Spared(held) && (st.phase == Installing(n) || st.phase == Recovering(n))
      modifies this`n, this`st, this`run, cache
      ensures Traced() && SameHeld(old(cache.bufs), cache.bufs, held)
      ensures ok ==> Valid() && Quiet(cache, held) && n == 0 && DiskOk(layout, old(st.disk))
      ensures ok ==> st.phase == (if old(st.phase).Installing? then Cleared else Running) && st.ops == old(st.ops)
      ensures ok ==> HomeBlocks(layout, st.disk) == Committed(layout, old(st.disk)) && st.view == st.disk
      ensures ok <==> Room(old(cache.bufs), layout.start)
    {
      EraseStep(layout, run, st);
      n := 0;
      ok := WriteHead(held);
      if !ok { return; }
      assert block[..0] == [];
      Take(EraseNext(layout, st));
    }

    // commit: what the clients saw when it began is on disk when it ends.
    method Commit(ghost held: set<nat>) returns (ok: bool)
      requires Valid() && Quiet(cache, held) && Spared(held) && st.phase == Copying(0)
      modifies this`n, this`st, this`run, cache
      ensures Traced() && SameHeld(old(cache.bufs), cache.bufs, held)
      ensures ok ==> Valid() && Quiet(cache, held) && st.phase == Cleared && n == 0 && st.ops == old(st.ops)
      ensures ok ==> HomeBlocks(layout, cache.disk) == old(HomeBlocks(layout, cache.Contents()))
      ensures ok <==> old(n) == 0 || Ready(old(cache.bufs), layout.start, layout.start + 1 + old(n))
    {
      if n > 0 {
        ok := WriteLog(held);
        if !ok { return; }
        CommitRoom(old(cache.bufs), cache.bufs, layout.start, layout.start + 1 + n);
        ghost var b1 := cache.bufs;
        ok := CommitPoint(held);
        if !ok { return; }
        KeepsTwice(old(cache.bufs), b1, cache.bufs);
        StillReady(old(cache.bufs), cache.bufs, layout.start, layout.start + 1 + n);
        ok := InstallTrans(held);
        if !ok { return; }
        ok := EraseLog(held);
      } else {
        assert block[..n] == [];
        EmptyStep(layout, run, st);
        Take(st.(phase := Cleared));
        ok := true;
      }
    }

    // end_op: the last outstanding operation commits the group.  The panic on
    // log.committing is unreachable (ReservationSound).
    method EndOp(ghost o: nat, ghost held: set<nat>) returns (ok: bool)
      requires Valid() && Idle(st, o) && st.ops[o].touched == {}
      requires outstanding == 1 ==> Quiet(cache, held) && Spared(held)
      modifies this, cache
      ensures Traced() && SameHeld(old(cache.bufs), cache.bufs, held)
      ensures ok ==> Valid() && st.phase == Running && st.ops == old(st.ops)[o := Done]
      ensures old(outstanding) > 1 ==> ok && cache.disk == old(cache.disk) && block[..n] == old(block[..n])
      ensures ok && old(outstanding) == 1 ==>
                n == 0 && HomeBlocks(layout, cache.disk) == old(HomeBlocks(layout, cache.Contents()))
      ensures old(outstanding) == 1 ==> (ok <==> old(n) == 0 || Ready(old(cache.bufs), layout.start, layout.start + 1 + old(n)))
    {
      ok := true;
      EndOpStep(layout, run, st, o);
      outstanding := outstanding - 1;
      Take(st.(ops := st.ops[o := Done], phase := if outstanding == 0 then Copying(0) else Running));
      var doCommit := false;
      if outstanding == 0 {
        doCommit := true;
        committing := true;
      }
      if doCommit {
        ok := Commit(held);
        if !ok { return; }
        committing := false;
        Extend(layout, run, st, st.(phase := Running));
        Take(st.(phase := Running));
      }
    }

    // read_head: load the header from disk.
    method ReadHead() returns (ok: bool)
      requires Valid() && Quiet(cache, {}) && st.phase == Booting
      modifies this`n, this`block, this`st, this`run, cache
      ensures Traced()
      ensures ok ==> Valid() && Quiet(cache, {}) && st.phase == Recovering(0) && st.disk == old(st.disk)
      ensures DiskOk(layout, old(cache.disk)) && (ok ==> n == |Header(layout, old(cache.disk))|)
      ensures |cache.bufs| == |old(cache.bufs)| && (ok <==> Room(old(cache.bufs), layout.start))
      ensures ok && old(AllFree(cache.bufs)) ==> AllFree(cache.bufs)
    {
      BootStep(layout, run, st);
      var hb;
      ok, hb := FetchBlock(cache, layout.start, {});
      if !ok { return; }
      LoadHeader(hb);
      assert block[..n] == Header(layout, st.disk);
      Take(st.(lh := Header(layout, st.disk), phase := Recovering(0)));
    }

    method LoadHeader(hb: Block)
      requires |block| == LOGSIZE && 0 <= Count(hb) <= LOGSIZE
      requires forall i: nat :: i < Count(hb) ==> 0 <= Entry(hb, i)
      modifies this`n, this`block
      ensures |block| == LOGSIZE && n == Count(hb)
      ensures forall i :: 0 <= i < n ==> block[i] == Entry(hb, i)
    {
      n := hb[0];
      for i := 0 to n
        invariant |block| == LOGSIZE && n == Count(hb)
        invariant forall j :: 0 <= j < i ==> block[j] == Entry(hb, j)
      {
        assert 0 <= Entry(hb, i);
        block := block[i := hb[1 + i]];
      }
    }

    // recover_from_log: leaves exactly the committed state, with an empty header.
    method RecoverFromLog() returns (ok: bool)
      requires Valid() && Quiet(cache, {}) && st.phase == Booting
      modifies this`n, this`block, this`st, this`run, cache
      ensures Traced()
      ensures ok ==> Valid() && Quiet(cache, {}) && st.phase == Running && n == 0 && DiskOk(layout, old(cache.disk))
      ensures ok ==> HomeBlocks(layout, cache.disk) == Committed(layout, old(cache.disk))
      ensures ok ==> cache.Contents() == cache.disk
      ensures DiskOk(layout, old(cache.disk))
      ensures old(AllFree(cache.bufs)) ==>
                (ok <==> |cache.bufs| >= if Header(layout, old(cache.disk)) == [] then 1 else 2)
    {
      if AllFree(cache.bufs) {
        AllFreeRoom(cache.bufs, layout.start);
      }
      ok := ReadHead();
      if !ok { return; }
      ok := InstallTrans({});
      if !ok { return; }
      if AllFree(cache.bufs) {
        AllFreeRoom(cache.bufs, layout.start);
      }
      ok := EraseLog({});
    }
  }

  ghost function Pinned(phase: Phase, lh: seq<nat>): set<nat> {
    match phase
    case Installing(t) => ToSet(if t <= |lh| then lh[t..] else [])
    case Booting => {}
    case Recovering(_) => {}
    case _ => ToSet(lh)
  }
}
