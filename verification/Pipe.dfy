/**
 Pipes: the ring buffer with its 32-bit counters, and readers and writers that sleep on it.
 */
module Pipe {

  import opened Kernel

  const PIPESIZE := 512

  type Byte = b: int | 0 <= b < 256

  // --- the ring ------------------------------------------------------------------------------

  // data, nread and nwrite of struct pipe.
  datatype Ring = Ring(data: seq<Byte>, nread: nat, nwrite: nat)

  predicate IsFull(r: Ring) {
    r.nwrite == (r.nread + PIPESIZE) % UINT
  }

  predicate IsEmpty(r: Ring) {
    r.nread == r.nwrite
  }

  function Put(r: Ring, b: Byte): Ring
    requires |r.data| == PIPESIZE
  {
    r.(data := r.data[r.nwrite % PIPESIZE := b], nwrite := (r.nwrite + 1) % UINT)
  }

  function Advance(r: Ring): Ring {
    r.(nread := (r.nread + 1) % UINT)
  }

  // What the loop of pipewrite does from byte next on, until the ring is full or all bytes are in.
  function Fill(r: Ring, addr: seq<Byte>, next: nat): (Ring, nat)
    requires |r.data| == PIPESIZE && next <= |addr|
    decreases |addr| - next
  {
    if next == |addr| || IsFull(r) then (r, next) else Fill(Put(r, addr[next]), addr, next + 1)
  }

  // What the copying loop of piperead does: at most n bytes, fewer if the ring runs empty.
  function Drain(r: Ring, n: nat): (Ring, seq<Byte>)
    requires |r.data| == PIPESIZE
    decreases n
  {
    if n == 0 || IsEmpty(r) then (r, [])
    else
      var (r', rest) := Drain(Advance(r), n - 1);
      (r', [r.data[r.nread % PIPESIZE]] + rest)
  }

  // --- arithmetic of the counters --------------------------------------------------------------

  // The counters are equal exactly if nothing is buffered, also after they have wrapped around.
  lemma EmptyTest(read: nat, written: nat)
    requires read <= written <= read + PIPESIZE
    ensures read % UINT == written % UINT <==> read == written
  {
  }

  lemma FullTest(read: nat, written: nat)
    requires read <= written <= read + PIPESIZE
    ensures written % UINT == (read % UINT + PIPESIZE) % UINT <==> written == read + PIPESIZE
  {
  }

  lemma Wraps(n: nat, k: nat)
    ensures (n % UINT + k) % UINT == (n + k) % UINT
  {
  }

  // Counters are reduced modulo 2^32 and slots modulo PIPESIZE, which divides it.
  lemma SlotOfCounter(n: nat)
    ensures n % UINT % PIPESIZE == n % PIPESIZE
  {
  }

  // Fewer than PIPESIZE apart, two positions have different slots.
  lemma SlotsApart(i: nat, j: nat)
    requires i < j < i + PIPESIZE
    ensures i % PIPESIZE != j % PIPESIZE
  {
  }

  // --- what the ring holds ------------------------------------------------------------------------

  // The ring holds the bytes of `sent` from number `got` on, whatever the counters have wrapped to.
  ghost predicate Buffers(r: Ring, sent: seq<Byte>, got: nat) {
    && |r.data| == PIPESIZE && got <= |sent| <= got + PIPESIZE
    && r.nread == got % UINT && r.nwrite == |sent| % UINT
    && forall k :: got <= k < |sent| ==> r.data[k % PIPESIZE] == sent[k]
  }

  lemma FullExactly(r: Ring, sent: seq<Byte>, got: nat)
    requires Buffers(r, sent, got)
    ensures IsFull(r) <==> |sent| == got + PIPESIZE
    ensures IsEmpty(r) <==> |sent| == got
  {
    FullTest(got, |sent|);
    EmptyTest(got, |sent|);
  }

  lemma PutOk(r: Ring, sent: seq<Byte>, got: nat, b: Byte)
    requires Buffers(r, sent, got) && !IsFull(r)
    ensures Buffers(Put(r, b), sent + [b], got)
  {
    var n := |sent|;
    FullExactly(r, sent, got);
    SlotOfCounter(n);
    Wraps(n, 1);
    forall k | got <= k < n ensures k % PIPESIZE != n % PIPESIZE {
      SlotsApart(k, n);
    }
  }

  lemma AdvanceOk(r: Ring, sent: seq<Byte>, got: nat)
    requires Buffers(r, sent, got) && !IsEmpty(r)
    ensures got < |sent| && r.data[r.nread % PIPESIZE] == sent[got]
    ensures Buffers(Advance(r), sent, got + 1)
  {
    FullExactly(r, sent, got);
    SlotOfCounter(got);
    Wraps(got, 1);
  }

  // Filling appends the bytes in order and stops early only at a full ring.
  lemma {:induction false} FillOk(r: Ring, sent: seq<Byte>, got: nat, addr: seq<Byte>, next: nat)
    requires Buffers(r, sent, got) && next <= |addr|
    ensures var (r', stop) := Fill(r, addr, next);
            && next <= stop <= |addr| && Buffers(r', sent + addr[next..stop], got)
            && (stop < |addr| ==> IsFull(r') && |sent| + stop - next == got + PIPESIZE)
    decreases |addr| - next
  {
    FullExactly(r, sent, got);
    if next == |addr| || IsFull(r) {
      assert sent + addr[next..next] == sent;
    } else {
      PutOk(r, sent, got, addr[next]);
      FillOk(Put(r, addr[next]), sent + [addr[next]], got, addr, next + 1);
      var stop := Fill(r, addr, next).1;
      assert sent + [addr[next]] + addr[next + 1..stop] == sent + addr[next..stop];
    }
  }

  // Draining delivers the oldest bytes in order, fewer than asked only if the ring is then empty.
  lemma {:induction false} DrainOk(r: Ring, sent: seq<Byte>, got: nat, n: nat)
    requires Buffers(r, sent, got)
    ensures var (r', bytes) := Drain(r, n);
            && got + |bytes| <= |sent| && bytes == sent[got..got + |bytes|] && Buffers(r', sent, got + |bytes|)
            && |bytes| <= n && (|bytes| < n ==> IsEmpty(r'))
    decreases n
  {
    if n > 0 && !IsEmpty(r) {
      AdvanceOk(r, sent, got);
      var next := Advance(r);
      DrainOk(next, sent, got + 1, n - 1);
      var rest := Drain(next, n - 1).1;
      assert [sent[got]] + sent[got + 1..got + 1 + |rest|] == sent[got..got + 1 + |rest|];
    }
  }

  // --- the loops ------------------------------------------------------------------------------------

  class PipeBuffer {
    var data: array<Byte>
    var nread: nat
    var nwrite: nat

    ghost function Contents(): Ring
      reads this, data
    {
      Ring(data[..], nread, nwrite)
    }

    // pipealloc
    constructor ()
      ensures fresh(data) && data.Length == PIPESIZE && Buffers(Contents(), [], 0)
    {
      data := new Byte[PIPESIZE](_ => 0);
      nread, nwrite := 0, 0;
    }

    // The loop of pipewrite from byte i on.
    method Write(addr: seq<Byte>, i: nat) returns (next: nat)
      requires data.Length == PIPESIZE && i <= |addr|
      modifies this`nwrite, data
      ensures (Contents(), next) == Fill(old(Contents()), addr, i)
    {
      next := i;
      while next < |addr| && nwrite != (nread + PIPESIZE) % UINT
        invariant i <= next <= |addr|
        invariant Fill(Contents(), addr, next) == Fill(old(Contents()), addr, i)
      {
        ghost var r := Contents();
        data[nwrite % PIPESIZE] := addr[next];
        nwrite := (nwrite + 1) % UINT;
        assert Contents() == Put(r, addr[next]);
        next := next + 1;
      }
    }

    // The copying loop of piperead.
    method Read(n: nat) returns (bytes: seq<Byte>)
      requires data.Length == PIPESIZE
      modifies this`nread
      ensures (Contents(), bytes) == Drain(old(Contents()), n)
    {
      bytes := [];
      ghost var all := Drain(Contents(), n);
      assert [] + all.1 == all.1;
      while |bytes| < n && nread != nwrite
        invariant |bytes| <= n
        invariant var (r, rest) := Drain(Contents(), n - |bytes|); all == (r, bytes + rest)
      {
        ghost var rest := Drain(Contents(), n - |bytes|).1;
        var b := data[nread % PIPESIZE];
        nread := (nread + 1) % UINT;
        assert bytes + rest == bytes + [b] + rest[1..];
        bytes := bytes + [b];
      }
      assert bytes + [] == bytes;
    }
  }

  // --- readers and writers ---------------------------------------------------------------------

  // Where a process is: outside the pipe code, at the top of a waiting loop, or asleep in it.
  datatype PC =
    | Out
    | Writing(addr: seq<Byte>, next: nat, blocked: bool)
    | Reading(n: nat, asleep: bool)

  // `readers` and `writers` are the processes with the read and the write end open; `sent` and
  // `delivered` are the bytes stored by writers and handed to readers so far, `senders` and `takers` say by
  // and to whom.  Everything between acquire and release of p->lock is one step.
  datatype Machine = Machine(ring: Ring, readopen: bool, writeopen: bool, readers: set<nat>, writers: set<nat>,
                             killed: set<nat>, pcs: seq<PC>,
                             sent: seq<Byte>, senders: seq<nat>, delivered: seq<Byte>, takers: seq<nat>)

  function Repeat(p: nat, n: nat): (r: seq<nat>)
    ensures |r| == n && forall i :: 0 <= i < n ==> r[i] == p
  {
    seq(n, _ => p)
  }

  function WakeReader(pc: PC): PC {
    if pc.Reading? then pc.(asleep := false) else pc
  }

  function WakeWriter(pc: PC): PC {
    if pc.Writing? then pc.(blocked := false) else pc
  }

  // wakeup(&p->nread)
  function WakeReaders(pcs: seq<PC>): (r: seq<PC>)
    ensures |r| == |pcs| && forall p :: 0 <= p < |r| ==> r[p] == WakeReader(pcs[p])
  {
    seq(|pcs|, p requires 0 <= p < |pcs| => WakeReader(pcs[p]))
  }

  // wakeup(&p->nwrite)
  function WakeWriters(pcs: seq<PC>): (r: seq<PC>)
    ensures |r| == |pcs| && forall p :: 0 <= p < |r| ==> r[p] == WakeWriter(pcs[p])
  {
    seq(|pcs|, p requires 0 <= p < |pcs| => WakeWriter(pcs[p]))
  }

  ghost predicate CallWrite(m: Machine, m': Machine, p: nat, addr: seq<Byte>) {
    && p < |m.pcs| && m.pcs[p].Out? && p in m.writers
    && m' == m.(pcs := m.pcs[p := Writing(addr, 0, false)])
  }

  ghost predicate CallRead(m: Machine, m': Machine, p: nat, n: nat) {
    && p < |m.pcs| && m.pcs[p].Out? && p in m.readers
    && m' == m.(pcs := m.pcs[p := Reading(n, false)])
  }

  ghost predicate AtWrite(m: Machine, p: nat) {
    && |m.ring.data| == PIPESIZE && p < |m.pcs|
    && m.pcs[p].Writing? && !m.pcs[p].blocked && m.pcs[p].next <= |m.pcs[p].addr|
  }

  // Where the write section of p stops.
  ghost function Stop(m: Machine, p: nat): nat
    requires AtWrite(m, p)
  {
    Fill(m.ring, m.pcs[p].addr, m.pcs[p].next).1
  }

  // A section of pipewrite: all bytes are in, or the ring is full and the writer gives up or sleeps.
  ghost predicate WriteSection(m: Machine, m': Machine, p: nat) {
    && AtWrite(m, p)
    && var addr, next := m.pcs[p].addr, m.pcs[p].next;
       var (ring, stop) := Fill(m.ring, addr, next);
       && next <= stop <= |addr|
       && var filled := m.(ring := ring, sent := m.sent + addr[next..stop], senders := m.senders + Repeat(p, stop - next));
          if stop == |addr| then m' == filled.(pcs := WakeReaders(m.pcs)[p := Out])
          else if !m.readopen || p in m.killed then m' == filled.(pcs := m.pcs[p := Out])
          else m' == filled.(pcs := WakeReaders(m.pcs)[p := Writing(addr, stop, true)])
  }

  // A section of piperead.
  ghost predicate ReadSection(m: Machine, m': Machine, p: nat) {
    && |m.ring.data| == PIPESIZE && p < |m.pcs| && m.pcs[p].Reading? && !m.pcs[p].asleep
    && var n := m.pcs[p].n;
       if IsEmpty(m.ring) && m.writeopen then
         m' == m.(pcs := m.pcs[p := if p in m.killed then Out else Reading(n, true)])
       else
         var (ring, bytes) := Drain(m.ring, n);
         m' == m.(ring := ring, delivered := m.delivered + bytes, takers := m.takers + Repeat(p, |bytes|),
                  pcs := WakeWriters(m.pcs)[p := Out])
  }

  // close by p; the last one to close an end calls pipeclose.
  ghost predicate CloseRead(m: Machine, m': Machine, p: nat) {
    && p < |m.pcs| && m.pcs[p].Out? && p in m.readers
    && var left := m.readers - {p};
       if left == {} then m' == m.(readers := left, readopen := false, pcs := WakeWriters(m.pcs))
       else m' == m.(readers := left)
  }

  ghost predicate CloseWrite(m: Machine, m': Machine, p: nat) {
    && p < |m.pcs| && m.pcs[p].Out? && p in m.writers
    && var left := m.writers - {p};
       if left == {} then m' == m.(writers := left, writeopen := false, pcs := WakeReaders(m.pcs))
       else m' == m.(writers := left)
  }

  // fork or dup: q gets the ends p has.
  ghost predicate Share(m: Machine, m': Machine, p: nat, q: nat) {
    && q < |m.pcs|
    && m' == m.(readers := if p in m.readers then m.readers + {q} else m.readers,
                writers := if p in m.writers then m.writers + {q} else m.writers)
  }

  // kill wakes p if it sleeps; if it comes between the killed test and sleep, p sleeps all the same.
  ghost predicate Kill(m: Machine, m': Machine, p: nat) {
    && p < |m.pcs|
    && (|| m' == m.(killed := m.killed + {p}, pcs := m.pcs[p := WakeReader(WakeWriter(m.pcs[p]))])
        || m' == m.(killed := m.killed + {p}))
  }

  ghost predicate Next(m: Machine, m': Machine) {
    || (exists p, addr :: CallWrite(m, m', p, addr))
    || (exists p, n :: CallRead(m, m', p, n))
    || (exists p :: WriteSection(m, m', p))
    || (exists p :: ReadSection(m, m', p))
    || (exists p :: CloseRead(m, m', p))
    || (exists p :: CloseWrite(m, m', p))
    || (exists p, q :: Share(m, m', p, q))
    || (exists p :: Kill(m, m', p))
  }

  // --- what every step keeps -------------------------------------------------------------------

  ghost predicate EndOk(m: Machine, p: nat)
    requires p < |m.pcs|
  {
    && (m.pcs[p].Reading? ==> p in m.readers)
    && (m.pcs[p].Writing? ==> p in m.writers && m.pcs[p].next <= |m.pcs[p].addr|)
  }

  // What readers have been handed is what was sent first, and the ring holds the rest.
  ghost predicate Streams(m: Machine) {
    && m.delivered <= m.sent && Buffers(m.ring, m.sent, |m.delivered|)
    && |m.senders| == |m.sent| && |m.takers| == |m.delivered|
  }

  ghost predicate Inv(m: Machine) {
    && Streams(m)
    && (m.readopen <==> m.readers != {}) && (m.writeopen <==> m.writers != {})
    && (forall p :: 0 <= p < |m.pcs| ==> EndOk(m, p))
    && (forall p :: 0 <= p < |m.pcs| && m.pcs[p].Writing? && m.pcs[p].blocked ==> IsFull(m.ring) && m.readopen)
  }

  // A sleeping reader has nothing to read and somebody who may still write.
  ghost predicate ReadersOk(m: Machine) {
    forall p :: 0 <= p < |m.pcs| && m.pcs[p].Reading? && m.pcs[p].asleep ==> IsEmpty(m.ring) && m.writeopen
  }

  ghost predicate Start(m: Machine) {
    && m.sent == [] && m.senders == [] && m.delivered == [] && m.takers == [] && Buffers(m.ring, [], 0)
    && m.readopen && m.writeopen && m.killed == {}
    && m.readers != {} && m.writers != {} && forall p :: 0 <= p < |m.pcs| ==> m.pcs[p].Out?
  }

  // The write section of a killed process that fills the ring without finishing returns without
  // waking anybody, while a reader sleeps.
  ghost predicate SilentFill(m: Machine, p: nat) {
    && AtWrite(m, p) && p in m.killed && m.readopen
    && m.pcs[p].next < Stop(m, p) < |m.pcs[p].addr|
    && exists q :: 0 <= q < |m.pcs| && m.pcs[q].Reading? && m.pcs[q].asleep
  }

  lemma WriteStreams(m: Machine, m': Machine, p: nat)
    requires Streams(m) && WriteSection(m, m', p)
    ensures Streams(m') && m'.delivered == m.delivered
    ensures var stop := Stop(m, p);
            && |m'.sent| == |m.sent| + stop - m.pcs[p].next
            && (stop < |m.pcs[p].addr| ==> IsFull(m'.ring))
            && (stop == m.pcs[p].next ==> m'.ring == m.ring)
  {
    FillOk(m.ring, m.sent, |m.delivered|, m.pcs[p].addr, m.pcs[p].next);
  }

  lemma ReadStreams(m: Machine, m': Machine, p: nat)
    requires Streams(m) && ReadSection(m, m', p)
    ensures Streams(m')
  {
    DrainOk(m.ring, m.sent, |m.delivered|, m.pcs[p].n);
    var bytes := Drain(m.ring, m.pcs[p].n).1;
    assert m.sent[..|m.delivered|] + bytes == m.sent[..|m.delivered| + |bytes|];
  }

  // A write leaves a reader asleep in front of data exactly if it is a silent fill.
  lemma ReadersLeftExactly(m: Machine, m': Machine, p: nat)
    requires Inv(m) && ReadersOk(m) && WriteSection(m, m', p)
    ensures ReadersOk(m') <==> !SilentFill(m, p)
  {
    WriteStreams(m, m', p);
    FullExactly(m'.ring, m'.sent, |m'.delivered|);
    if SilentFill(m, p) {
      var q :| 0 <= q < |m.pcs| && m.pcs[q].Reading? && m.pcs[q].asleep;
      assert m'.pcs[q] == m.pcs[q];
    } else {
      forall q | 0 <= q < |m'.pcs| ensures !(m'.pcs[q].Reading? && m'.pcs[q].asleep) {
        assert EndOk(m, q);
      }
    }
  }

  lemma WriteSectionInv(m: Machine, m': Machine, p: nat)
    requires Inv(m) && WriteSection(m, m', p)
    ensures Inv(m')
  {
    WriteStreams(m, m', p);
    forall x | 0 <= x < |m'.pcs| ensures EndOk(m', x) {
      assert EndOk(m, x);
    }
    forall x | 0 <= x < |m'.pcs| && m'.pcs[x].Writing? && m'.pcs[x].blocked ensures IsFull(m'.ring) && m'.readopen {
      if x != p {
        FullFill(m.ring, m.pcs[p].addr, m.pcs[p].next);
      }
    }
  }

  // A full ring stays as it is.
  lemma FullFill(r: Ring, addr: seq<Byte>, next: nat)
    requires |r.data| == PIPESIZE && next <= |addr|
    ensures IsFull(r) ==> Fill(r, addr, next) == (r, next)
  {
  }

  lemma ReadSectionInv(m: Machine, m': Machine, p: nat)
    requires Inv(m) && ReadSection(m, m', p)
    ensures Inv(m') && (ReadersOk(m) ==> ReadersOk(m'))
  {
    ReadStreams(m, m', p);
    forall x | 0 <= x < |m'.pcs| ensures EndOk(m', x) {
      assert EndOk(m, x);
    }
    assert IsEmpty(m.ring) ==> Drain(m.ring, m.pcs[p].n) == (m.ring, []);
  }

  lemma CallWriteInv(m: Machine, m': Machine, p: nat, addr: seq<Byte>)
    requires Inv(m) && CallWrite(m, m', p, addr)
    ensures Inv(m') && (ReadersOk(m) ==> ReadersOk(m'))
  {
    forall x | 0 <= x < |m'.pcs| ensures EndOk(m', x) {
      assert EndOk(m, x);
    }
  }

  lemma CallReadInv(m: Machine, m': Machine, p: nat, n: nat)
    requires Inv(m) && CallRead(m, m', p, n)
    ensures Inv(m') && (ReadersOk(m) ==> ReadersOk(m'))
  {
    forall x | 0 <= x < |m'.pcs| ensures EndOk(m', x) {
      assert EndOk(m, x);
    }
  }

  lemma CloseReadInv(m: Machine, m': Machine, p: nat)
    requires Inv(m) && CloseRead(m, m', p)
    ensures Inv(m') && (ReadersOk(m) ==> ReadersOk(m'))
  {
    forall x | 0 <= x < |m'.pcs| ensures EndOk(m', x) {
      assert EndOk(m, x);
    }
  }

  lemma CloseWriteInv(m: Machine, m': Machine, p: nat)
    requires Inv(m) && CloseWrite(m, m', p)
    ensures Inv(m') && (ReadersOk(m) ==> ReadersOk(m'))
  {
    forall x | 0 <= x < |m'.pcs| ensures EndOk(m', x) {
      assert EndOk(m, x);
    }
  }

  lemma ShareInv(m: Machine, m': Machine, p: nat, q: nat)
    requires Inv(m) && Share(m, m', p, q)
    ensures Inv(m') && (ReadersOk(m) ==> ReadersOk(m'))
  {
    forall x | 0 <= x < |m'.pcs| ensures EndOk(m', x) {
      assert EndOk(m, x);
    }
  }

  lemma KillInv(m: Machine, m': Machine, p: nat)
    requires Inv(m) && Kill(m, m', p)
    ensures Inv(m') && (ReadersOk(m) ==> ReadersOk(m'))
  {
    forall x | 0 <= x < |m'.pcs| ensures EndOk(m', x) {
      assert EndOk(m, x);
    }
  }

  ghost predicate Silent(m: Machine, m': Machine) {
    exists p :: WriteSection(m, m', p) && SilentFill(m, p)
  }

  lemma NextInv(m: Machine, m': Machine)
    requires Inv(m) && Next(m, m')
    ensures Inv(m')
    ensures ReadersOk(m) ==> (ReadersOk(m') <==> !Silent(m, m'))
  {
    if p: nat :| WriteSection(m, m', p) {
      WriteSectionInv(m, m', p);
      if ReadersOk(m) {
        WritesReaders(m, m', p);
      }
    } else if p: nat, addr: seq<Byte> :| CallWrite(m, m', p, addr) {
      CallWriteInv(m, m', p, addr);
    } else if p: nat, n: nat :| CallRead(m, m', p, n) {
      CallReadInv(m, m', p, n);
    } else if p: nat :| ReadSection(m, m', p) {
      ReadSectionInv(m, m', p);
    } else if p: nat :| CloseRead(m, m', p) {
      CloseReadInv(m, m', p);
    } else if p: nat :| CloseWrite(m, m', p) {
      CloseWriteInv(m, m', p);
    } else if p: nat, q: nat :| Share(m, m', p, q) {
      ShareInv(m, m', p, q);
    } else {
      var p: nat :| Kill(m, m', p);
      KillInv(m, m', p);
    }
  }

  lemma WritesReaders(m: Machine, m': Machine, p: nat)
    requires Inv(m) && ReadersOk(m) && WriteSection(m, m', p)
    ensures ReadersOk(m') <==> !Silent(m, m')
  {
    ReadersLeftExactly(m, m', p);
    if q: nat :| WriteSection(m, m', q) && SilentFill(m, q) {
      ReadersLeftExactly(m, m', q);
    }
  }

  // --- runs -----------------------------------------------------------------------------------

  ghost predicate Run(run: seq<Machine>) {
    && |run| > 0 && Start(run[0])
    && forall i :: 0 <= i < |run| - 1 ==> Next(run[i], run[i + 1])
  }

  lemma {:induction false} RunInv(run: seq<Machine>, i: nat)
    requires Run(run) && i < |run|
    ensures Inv(run[i])
  {
    if i > 0 {
      RunInv(run, i - 1);
      NextInv(run[i - 1], run[i]);
    }
  }

  // Over any interleaving, kills included, and however often the counters wrap around: the bytes
  // handed to readers are the first of those written, in order, and at most PIPESIZE behind.
  lemma InOrder(run: seq<Machine>, i: nat)
    requires Run(run) && i < |run|
    ensures run[i].delivered <= run[i].sent && |run[i].sent| <= |run[i].delivered| + PIPESIZE
  {
    RunInv(run, i);
  }

  // Nothing sent or delivered is ever taken back.
  ghost predicate Later(m: Machine, m': Machine) {
    m.sent <= m'.sent && m.delivered <= m'.delivered
  }

  lemma OnlyGrows(run: seq<Machine>, i: nat, j: nat)
    requires Run(run) && i <= j < |run|
    ensures Later(run[i], run[j])
  {
    forall k | 0 <= k < |run| - 1 ensures Later(run[k], run[k + 1]) {
      assert Next(run[k], run[k + 1]);
    }
    LaterChain(run, i, j);
  }

  lemma {:induction false} LaterChain(run: seq<Machine>, i: nat, j: nat)
    requires i <= j < |run| && forall k :: 0 <= k < |run| - 1 ==> Later(run[k], run[k + 1])
    ensures Later(run[i], run[j])
    decreases j
  {
    if i < j {
      LaterChain(run, i, j - 1);
      assert Later(run[j - 1], run[j - 1 + 1]);
    }
  }

  // --- what a call does -----------------------------------------------------------------------

  // The bytes with tag p.
  function Own(bytes: seq<Byte>, tags: seq<nat>, p: nat): seq<Byte>
    requires |tags| == |bytes|
  {
    if bytes == [] then []
    else
      var n := |bytes| - 1;
      Own(bytes[..n], tags[..n], p) + (if tags[n] == p then [bytes[n]] else [])
  }

  lemma {:induction false} OwnAppend(bytes: seq<Byte>, tags: seq<nat>, more: seq<Byte>, q: nat, p: nat)
    requires |tags| == |bytes|
    ensures Own(bytes + more, tags + Repeat(q, |more|), p) == Own(bytes, tags, p) + (if p == q then more else [])
    decreases |more|
  {
    if more == [] {
      assert bytes + more == bytes && tags + Repeat(q, 0) == tags;
    } else {
      var n := |more| - 1;
      OwnAppend(bytes, tags, more[..n], q, p);
      var b, t := bytes + more, tags + Repeat(q, |more|);
      assert b[..|b| - 1] == bytes + more[..n] && t[..|b| - 1] == tags + Repeat(q, n);
      assert more[..n] + [more[n]] == more;
    }
  }

  // The bytes that process p has stored, and those it has been handed.
  ghost function StoredBy(m: Machine, p: nat): seq<Byte>
    requires |m.senders| == |m.sent|
  {
    Own(m.sent, m.senders, p)
  }

  ghost function HandedTo(m: Machine, p: nat): seq<Byte>
    requires |m.takers| == |m.delivered|
  {
    Own(m.delivered, m.takers, p)
  }

  // A step other than a section of p leaves the call p is in, and what p has stored and got, alone.
  lemma OthersStep(m: Machine, m': Machine, p: nat)
    requires Inv(m) && Inv(m') && Next(m, m') && p < |m.pcs| && !m.pcs[p].Out?
    requires !WriteSection(m, m', p) && !ReadSection(m, m', p)
    ensures |m'.pcs| == |m.pcs| && StoredBy(m', p) == StoredBy(m, p) && HandedTo(m', p) == HandedTo(m, p)
    ensures m.pcs[p].Writing? ==> m'.pcs[p].Writing? && m'.pcs[p].addr == m.pcs[p].addr && m'.pcs[p].next == m.pcs[p].next
    ensures m.pcs[p].Reading? ==> m'.pcs[p].Reading? && m'.pcs[p].n == m.pcs[p].n
  {
    if q: nat :| WriteSection(m, m', q) {
      OwnAppend(m.sent, m.senders, m.pcs[q].addr[m.pcs[q].next..Stop(m, q)], q, p);
    } else if q: nat :| ReadSection(m, m', q) {
      OwnAppend(m.delivered, m.takers, Drain(m.ring, m.pcs[q].n).1, q, p);
    } else {
      QuietStep(m, m', p);
    }
  }

  lemma QuietStep(m: Machine, m': Machine, p: nat)
    requires Next(m, m') && p < |m.pcs| && !m.pcs[p].Out?
    requires forall q: nat :: !WriteSection(m, m', q) && !ReadSection(m, m', q)
    ensures |m'.pcs| == |m.pcs| && m'.sent == m.sent && m'.senders == m.senders && m'.delivered == m.delivered && m'.takers == m.takers
    ensures m'.pcs[p] == m.pcs[p] || m'.pcs[p] == WakeReader(m.pcs[p]) || m'.pcs[p] == WakeWriter(m.pcs[p]) || m'.pcs[p] == WakeReader(WakeWriter(m.pcs[p]))
  {
  }

  // A section of p takes its write from m.pcs[p].next to Stop(m, p).
  lemma OwnWrite(m: Machine, m': Machine, p: nat, before: seq<Byte>)
    requires Inv(m) && Inv(m') && WriteSection(m, m', p) && StoredBy(m, p) == before + m.pcs[p].addr[..m.pcs[p].next]
    ensures Stop(m, p) <= |m.pcs[p].addr| && StoredBy(m', p) == before + m.pcs[p].addr[..Stop(m, p)]
    ensures m'.pcs[p] == Out || m'.pcs[p] == Writing(m.pcs[p].addr, Stop(m, p), true)
    ensures m'.pcs[p] == Out ==> Stop(m, p) == |m.pcs[p].addr| || p in m.killed || m.readers == {}
  {
    var addr, next, stop := m.pcs[p].addr, m.pcs[p].next, Stop(m, p);
    OwnAppend(m.sent, m.senders, addr[next..stop], p, p);
    assert before + addr[..next] + addr[next..stop] == before + addr[..stop];
  }

  // As long as a write of addr by p goes on, p has stored what it should have by then.
  lemma {:induction false} WriteProgress(run: seq<Machine>, i: nat, k: nat, p: nat, addr: seq<Byte>)
    requires Run(run) && i < k < |run| && CallWrite(run[i], run[i + 1], p, addr)
    requires forall t :: i < t <= k ==> p < |run[t].pcs| && run[t].pcs[p].Writing?
    ensures Inv(run[i]) && Inv(run[k]) && run[k].pcs[p].addr == addr && run[k].pcs[p].next <= |addr|
    ensures StoredBy(run[k], p) == StoredBy(run[i], p) + addr[..run[k].pcs[p].next]
    decreases k
  {
    RunInv(run, i);
    RunInv(run, k);
    assert EndOk(run[k], p);
    if k > i + 1 {
      var h := k - 1;
      WriteProgress(run, i, h, p, addr);
      assert Next(run[h], run[h + 1]);
      if WriteSection(run[h], run[k], p) {
        OwnWrite(run[h], run[k], p, StoredBy(run[i], p));
      } else {
        OthersStep(run[h], run[k], p);
      }
    } else {
      assert StoredBy(run[i], p) + addr[..0] == StoredBy(run[i], p);
    }
  }

  // A write that begins with step i and ends with step j stores a prefix of its bytes, in order, and
  // all of them if its process has not been killed and somebody can still read.
  lemma WriteComplete(run: seq<Machine>, i: nat, j: nat, p: nat, addr: seq<Byte>)
    requires Run(run) && i < j < j + 1 < |run| && CallWrite(run[i], run[i + 1], p, addr)
    requires forall t :: i < t <= j ==> p < |run[t].pcs| && run[t].pcs[p].Writing?
    requires p < |run[j + 1].pcs| && run[j + 1].pcs[p].Out?
    ensures Inv(run[i]) && Inv(run[j + 1])
    ensures exists n :: 0 <= n <= |addr| && StoredBy(run[j + 1], p) == StoredBy(run[i], p) + addr[..n]
                   && (n == |addr| || p in run[j].killed || run[j].readers == {})
  {
    WriteProgress(run, i, j, p, addr);
    RunInv(run, j + 1);
    assert Next(run[j], run[j + 1]);
    if !WriteSection(run[j], run[j + 1], p) {
      OthersStep(run[j], run[j + 1], p);
    }
    OwnWrite(run[j], run[j + 1], p, StoredBy(run[i], p));
  }

  // As long as a read by p goes on, p has been handed nothing.
  lemma {:induction false} ReadProgress(run: seq<Machine>, i: nat, k: nat, p: nat, n: nat)
    requires Run(run) && i < k < |run| && CallRead(run[i], run[i + 1], p, n)
    requires forall t :: i < t <= k ==> p < |run[t].pcs| && run[t].pcs[p].Reading?
    ensures Inv(run[i]) && Inv(run[k]) && run[k].pcs[p].n == n && HandedTo(run[k], p) == HandedTo(run[i], p)
    decreases k
  {
    RunInv(run, i);
    RunInv(run, k);
    if k > i + 1 {
      var h := k - 1;
      ReadProgress(run, i, h, p, n);
      assert Next(run[h], run[h + 1]);
      if !ReadSection(run[h], run[k], p) {
        OthersStep(run[h], run[k], p);
      }
    }
  }

  // A read of n bytes that begins with step i and ends with step j hands over the oldest bytes in the
  // pipe at that time, n of them or all there are.  It ends with none (of at least one asked for) only
  // if its process has been killed or nobody can write any more.
  lemma ReadComplete(run: seq<Machine>, i: nat, j: nat, p: nat, n: nat)
    requires Run(run) && i < j < j + 1 < |run| && CallRead(run[i], run[i + 1], p, n)
    requires forall t :: i < t <= j ==> p < |run[t].pcs| && run[t].pcs[p].Reading?
    requires p < |run[j + 1].pcs| && run[j + 1].pcs[p].Out?
    ensures Inv(run[i]) && Inv(run[j]) && Inv(run[j + 1])
    ensures var buffered := run[j].sent[|run[j].delivered|..];
            exists k :: 0 <= k <= |buffered| && k <= n && HandedTo(run[j + 1], p) == HandedTo(run[i], p) + buffered[..k]
                   && (k == n || k == |buffered|)
                   && (k == 0 < n ==> p in run[j].killed || run[j].writers == {})
  {
    ReadProgress(run, i, j, p, n);
    RunInv(run, j + 1);
    assert Next(run[j], run[j + 1]);
    if !ReadSection(run[j], run[j + 1], p) {
      OthersStep(run[j], run[j + 1], p);
    }
    ReadEnds(run[j], run[j + 1], p);
  }

  lemma ReadEnds(m: Machine, m': Machine, p: nat)
    requires Inv(m) && Inv(m') && ReadSection(m, m', p) && m'.pcs[p].Out?
    ensures var buffered := m.sent[|m.delivered|..];
            exists k :: 0 <= k <= |buffered| && k <= m.pcs[p].n && HandedTo(m', p) == HandedTo(m, p) + buffered[..k]
                   && (k == m.pcs[p].n || k == |buffered|)
                   && (k == 0 < m.pcs[p].n ==> p in m.killed || m.writers == {})
  {
    FullExactly(m.ring, m.sent, |m.delivered|);
    if IsEmpty(m.ring) && m.writeopen {
      assert HandedTo(m, p) + m.sent[|m.delivered|..][..0] == HandedTo(m, p);
    } else {
      var bytes := Drain(m.ring, m.pcs[p].n).1;
      DrainOk(m.ring, m.sent, |m.delivered|, m.pcs[p].n);
      FullExactly(m'.ring, m'.sent, |m'.delivered|);
      OwnAppend(m.delivered, m.takers, bytes, p, p);
      assert bytes == m.sent[|m.delivered|..][..|bytes|];
    }
  }

  // A writer asleep means a full pipe that somebody can still read.
  lemma WriterAsleepMeansFull(run: seq<Machine>, i: nat, p: nat)
    requires Run(run) && i < |run| && p < |run[i].pcs| && run[i].pcs[p].Writing? && run[i].pcs[p].blocked
    ensures |run[i].sent| == |run[i].delivered| + PIPESIZE && run[i].readers != {}
  {
    RunInv(run, i);
    FullExactly(run[i].ring, run[i].sent, |run[i].delivered|);
  }

  // Up to state i of a run, sleeping readers always face an empty pipe that somebody can still write,
  // if and only if no step was a silent fill.
  lemma ReaderAsleepMeansEmpty(run: seq<Machine>, i: nat)
    requires Run(run) && i < |run|
    ensures (forall k :: 0 <= k <= i ==> ReadersOk(run[k])) <==> (forall k :: 0 <= k < i ==> !Silent(run[k], run[k + 1]))
  {
    forall k | 0 <= k < i ensures ReadersOk(run[k]) ==> (ReadersOk(run[k + 1]) <==> !Silent(run[k], run[k + 1])) {
      RunInv(run, k);
      NextInv(run[k], run[k + 1]);
    }
    ReadersChain(run, i);
  }

  lemma {:induction false} ReadersChain(run: seq<Machine>, i: nat)
    requires i < |run| && ReadersOk(run[0])
    requires forall k :: 0 <= k < i ==> ReadersOk(run[k]) ==> (ReadersOk(run[k + 1]) <==> !Silent(run[k], run[k + 1]))
    ensures (forall k :: 0 <= k <= i ==> ReadersOk(run[k])) <==> (forall k :: 0 <= k < i ==> !Silent(run[k], run[k + 1]))
  {
    if i > 0 {
      ReadersChain(run, i - 1);
      var j := i - 1;
      assert ReadersOk(run[j]) ==> (ReadersOk(run[j + 1]) <==> !Silent(run[j], run[j + 1]));
    }
  }

  // Then the two sides never wait for each other.
  lemma NeverBothAsleep(run: seq<Machine>, i: nat, p: nat, q: nat)
    requires Run(run) && i < |run| && forall k :: 0 <= k < i ==> !Silent(run[k], run[k + 1])
    requires p < |run[i].pcs| && run[i].pcs[p].Reading? && run[i].pcs[p].asleep
    requires q < |run[i].pcs| && run[i].pcs[q].Writing?
    ensures !run[i].pcs[q].blocked
  {
    ReaderAsleepMeansEmpty(run, i);
    assert ReadersOk(run[i]);
    RunInv(run, i);
    FullExactly(run[i].ring, run[i].sent, |run[i].delivered|);
  }

  // It does happen: a killed writer fills the pipe and leaves the reader asleep.
  lemma KilledWriterLeavesReader() returns (run: seq<Machine>)
    ensures Run(run) && |run| == 6 && Silent(run[4], run[5])
    ensures var m := run[5]; |m.pcs| == 2 && m.pcs[0].Reading? && m.pcs[0].asleep && IsFull(m.ring)
  {
    var bytes: seq<Byte> := seq(PIPESIZE + 1, _ => 7);
    var ring := Ring(seq(PIPESIZE, _ => 0), 0, 0);
    var m0 := Machine(ring, true, true, {0}, {1}, {}, [Out, Out], [], [], [], []);
    var m1 := m0.(pcs := [Reading(1, false), Out]);
    var m2 := m0.(pcs := [Reading(1, true), Out]);
    var m3 := m0.(pcs := [Reading(1, true), Writing(bytes, 0, false)]);
    var m4 := m3.(killed := {1});
    var (ring', stop) := Fill(ring, bytes, 0);
    FillOk(ring, [], 0, bytes, 0);
    var m5 := m4.(ring := ring', sent := [] + bytes[0..stop], senders := [] + Repeat(1, stop - 0), pcs := [Reading(1, true), Out]);
    assert CallRead(m0, m1, 0, 1);
    assert ReadSection(m1, m2, 0);
    assert CallWrite(m2, m3, 1, bytes);
    assert Kill(m3, m4, 1);
    assert WriteSection(m4, m5, 1);
    assert m4.pcs[0].Reading? && SilentFill(m4, 1);
    run := [m0, m1, m2, m3, m4, m5];
  }
}
