/**
 Where the file layer meets the log: which system calls keep to the MAXOPBLOCKS blocks that
 begin_op reserves for them, and what the log promises those that do.
 */
module LogBudget {
  import opened Bitmap
  import opened InodeMap
  import opened FileSystem
  import opened Kernel
  import LogProtocol

  // --- writing --------------------------------------------------------------------------------

  // What operation o has logged is part of one transaction of filewrite, or within the budget anyway.
  ghost predicate Modest(s: LogProtocol.State, o: nat) {
    LogProtocol.ActiveOp(s, o) ==>
      || |s.ops[o].logged| <= MAXOPBLOCKS
      || exists early: set<nat>, logged: set<nat>, inode: nat ::
           Transaction(early, logged, inode) && s.ops[o].logged <= logged
  }

  lemma TransactionSize(early: set<nat>, logged: set<nat>, inode: nat, g: set<nat>)
    requires Transaction(early, logged, inode) && g <= logged
    ensures |g| <= MAXOPBLOCKS && (g <= early ==> |g| < MAXOPBLOCKS)
  {
    UnionSize(early, {inode});
    SubsetSize(g, early + {inode});
    if g <= early {
      SubsetSize(g, early);
    }
  }

  // No log_write of filewrite panics: at each one, what its transaction has logged is part of `early`,
  // whatever the other operations do within their own budgets.
  lemma FilewriteNeverPanics(L: LogProtocol.Layout, run: seq<LogProtocol.State>, k: nat, o: nat,
                             early: set<nat>, logged: set<nat>, inode: nat)
    requires LogProtocol.Run(L, run) && k < |run| && L.size > LOGSIZE
    requires forall j, p: nat :: 0 <= j <= k ==> Modest(run[j], p)
    requires Transaction(early, logged, inode)
    requires LogProtocol.ActiveOp(run[k], o) && run[k].ops[o].logged <= early
    ensures LogProtocol.Budgeted(run, k) && !LogProtocol.WouldPanic(L, run[k])
  {
    forall j | 0 <= j <= k ensures LogProtocol.WithinBudget(run[j]) {
      forall p: nat | LogProtocol.ActiveOp(run[j], p) ensures |run[j].ops[p].logged| <= MAXOPBLOCKS {
        assert Modest(run[j], p);
        if |run[j].ops[p].logged| > MAXOPBLOCKS {
          var e: set<nat>, g: set<nat>, i: nat :| Transaction(e, g, i) && run[j].ops[p].logged <= g;
          TransactionSize(e, g, i, run[j].ops[p].logged);
        }
      }
    }
    TransactionSize(early, logged, inode, run[k].ops[o].logged);
    LogProtocol.BelowBudgetNeverPanics(L, run, o, k);
  }

  // --- freeing --------------------------------------------------------------------------------

  // The number of bitmap blocks the data area has bits in.
  function Spanned(a: Area): nat
    requires a.start < a.size
  {
    (a.size - 1) / BPB - a.start / BPB + 1
  }

  function Interval(lo: nat, n: nat): (r: set<nat>)
    ensures |r| == n && forall x: nat :: x in r <==> lo <= x < lo + n
  {
    if n == 0 then {} else Interval(lo, n - 1) + {lo + n - 1}
  }

  // What freeing inode i logs.
  ghost function FreeCost(s: FS, i: nat, bmapstart: nat, inode: nat): nat {
    |MapsOf(BlocksOf(s.owner, i), bmapstart) + {inode}|
  }

  lemma MapsWithin(a: Area, s: FS, i: nat, bmapstart: nat)
    requires Inv(a, s) && a.start < a.size
    ensures |MapsOf(BlocksOf(s.owner, i), bmapstart)| <= Spanned(a)
  {
    var lo := a.start / BPB + bmapstart;
    forall m | m in MapsOf(BlocksOf(s.owner, i), bmapstart) ensures m in Interval(lo, Spanned(a)) {
      var b :| b in s.owner && b / BPB + bmapstart == m;
      assert InArea(a, b);
      Monotone(a.start, b);
      Monotone(b, a.size - 1);
    }
    SubsetSize(MapsOf(BlocksOf(s.owner, i), bmapstart), Interval(lo, Spanned(a)));
  }

  lemma Monotone(x: nat, y: nat)
    requires x <= y
    ensures x / BPB <= y / BPB
  {
  }

  // Freeing a file stays within a transaction in every state of a file system, if and only if the data
  // area has bits in fewer than MAXOPBLOCKS bitmap blocks.
  lemma FreeFitsExactly(a: Area, bmapstart: nat, inode: nat)
    requires 0 < a.start < a.size < UINT && inode < bmapstart
    ensures (forall s: FS, d: seq<Inode>, i: nat :: Inv(a, s) && Calm(s, d) && i < |s.inodes| ==>
              FreeCost(s, i, bmapstart, inode) <= MAXOPBLOCKS)
            <==> Spanned(a) < MAXOPBLOCKS
  {
    if Spanned(a) < MAXOPBLOCKS {
      forall s: FS, d: seq<Inode>, i: nat | Inv(a, s) && Calm(s, d) && i < |s.inodes|
        ensures FreeCost(s, i, bmapstart, inode) <= MAXOPBLOCKS
      {
        MapsWithin(a, s, i, bmapstart);
        UnionSize(MapsOf(BlocksOf(s.owner, i), bmapstart), {inode});
      }
    } else {
      var bs := Spread(a, MAXOPBLOCKS);
      var s, d := OneFile(a, bs);
      SpreadCost(s, bs, a.start / BPB, bmapstart, inode);
    }
  }

  // A file system with one file, inode 1, whose blocks are bs.
  ghost function OwnerOf(bs: seq<nat>): Owner {
    if bs == [] then map[] else OwnerOf(bs[..|bs| - 1])[bs[|bs| - 1] := (1, |bs| - 1)]
  }

  lemma {:induction false} OwnerOfAt(bs: seq<nat>)
    requires forall t, u :: 0 <= t < u < |bs| ==> bs[t] != bs[u]
    ensures forall t :: 0 <= t < |bs| ==> bs[t] in OwnerOf(bs) && OwnerOf(bs)[bs[t]] == (1, t)
    ensures forall b :: b in OwnerOf(bs) ==>
              OwnerOf(bs)[b].0 == 1 && OwnerOf(bs)[b].1 < |bs| && bs[OwnerOf(bs)[b].1] == b
  {
    if bs != [] {
      var front := bs[..|bs| - 1];
      OwnerOfAt(front);
      assert forall t :: 0 <= t < |front| ==> bs[t] == front[t];
    }
  }

  lemma OneFile(a: Area, bs: seq<nat>) returns (s: FS, d: seq<Inode>)
    requires 0 < a.start < a.size < UINT && |bs| <= NDIRECT
    requires forall t :: 0 <= t < |bs| ==> InArea(a, bs[t])
    requires forall t, u :: 0 <= t < u < |bs| ==> bs[t] != bs[u]
    ensures Inv(a, s) && Calm(s, d) && |s.inodes| == 2
    ensures forall t :: 0 <= t < |bs| ==> bs[t] in BlocksOf(s.owner, 1)
  {
    var owner := OwnerOf(bs);
    OwnerOfAt(bs);
    var ino := FileInode(bs);
    d := [Inode(0, 0, 0, NoAddrs()), ino];
    s := FS(BitsOf(a, owner), EmptyBlocks(a.size), d, [Extent(0, false), Extent(|bs|, false)], owner);
    OneFileInv(a, bs, s);
    forall i: nat | i < 2 ensures SettledAt(s, d, i) {
      assert Exact(Extent(|bs|, false), |bs| * BSIZE);
    }
  }

  ghost function FileInode(bs: seq<nat>): (ino: Inode)
    requires |bs| <= NDIRECT
    ensures ino.kind == 1 && ino.size == |bs| * BSIZE && |ino.addrs| == NDIRECT + 1
    ensures forall t :: 0 <= t <= NDIRECT ==> ino.addrs[t] == if t < |bs| then bs[t] else 0
  {
    Inode(1, 1, |bs| * BSIZE, seq(NDIRECT + 1, t => if 0 <= t < |bs| then bs[t] else 0))
  }

  ghost function EmptyBlocks(n: nat): (r: seq<DataBlock>)
    ensures |r| == n
  {
    seq(n, _ => ZeroBlock())
  }

  lemma OneFileInv(a: Area, bs: seq<nat>, s: FS)
    requires Shape(a, s) && |bs| <= NDIRECT && |s.inodes| == 2 && s.ext == [Extent(0, false), Extent(|bs|, false)] && BitsOk(a, s)
    requires s.inodes[0].addrs == NoAddrs()
    requires forall t :: 0 <= t <= NDIRECT ==> s.inodes[1].addrs[t] == if t < |bs| then bs[t] else 0
    requires forall t :: 0 <= t < |bs| ==> InArea(a, bs[t]) && bs[t] in s.owner && s.owner[bs[t]] == (1, t)
    requires forall b :: b in s.owner ==> s.owner[b].0 == 1 && s.owner[b].1 < |bs| && bs[s.owner[b].1] == b
    ensures Inv(a, s)
  {
    forall k: nat | k < NSLOTS ensures Ref(a, s, 1, k) == (if k < |bs| then bs[k] else 0) && Ref(a, s, 0, k) == 0 {
    }
  }

  ghost function BitsOf(a: Area, owner: Owner): (bits: seq<Bits8>)
    ensures a.size <= 8 * |bits|
    ensures forall b: nat :: b < a.size ==> (Bit(bits, b) <==> b < a.start || b in owner)
  {
    var bits: seq<Bits8> := seq(a.size / 8 + 1, q requires q >= 0 => ByteOf(a, owner, q));
    assert forall b: nat :: 8 * (b / 8) + b % 8 == b;
    bits
  }

  ghost function ByteOf(a: Area, owner: Owner, q: nat): Bits8 {
    seq(8, r requires r >= 0 => 8 * q + r < a.start || 8 * q + r in owner)
  }

  // Blocks with their bits in n different bitmap blocks.
  function Spread(a: Area, n: nat): (bs: seq<nat>)
    requires a.start < a.size && n <= Spanned(a)
    ensures |bs| == n
    ensures forall t :: 0 <= t < n ==> InArea(a, bs[t]) && bs[t] / BPB == a.start / BPB + t
  {
    if n == 0 then [] else Spread(a, n - 1) + [if n == 1 then a.start else (a.start / BPB + n - 1) * BPB]
  }

  lemma SpreadMaps(blocks: set<nat>, bs: seq<nat>, first: nat, bmapstart: nat)
    requires forall t :: 0 <= t < |bs| ==> bs[t] / BPB == first + t && bs[t] in blocks
    ensures Interval(first + bmapstart, |bs|) <= MapsOf(blocks, bmapstart)
  {
    forall m | m in Interval(first + bmapstart, |bs|) ensures m in MapsOf(blocks, bmapstart) {
      assert bs[m - first - bmapstart] in blocks;
    }
  }

  lemma SpreadCost(s: FS, bs: seq<nat>, first: nat, bmapstart: nat, inode: nat)
    requires inode < bmapstart
    requires forall t :: 0 <= t < |bs| ==> bs[t] / BPB == first + t && bs[t] in BlocksOf(s.owner, 1)
    ensures FreeCost(s, 1, bmapstart, inode) > |bs|
  {
    var few, maps := Interval(first + bmapstart, |bs|), MapsOf(BlocksOf(s.owner, 1), bmapstart);
    SpreadMaps(BlocksOf(s.owner, 1), bs, first, bmapstart);
    assert inode !in few;
    SubsetSize(few + {inode}, maps + {inode});
  }
}
