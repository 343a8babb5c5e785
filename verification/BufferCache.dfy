/**
 The buffer cache: NBUF buffers on a doubly linked list in most-recently-used
 order.  Links are indices; index NBUF is the list head.
 */
module BufferCache {
  import opened Blocks

  datatype Buf = Buf(dev: nat, blockno: nat, valid: bool, dirty: bool, refcnt: nat, locked: bool, data: Block)

  // --- the list ------------------------------------------------------------------

  // The node at position i of the list; positions -1 and |order| are the head h.
  ghost function At(h: nat, order: seq<nat>, i: int): nat {
    if 0 <= i < |order| then order[i] else h
  }

  // The links go through `order` in both directions, starting and ending at h.
  ghost predicate Linked(next: seq<nat>, prev: seq<nat>, h: nat, order: seq<nat>) {
    && |next| == |prev| == h + 1
    && (forall i :: 0 <= i < |order| ==> order[i] < h)
    && (forall i, j :: 0 <= i < j < |order| ==> order[i] != order[j])
    && (forall i :: -1 <= i < |order| ==> next[At(h, order, i)] == At(h, order, i + 1))
    && (forall i :: 0 <= i <= |order| ==> prev[At(h, order, i)] == At(h, order, i - 1))
  }

  // Every buffer is on the list (once, by Linked).
  ghost predicate Complete(h: nat, order: seq<nat>) {
    forall x: nat :: x < h ==> x in order
  }

  ghost function Remove(order: seq<nat>, p: nat): seq<nat>
    requires p < |order|
  {
    order[..p] + order[p + 1..]
  }

  lemma Unlink(next: seq<nat>, prev: seq<nat>, h: nat, order: seq<nat>, p: nat)
    requires Linked(next, prev, h, order) && p < |order|
    ensures var b := order[p];
            next[b] <= h && prev[b] <= h && next[b] != b
            && Linked(next[prev[b] := next[b]], prev[next[b] := prev[b]], h, Remove(order, p))
  {
    var b, rest := order[p], Remove(order, p);
    var before, after := At(h, order, p - 1), At(h, order, p + 1);
    assert next[At(h, order, p)] == after && prev[At(h, order, p)] == before;
    var next', prev' := next[before := after], prev[after := before];
    forall i | -1 <= i < |rest| ensures next'[At(h, rest, i)] == At(h, rest, i + 1) {
      var k := if i < p then i else i + 1;
      assert At(h, rest, i) == At(h, order, k);
      assert next[At(h, order, k)] == At(h, order, k + 1);
    }
    forall i | 0 <= i <= |rest| ensures prev'[At(h, rest, i)] == At(h, rest, i - 1) {
      var k := if i < p then i else i + 1;
      assert At(h, rest, i) == At(h, order, k);
      assert prev[At(h, order, k)] == At(h, order, k - 1);
    }
  }

  lemma PushFront(next: seq<nat>, prev: seq<nat>, h: nat, order: seq<nat>, b: nat)
    requires Linked(next, prev, h, order) && b < h && b !in order
    ensures next[h] <= h
            && Linked(next[b := next[h]][h := b], prev[b := h][next[h] := b], h, [b] + order)
  {
    var first := next[h];
    assert next[At(h, order, -1)] == At(h, order, 0);
    var order' := [b] + order;
    var next', prev' := next[b := first][h := b], prev[b := h][first := b];
    forall i | -1 <= i < |order'| ensures next'[At(h, order', i)] == At(h, order', i + 1) {
      if i >= 1 {
        assert next[At(h, order, i - 1)] == At(h, order, i);
      }
    }
    forall i | 0 <= i <= |order'| ensures prev'[At(h, order', i)] == At(h, order', i - 1) {
      if i >= 2 {
        assert prev[At(h, order, i - 1)] == At(h, order, i - 2);
      }
    }
  }

  lemma MovedComplete(h: nat, order: seq<nat>, p: nat)
    requires Complete(h, order) && p < |order|
    ensures Complete(h, [order[p]] + Remove(order, p))
  {
    var o' := [order[p]] + Remove(order, p);
    forall x: nat | x < h ensures x in o' {
      assert x in order;
      var i :| 0 <= i < |order| && order[i] == x;
      if i < p {
        assert o'[i + 1] == x;
      } else if i == p {
        assert o'[0] == x;
      } else {
        assert o'[i] == x;
      }
    }
  }

  // --- what the cache stands for ---------------------------------------------------

  predicate For(buf: Buf, dev: nat, blockno: nat) {
    buf.dev == dev && buf.blockno == blockno
  }

  // A buffer that bget may recycle.
  predicate Free(buf: Buf) {
    buf.refcnt == 0 && !buf.dirty
  }

  // At most one buffer per block of a real device.
  ghost predicate Unique(bufs: seq<Buf>) {
    forall i, j :: 0 <= i < j < |bufs| && bufs[i].dev == bufs[j].dev != 0 ==> bufs[i].blockno != bufs[j].blockno
  }

  lemma SameBuffer(bufs: seq<Buf>, i: nat, j: nat, b: nat)
    requires Unique(bufs) && Holds(bufs, i, b) && Holds(bufs, j, b)
    ensures i == j
  {
  }

  ghost predicate Holds(bufs: seq<Buf>, i: nat, b: nat) {
    i < |bufs| && For(bufs[i], 1, b) && bufs[i].valid
  }

  // The contents of block b of disk 1 as its users see it.
  ghost function Look(bufs: seq<Buf>, disk: Disk, b: nat): Block
    requires b in disk
  {
    if exists i: nat :: Holds(bufs, i, b) then var i: nat :| Holds(bufs, i, b); bufs[i].data else disk[b]
  }

  ghost function ContentsOf(bufs: seq<Buf>, disk: Disk): Disk {
    map b | b in disk :: Look(bufs, disk, b)
  }

  // The blocks whose only up-to-date copy is pinned in memory.
  ghost function DirtyBlocks(bufs: seq<Buf>): set<nat> {
    set i | 0 <= i < |bufs| && bufs[i].dirty :: bufs[i].blockno
  }

  // A buffer agrees with the disk unless it is dirty, or its holder has changed it
  // and not yet called log_write or bwrite.
  ghost predicate BufOk(buf: Buf, disk: Disk, changed: bool) {
    && (buf.dirty ==> buf.valid)
    && (buf.locked ==> buf.refcnt > 0)
    && (changed ==> buf.locked && buf.valid)
    && (buf.valid ==> buf.dev == 1 && buf.blockno in disk)
    && (buf.valid && !buf.dirty && !changed ==> buf.data == disk[buf.blockno])
  }

  lemma LookAt(bufs: seq<Buf>, disk: Disk, i: nat)
    requires Unique(bufs) && i < |bufs| && bufs[i].valid && bufs[i].dev == 1 && bufs[i].blockno in disk
    ensures ContentsOf(bufs, disk)[bufs[i].blockno] == bufs[i].data
  {
    var b := bufs[i].blockno;
    assert Holds(bufs, i, b);
    forall j: nat | Holds(bufs, j, b) ensures j == i { SameBuffer(bufs, i, j, b); }
  }

  // Changing one buffer changes at most what is seen of its old and its new block.
  lemma LookElsewhere(bufs: seq<Buf>, bufs': seq<Buf>, disk: Disk, disk': Disk, i: nat, b: nat)
    requires i < |bufs| && |bufs'| == |bufs| && bufs' == bufs[i := bufs'[i]]
    requires Unique(bufs) && Unique(bufs')
    requires !Holds(bufs, i, b) && !Holds(bufs', i, b)
    requires b in disk && b in disk' && disk'[b] == disk[b]
    ensures Look(bufs', disk', b) == Look(bufs, disk, b)
  {
    if k: nat :| Holds(bufs, k, b) {
      assert Holds(bufs', k, b);
    } else if k: nat :| Holds(bufs', k, b) {
      assert Holds(bufs, k, b);
    }
  }

  // Neither recycling a clean buffer nor reading a block in changes what is seen.
  lemma SameContents(bufs: seq<Buf>, bufs': seq<Buf>, disk: Disk, i: nat)
    requires i < |bufs| && |bufs'| == |bufs| && bufs' == bufs[i := bufs'[i]]
    requires Unique(bufs) && Unique(bufs')
    requires forall b :: b in disk && Holds(bufs, i, b) ==>
               if Holds(bufs', i, b) then bufs'[i].data == bufs[i].data else bufs[i].data == disk[b]
    requires forall b :: b in disk && Holds(bufs', i, b) && !Holds(bufs, i, b) ==> bufs'[i].data == disk[b]
    ensures ContentsOf(bufs', disk) == ContentsOf(bufs, disk)
  {
    forall b | b in disk ensures Look(bufs', disk, b) == Look(bufs, disk, b) {
      assert forall k: nat :: k != i ==> (Holds(bufs', k, b) <==> Holds(bufs, k, b));
      if Holds(bufs, i, b) {
        forall k: nat | Holds(bufs, k, b) ensures k == i { SameBuffer(bufs, i, k, b); }
      } else if Holds(bufs', i, b) {
        forall k: nat | Holds(bufs', k, b) ensures k == i { SameBuffer(bufs', i, k, b); }
      } else {
        LookElsewhere(bufs, bufs', disk, disk, i, b);
      }
    }
  }

  // Writing buffer i's data through to its block changes neither view but the disk.
  lemma WriteThrough(bufs: seq<Buf>, bufs': seq<Buf>, disk: Disk, i: nat, b: nat)
    requires i < |bufs| && |bufs'| == |bufs| && bufs' == bufs[i := bufs'[i]]
    requires Unique(bufs) && Unique(bufs') && b in disk
    requires Holds(bufs, i, b) && Holds(bufs', i, b) && bufs'[i].data == bufs[i].data
    ensures ContentsOf(bufs', disk[b := bufs[i].data]) == ContentsOf(bufs, disk)
  {
    var disk' := disk[b := bufs[i].data];
    LookAt(bufs, disk, i);
    LookAt(bufs', disk', i);
    forall c | c in disk && c != b ensures Look(bufs', disk', c) == Look(bufs, disk, c) {
      LookElsewhere(bufs, bufs', disk, disk', i, c);
    }
  }

  // Changing buffer i's data changes what is seen of its block and nothing else.
  lemma DataChanged(bufs: seq<Buf>, bufs': seq<Buf>, disk: Disk, i: nat, b: nat)
    requires i < |bufs| && |bufs'| == |bufs| && bufs' == bufs[i := bufs'[i]]
    requires Unique(bufs) && Unique(bufs') && b in disk
    requires Holds(bufs, i, b) && Holds(bufs', i, b)
    ensures ContentsOf(bufs', disk) == ContentsOf(bufs, disk)[b := bufs'[i].data]
  {
    LookAt(bufs', disk, i);
    forall c | c in disk && c != b ensures Look(bufs', disk, c) == Look(bufs, disk, c) {
      LookElsewhere(bufs, bufs', disk, disk, i, c);
    }
  }

  // --- what bget finds -----------------------------------------------------------------------

  ghost predicate AnyFree(bufs: seq<Buf>) {
    exists i :: 0 <= i < |bufs| && Free(bufs[i])
  }

  ghost predicate Cached(bufs: seq<Buf>, c: nat) {
    exists i :: 0 <= i < |bufs| && For(bufs[i], 1, c)
  }

  // bget does not panic on block c of disk 1.
  ghost predicate Room(bufs: seq<Buf>, c: nat) {
    Cached(bufs, c) || AnyFree(bufs)
  }

  // bread has counted a reference to buffer b, which holds block c, recycling it if no buffer did.
  ghost predicate Fetched(bufs: seq<Buf>, bufs': seq<Buf>, c: nat, b: nat) {
    && b < |bufs| == |bufs'| && bufs' == bufs[b := bufs'[b]] && For(bufs'[b], 1, c) && bufs'[b].dirty == bufs[b].dirty
    && (if For(bufs[b], 1, c) then bufs'[b].refcnt == bufs[b].refcnt + 1
        else !Cached(bufs, c) && Free(bufs[b]) && bufs'[b].refcnt == 1)
  }

  // Buffer b is released; `clean` if it has been written meanwhile.
  ghost predicate GivenBack(buf: Buf, buf': Buf, clean: bool) {
    && buf'.dev == buf.dev && buf'.blockno == buf.blockno && buf'.refcnt == buf.refcnt - 1
    && buf'.dirty == (buf.dirty && !clean)
  }

  // Every buffer holds its block, is referenced and is dirty as before.
  ghost predicate SameSlots(bufs: seq<Buf>, bufs': seq<Buf>) {
    && |bufs'| == |bufs|
    && forall i :: 0 <= i < |bufs| ==>
         && bufs'[i].dev == bufs[i].dev && bufs'[i].blockno == bufs[i].blockno
         && bufs'[i].refcnt == bufs[i].refcnt && bufs'[i].dirty == bufs[i].dirty
  }

  // What can be recycled can be recycled again; if nothing can, nothing has been.
  ghost predicate Keeps(bufs: seq<Buf>, bufs': seq<Buf>) {
    if AnyFree(bufs) then AnyFree(bufs') else SameSlots(bufs, bufs')
  }

  lemma SameRoom(bufs: seq<Buf>, bufs': seq<Buf>)
    requires SameSlots(bufs, bufs')
    ensures AnyFree(bufs') <==> AnyFree(bufs)
    ensures forall c :: Cached(bufs', c) <==> Cached(bufs, c)
  {
    if i :| 0 <= i < |bufs| && Free(bufs[i]) {
      assert Free(bufs'[i]);
    }
    if i :| 0 <= i < |bufs'| && Free(bufs'[i]) {
      assert Free(bufs[i]);
    }
    forall c ensures Cached(bufs', c) <==> Cached(bufs, c) {
      if i :| 0 <= i < |bufs| && For(bufs[i], 1, c) {
        assert For(bufs'[i], 1, c);
      }
      if i :| 0 <= i < |bufs'| && For(bufs'[i], 1, c) {
        assert For(bufs[i], 1, c);
      }
    }
  }

  lemma KeepsTwice(b0: seq<Buf>, b1: seq<Buf>, b2: seq<Buf>)
    requires Keeps(b0, b1) && Keeps(b1, b2)
    ensures Keeps(b0, b2)
  {
    if !AnyFree(b0) {
      SameRoom(b0, b1);
    }
  }

  // Reading a clean block, writing it and giving it back.
  lemma FetchKeeps(b0: seq<Buf>, b1: seq<Buf>, b2: seq<Buf>, c: nat, b: nat)
    requires Fetched(b0, b1, c, b) && |b2| == |b1| && b2 == b1[b := b2[b]] && GivenBack(b1[b], b2[b], true)
    requires !b0[b].dirty
    ensures Keeps(b0, b2)
  {
    if i :| 0 <= i < |b0| && Free(b0[i]) {
      assert Free(b2[i]);
    } else {
      assert !Free(b0[b]);
    }
  }

  // A dirty block stays where it is while another is read.
  lemma DirtyStays(b0: seq<Buf>, b1: seq<Buf>, c: nat, b: nat, e: nat, i: nat)
    requires Fetched(b0, b1, c, b) && e != c && i < |b0| && b0[i].dirty && For(b0[i], 1, e)
    ensures i != b && b1[i] == b0[i] && Cached(b1, e)
  {
    assert For(b1[i], 1, e);
  }

  // Reading clean block c, then dirty block e, writing one of the two and giving both back.
  lemma PairKeeps(b0: seq<Buf>, b1: seq<Buf>, b2: seq<Buf>, b3: seq<Buf>, c: nat, e: nat, a: nat, b: nat, first: bool)
    requires Unique(b0) && Fetched(b0, b1, c, a) && Fetched(b1, b2, e, b) && c != e && !b0[a].dirty
    requires exists i :: 0 <= i < |b0| && b0[i].dirty && For(b0[i], 1, e)
    requires |b3| == |b2| && (forall i :: 0 <= i < |b2| && i != a && i != b ==> b3[i] == b2[i])
    requires GivenBack(b2[a], b3[a], first) && GivenBack(b2[b], b3[b], !first)
    ensures first ==> Keeps(b0, b3)
    ensures if AnyFree(b0) then AnyFree(b3) else forall k :: Cached(b0, k) ==> Cached(b3, k)
  {
    var i :| 0 <= i < |b0| && b0[i].dirty && For(b0[i], 1, e);
    DirtyStays(b0, b1, c, a, e, i);
    assert b == i && b2[a] == b1[a];
    if j :| 0 <= j < |b0| && Free(b0[j]) {
      assert Free(b3[j]);
    } else {
      assert !Free(b0[a]);
      forall k | Cached(b0, k) ensures Cached(b3, k) {
        var j :| 0 <= j < |b0| && For(b0[j], 1, k);
        assert For(b3[j], 1, k);
      }
    }
  }

  // Nobody uses the cache, as when the system starts.
  ghost predicate AllFree(bufs: seq<Buf>) {
    forall i :: 0 <= i < |bufs| ==> Free(bufs[i])
  }

  // Then a second block takes a second buffer.
  lemma SecondRoom(b0: seq<Buf>, b1: seq<Buf>, c: nat, e: nat, a: nat)
    requires AllFree(b0) && Fetched(b0, b1, c, a) && c != e
    ensures Room(b1, e) <==> |b0| >= 2
  {
    if |b0| >= 2 {
      assert Free(b1[if a == 0 then 1 else 0]);
    }
  }

  lemma AllFreeRoom(bufs: seq<Buf>, c: nat)
    requires AllFree(bufs)
    ensures Room(bufs, c) <==> |bufs| >= 1
  {
    if |bufs| >= 1 {
      assert Free(bufs[0]);
    }
  }

  lemma AllGivenBack(b0: seq<Buf>, b1: seq<Buf>, b2: seq<Buf>, b3: seq<Buf>, c: nat, e: nat, a: nat, b: nat, first: bool)
    requires AllFree(b0) && Fetched(b0, b1, c, a) && Fetched(b1, b2, e, b) && a != b
    requires |b3| == |b2| && (forall i :: 0 <= i < |b2| && i != a && i != b ==> b3[i] == b2[i])
    requires GivenBack(b2[a], b3[a], first) && GivenBack(b2[b], b3[b], !first)
    ensures AllFree(b3)
  {
  }

  lemma DirtyThere(bufs: seq<Buf>, c: nat) returns (i: nat)
    requires c in DirtyBlocks(bufs)
    ensures i < |bufs| && bufs[i].dirty && bufs[i].blockno == c
  {
    i :| 0 <= i < |bufs| && bufs[i].dirty && bufs[i].blockno == c;
  }

  class Cache {
    var bufs: seq<Buf>        // bcache.buf
    var next: seq<nat>
    var prev: seq<nat>
    var disk: Disk            // disk 1
    ghost var order: seq<nat> // the list, most recently used first
    ghost var changed: set<nat> // buffers their holder changed and has not handed over

    ghost predicate Valid()
      reads this
    {
      && Linked(next, prev, |bufs|, order) && Complete(|bufs|, order)
      && Unique(bufs)
      && (forall i :: 0 <= i < |bufs| ==> BufOk(bufs[i], disk, i in changed))
      && (forall i :: i in changed ==> i < |bufs|)
    }

    ghost function Contents(): Disk
      reads this
    {
      ContentsOf(bufs, disk)
    }

    // binit: an empty cache of nbuf buffers.
    constructor (nbuf: nat, d: Disk, blank: Block)
      ensures Valid() && disk == d && Contents() == d && |bufs| == nbuf && changed == {}
      ensures forall i :: 0 <= i < nbuf ==> bufs[i] == Buf(0, 0, false, false, 0, false, blank)
      ensures |order| == nbuf && forall i :: 0 <= i < nbuf ==> order[i] == nbuf - 1 - i
    {
      bufs := seq(nbuf, _ => Buf(0, 0, false, false, 0, false, blank));
      disk := d;
      changed := {};
      new;
      next := seq(nbuf + 1, _ => nbuf);
      prev := seq(nbuf + 1, _ => nbuf);
      order := [];
      var b := 0;
      while b < nbuf
        invariant b <= nbuf && |order| == b && |bufs| == nbuf
        invariant Linked(next, prev, nbuf, order)
        invariant forall i :: 0 <= i < b ==> order[i] == b - 1 - i
        invariant disk == d && changed == {}
        invariant forall i :: 0 <= i < nbuf ==> bufs[i] == Buf(0, 0, false, false, 0, false, blank)
      {
        PushFront(next, prev, nbuf, order, b);
        next := next[b := next[nbuf]];
        prev := prev[b := nbuf];
        prev := prev[next[nbuf] := b];
        next := next[nbuf := b];
        order := [b] + order;
        b := b + 1;
      }
      forall x: nat | x < nbuf ensures x in order {
        assert order[nbuf - 1 - x] == x;
      }
    }

    // bget: find the buffer of (dev, blockno) or recycle the least recently used
    // free one, and count a reference.  Not found means the kernel panics
    // ("no buffers"): every buffer is referenced or dirty.
    method Bget(dev: nat, blockno: nat) returns (found: bool, b: nat)
      requires Valid() && dev != 0
      modifies this
      ensures Valid() && disk == old(disk) && order == old(order) && changed == old(changed)
      ensures Contents() == old(Contents())
      ensures found <==> exists i :: 0 <= i < |old(bufs)| && (For(old(bufs)[i], dev, blockno) || Free(old(bufs)[i]))
      ensures !found ==> bufs == old(bufs)
      ensures found ==> b < |bufs| == |old(bufs)| && bufs == old(bufs)[b := bufs[b]]
      ensures found && For(old(bufs)[b], dev, blockno) ==> bufs[b] == old(bufs)[b].(refcnt := old(bufs)[b].refcnt + 1)
      ensures found && !For(old(bufs)[b], dev, blockno) ==>
                && bufs[b] == Buf(dev, blockno, false, false, 1, false, old(bufs)[b].data)
                && LeastRecent(old(bufs), order, b)
                && forall i :: 0 <= i < |bufs| ==> !For(old(bufs)[i], dev, blockno)
    {
      found, b := FindCached(dev, blockno);
      if found {
        bufs := bufs[b := bufs[b].(refcnt := bufs[b].refcnt + 1)];
        SameContents(old(bufs), bufs, disk, b);
        return;
      }
      found, b := FindFree();
      if found {
        bufs := bufs[b := bufs[b].(dev := dev, blockno := blockno, valid := false, dirty := false, refcnt := 1)];
        SameContents(old(bufs), bufs, disk, b);
      }
    }

    // The first scan of bget, from the head forwards.
    method FindCached(dev: nat, blockno: nat) returns (found: bool, b: nat)
      requires Linked(next, prev, |bufs|, order) && Complete(|bufs|, order)
      ensures found ==> b < |bufs| && For(bufs[b], dev, blockno)
      ensures !found ==> forall i :: 0 <= i < |bufs| ==> !For(bufs[i], dev, blockno)
    {
      var h := |bufs|;
      b := next[h];
      ghost var p := 0;
      assert next[At(h, order, -1)] == At(h, order, 0);
      while b != h
        invariant 0 <= p <= |order| && b == At(h, order, p)
        invariant forall q :: 0 <= q < p ==> !For(bufs[order[q]], dev, blockno)
        decreases |order| - p
      {
        if bufs[b].dev == dev && bufs[b].blockno == blockno {
          return true, b;
        }
        assert next[At(h, order, p)] == At(h, order, p + 1);
        b := next[b];
        p := p + 1;
      }
      forall i | 0 <= i < |bufs| ensures !For(bufs[i], dev, blockno) {
        assert i in order;
      }
      return false, 0;
    }

    // The second scan of bget, from the tail backwards.
    method FindFree() returns (found: bool, b: nat)
      requires Linked(next, prev, |bufs|, order) && Complete(|bufs|, order)
      ensures found ==> LeastRecent(bufs, order, b)
      ensures !found ==> forall i :: 0 <= i < |bufs| ==> !Free(bufs[i])
    {
      var h := |bufs|;
      b := prev[h];
      ghost var p := |order| - 1;
      assert prev[At(h, order, |order|)] == At(h, order, |order| - 1);
      while b != h
        invariant -1 <= p < |order| && b == At(h, order, p)
        invariant forall q :: p < q < |order| ==> !Free(bufs[order[q]])
        decreases p + 1
      {
        if bufs[b].refcnt == 0 && !bufs[b].dirty {
          assert Free(bufs[order[p]]);
          return true, b;
        }
        assert prev[At(h, order, p)] == At(h, order, p - 1);
        b := prev[b];
        p := p - 1;
      }
      forall i | 0 <= i < |bufs| ensures !Free(bufs[i]) {
        assert i in order;
      }
      return false, 0;
    }

    // iderw of the in-memory disk: write the buffer if dirty, else read it.
    method Iderw(b: nat)
      requires Valid() && b < |bufs| && bufs[b].locked && !(bufs[b].valid && !bufs[b].dirty)
      requires bufs[b].dev == 1 && bufs[b].blockno in disk
      modifies this
      ensures Valid() && next == old(next) && prev == old(prev) && order == old(order)
      ensures Contents() == old(Contents())
      ensures changed == old(changed) - {b}
      ensures |bufs| == |old(bufs)| && bufs == old(bufs)[b := bufs[b]]
      ensures bufs[b] == old(bufs)[b].(valid := true, dirty := false, data := bufs[b].data)
      ensures bufs[b].data == Contents()[bufs[b].blockno] == disk[bufs[b].blockno]
      ensures disk == if old(bufs)[b].dirty then old(disk)[bufs[b].blockno := old(bufs)[b].data] else old(disk)
      ensures old(bufs)[b].dirty ==> bufs[b].data == old(bufs)[b].data
    {
      var c := bufs[b].blockno;
      if bufs[b].dirty {
        disk := disk[c := bufs[b].data];
        bufs := bufs[b := bufs[b].(valid := true, dirty := false)];
        changed := changed - {b};
        assert Holds(old(bufs), b, c) && Holds(bufs, b, c);
        WriteThrough(old(bufs), bufs, old(disk), b, c);
        forall i | 0 <= i < |bufs| ensures BufOk(bufs[i], disk, i in changed) {
          assert BufOk(old(bufs)[i], old(disk), i in old(changed));
        }
      } else {
        bufs := bufs[b := bufs[b].(valid := true, data := disk[c])];
        SameContents(old(bufs), bufs, disk, b);
      }
      LookAt(bufs, disk, b);
    }

    // bread: the locked buffer of a block, holding what the block contains.
    // acquiresleep returns only once the buffer is free, hence the second requires.
    method Bread(blockno: nat) returns (found: bool, b: nat)
      requires Valid() && blockno in disk
      requires forall i :: 0 <= i < |bufs| && For(bufs[i], 1, blockno) ==> !bufs[i].locked
      modifies this
      ensures Valid() && disk == old(disk) && order == old(order) && changed == old(changed)
      ensures Contents() == old(Contents())
      ensures |bufs| == |old(bufs)| && DirtyBlocks(bufs) == old(DirtyBlocks(bufs))
      ensures !found ==> bufs == old(bufs)
      ensures found ==> b < |bufs| && For(bufs[b], 1, blockno) && bufs == old(bufs)[b := bufs[b]] && !old(bufs)[b].locked
      ensures found ==> bufs[b].locked && bufs[b].valid && bufs[b].data == Contents()[blockno]
      ensures found && For(old(bufs)[b], 1, blockno) ==> bufs[b].refcnt == old(bufs)[b].refcnt + 1
      ensures found && !For(old(bufs)[b], 1, blockno) ==> bufs[b].refcnt == 1 && Free(old(bufs)[b])
      ensures found <==> Room(old(bufs), blockno)
      ensures found ==> Fetched(old(bufs), bufs, blockno, b)
    {
      found, b := Bget(1, blockno);
      if found {
        ghost var got := bufs;
        bufs := bufs[b := bufs[b].(locked := true)];
        SameContents(got, bufs, disk, b);
        if !bufs[b].valid {
          Iderw(b);
        } else {
          LookAt(bufs, disk, b);
        }
        SameDirty(old(bufs), bufs, b);
      }
    }

    // The holder of a buffer changes its data.
    method Modify(b: nat, data: Block)
      requires Valid() && b < |bufs| && bufs[b].locked && bufs[b].valid
      modifies this`bufs, this`changed
      ensures Valid() && changed == old(changed) + {b}
      ensures bufs == old(bufs)[b := old(bufs)[b].(data := data)]
      ensures Contents() == old(Contents())[bufs[b].blockno := data]
      ensures DirtyBlocks(bufs) == old(DirtyBlocks(bufs))
    {
      bufs := bufs[b := bufs[b].(data := data)];
      changed := changed + {b};
      assert Holds(old(bufs), b, bufs[b].blockno) && Holds(bufs, b, bufs[b].blockno);
      DataChanged(old(bufs), bufs, disk, b, bufs[b].blockno);
      SameDirty(old(bufs), bufs, b);
    }

    // bwrite: write a locked buffer to disk.
    method Bwrite(b: nat)
      requires Valid() && b < |bufs| && bufs[b].locked && bufs[b].valid
      modifies this
      ensures Valid() && next == old(next) && prev == old(prev) && order == old(order)
      ensures changed == old(changed) - {b}
      ensures bufs == old(bufs)[b := old(bufs)[b].(dirty := false)]
      ensures disk == old(disk)[bufs[b].blockno := bufs[b].data]
      ensures Contents() == old(Contents())
      ensures DirtyBlocks(bufs) == old(DirtyBlocks(bufs)) - {bufs[b].blockno}
    {
      bufs := bufs[b := bufs[b].(dirty := true)];
      SameContents(old(bufs), bufs, disk, b);
      Iderw(b);
      CleanedDirty(old(bufs), bufs, b);
    }

    // The last line of log_write: pin the buffer until it is written.
    method Pin(b: nat)
      requires Valid() && b < |bufs| && bufs[b].locked && bufs[b].valid
      modifies this`bufs, this`changed
      ensures Valid() && changed == old(changed) - {b}
      ensures bufs == old(bufs)[b := old(bufs)[b].(dirty := true)]
      ensures Contents() == old(Contents())
      ensures DirtyBlocks(bufs) == old(DirtyBlocks(bufs)) + {bufs[b].blockno}
    {
      bufs := bufs[b := bufs[b].(dirty := true)];
      changed := changed - {b};
      SameContents(old(bufs), bufs, disk, b);
      DirtyChange(old(bufs), bufs, b);
      assert bufs[b].blockno in DirtyBlocks(bufs);
    }

    // brelse: unlock; the last user moves the buffer to the front of the list.
    // A changed buffer must have been handed to bwrite or log_write first.
    method Brelse(b: nat)
      requires Valid() && b < |bufs| && bufs[b].locked && b !in changed
      modifies this`bufs, this`next, this`prev, this`order
      ensures Valid() && Contents() == old(Contents())
      ensures bufs == old(bufs)[b := old(bufs)[b].(locked := false, refcnt := old(bufs)[b].refcnt - 1)]
      ensures DirtyBlocks(bufs) == old(DirtyBlocks(bufs))
      ensures if bufs[b].refcnt > 0 then order == old(order)
              else exists p: nat :: p < |old(order)| && old(order)[p] == b && order == [b] + Remove(old(order), p)
    {
      bufs := bufs[b := bufs[b].(locked := false, refcnt := bufs[b].refcnt - 1)];
      SameContents(old(bufs), bufs, disk, b);
      SameDirty(old(bufs), bufs, b);
      if bufs[b].refcnt == 0 {
        MoveToFront(b);
      }
    }

    // The six link updates of brelse.
    method MoveToFront(b: nat)
      requires Linked(next, prev, |bufs|, order) && Complete(|bufs|, order) && b < |bufs|
      modifies this`next, this`prev, this`order
      ensures Linked(next, prev, |bufs|, order) && Complete(|bufs|, order)
      ensures exists p: nat :: p < |old(order)| && old(order)[p] == b && order == [b] + Remove(old(order), p)
    {
      var h := |bufs|;
      assert b in order;
      ghost var p: nat :| p < |order| && order[p] == b;
      Unlink(next, prev, h, order, p);
      prev := prev[next[b] := prev[b]];
      next := next[prev[b] := next[b]];
      order := Remove(order, p);
      MovedComplete(h, old(order), p);
      PushFront(next, prev, h, order, b);
      next := next[b := next[h]];
      prev := prev[b := h];
      prev := prev[next[h] := b];
      next := next[h := b];
      order := [b] + order;
    }
  }

  // b is the recyclable buffer nearest the tail of the list.
  ghost predicate LeastRecent(bufs: seq<Buf>, order: seq<nat>, b: nat) {
    exists p :: 0 <= p < |order| && order[p] == b < |bufs| && Free(bufs[b])
                && forall q :: p < q < |order| && order[q] < |bufs| ==> !Free(bufs[order[q]])
  }

  // Only block numbers of the changed buffer can enter or leave the dirty set.
  lemma DirtyChange(bufs: seq<Buf>, bufs': seq<Buf>, b: nat)
    requires b < |bufs| == |bufs'| && bufs' == bufs[b := bufs'[b]]
    ensures forall c :: c in DirtyBlocks(bufs') && !(bufs'[b].dirty && c == bufs'[b].blockno) ==> c in DirtyBlocks(bufs)
    ensures forall c :: c in DirtyBlocks(bufs) && !(bufs[b].dirty && c == bufs[b].blockno) ==> c in DirtyBlocks(bufs')
  {
    forall c | c in DirtyBlocks(bufs') && !(bufs'[b].dirty && c == bufs'[b].blockno) ensures c in DirtyBlocks(bufs) {
      var i :| 0 <= i < |bufs'| && bufs'[i].dirty && bufs'[i].blockno == c;
      assert bufs[i] == bufs'[i];
    }
    forall c | c in DirtyBlocks(bufs) && !(bufs[b].dirty && c == bufs[b].blockno) ensures c in DirtyBlocks(bufs') {
      var i :| 0 <= i < |bufs| && bufs[i].dirty && bufs[i].blockno == c;
      assert bufs[i] == bufs'[i];
    }
  }

  lemma SameDirty(bufs: seq<Buf>, bufs': seq<Buf>, b: nat)
    requires b < |bufs| == |bufs'| && bufs' == bufs[b := bufs'[b]]
    requires bufs'[b].dirty == bufs[b].dirty && (bufs[b].dirty ==> bufs'[b].blockno == bufs[b].blockno)
    ensures DirtyBlocks(bufs') == DirtyBlocks(bufs)
  {
    DirtyChange(bufs, bufs', b);
  }

  lemma CleanedDirty(bufs: seq<Buf>, bufs': seq<Buf>, b: nat)
    requires Unique(bufs) && b < |bufs| && bufs' == bufs[b := bufs[b].(dirty := false)] && bufs[b].dev == 1
    requires forall i :: 0 <= i < |bufs| && bufs[i].dirty ==> bufs[i].dev == 1
    ensures DirtyBlocks(bufs') == DirtyBlocks(bufs) - {bufs[b].blockno}
  {
    DirtyChange(bufs, bufs', b);
  }
}
