/**
 fs.c between the log and the system calls: the block allocator, the block map and
 byte-range reads and writes of inodes.  `logged` collects the blocks handed to
 log_write since the current transaction began.
 */
module FileSystem {
  import opened Bitmap
  import opened InodeMap
  import opened Kernel

  const BPB: nat := BSIZE * 8       // bitmap bits per block
  const IPB: nat := 8               // inodes per block
  const NOBITS: Bits8 := [false, false, false, false, false, false, false, false]
  const CHUNK: nat := 1536          // ((MAXOPBLOCKS-1-1-2) / 2) * 512

  // What writei's loop keeps track of: the state and the log it started from, the data
  // and bitmap blocks it logged, its turns, and the extent reached.
  datatype Ledger = Ledger(s0: FS, lg0: set<nat>, data: set<nat>, maps: set<nat>, first: nat, turns: nat, e: Extent)

  // Between operations: no holes, no block beyond the size, and the cached inode is the
  // one on disk.
  ghost predicate SettledAt(s: FS, dinodes: seq<Inode>, i: nat) {
    && i < |s.inodes| == |s.ext| == |dinodes|
    && s.inodes[i].size <= MAXFILE * BSIZE
    && (s.inodes[i].kind == 0 ==> s.inodes[i].size == 0)
    && Exact(s.ext[i], s.inodes[i].size)
    && dinodes[i] == s.inodes[i]
  }

  ghost predicate Calm(s: FS, dinodes: seq<Inode>) {
    forall i: nat :: i < |s.inodes| ==> SettledAt(s, dinodes, i)
  }

  // The contents of inode i's file.
  ghost function FileOf(a: Area, s: FS, i: nat): (f: seq<byte>)
    requires Inv(a, s)
    ensures i < |s.inodes| && s.inodes[i].size <= s.ext[i].n * BSIZE ==> |f| == s.inodes[i].size
  {
    if i < |s.inodes| && s.inodes[i].size <= s.ext[i].n * BSIZE then FileBytes(a, s, i, s.inodes[i].size) else []
  }

  // Nothing mapped, nothing owned, only the bits below the data area set.
  lemma EmptyInv(a: Area, s: FS)
    requires Shape(a, s) && s.owner == map[]
    requires forall i :: 0 <= i < |s.inodes| ==> s.inodes[i].addrs == NoAddrs() && s.ext[i] == Extent(0, false)
    requires forall b: nat :: b < a.size ==> (Bit(s.bits, b) <==> b < a.start)
    ensures Inv(a, s)
  {
  }

  // No holes: between operations file block k is mapped exactly if it lies below the size.
  lemma NoHoles(a: Area, s: FS, d: seq<Inode>, i: nat, k: nat)
    requires Inv(a, s) && SettledAt(s, d, i) && k < MAXFILE
    ensures Ref(a, s, i, SlotOf(k)) != 0 <==> k * BSIZE < s.inodes[i].size
  {
  }

  // Block ownership: a bit of the data area is set exactly if some inode refers to the
  // block, and no block is referred to twice.
  lemma OwnedExactlyOnce(a: Area, s: FS, b: nat)
    requires Inv(a, s) && InArea(a, b)
    ensures Bit(s.bits, b) <==> exists i: nat, k: nat :: i < |s.inodes| && k < NSLOTS && Ref(a, s, i, k) == b
    ensures forall i: nat, k: nat, j: nat, l: nat ::
              i < |s.inodes| && k < NSLOTS && j < |s.inodes| && l < NSLOTS && Ref(a, s, i, k) == b && Ref(a, s, j, l) == b
              ==> i == j && k == l
  {
  }

  // --- free blocks --------------------------------------------------------------------------

  // The number of blocks below n whose bits are clear.
  ghost function FreeCount(bits: seq<Bits8>, n: nat): nat
    requires n <= 8 * |bits|
  {
    |FreeSet(bits, n)|
  }

  ghost function FreeSet(bits: seq<Bits8>, n: nat): set<nat>
    requires n <= 8 * |bits|
  {
    set b: nat | b < n && !Bit(bits, b)
  }

  lemma TakeBit(bits: seq<Bits8>, n: nat, b: nat)
    requires n <= 8 * |bits| && b < n && !Bit(bits, b)
    ensures FreeCount(WithBit(bits, b, true), n) == FreeCount(bits, n) - 1
  {
    assert FreeSet(bits, n) == FreeSet(WithBit(bits, b, true), n) + {b};
  }

  lemma NoneFree(bits: seq<Bits8>, n: nat)
    requires n <= 8 * |bits|
    ensures FreeCount(bits, n) == 0 <==> forall b: nat :: b < n ==> Bit(bits, b)
  {
    if b: nat :| b < n && !Bit(bits, b) {
      assert b in FreeSet(bits, n);
    }
  }

  // Every clear bit is that of a data block, and every data block is free or held by a file.
  lemma BlocksConserved(a: Area, s: FS)
    requires Inv(a, s)
    ensures forall b :: b in FreeSet(s.bits, a.size) ==> InArea(a, b) && b !in s.owner
    ensures FreeCount(s.bits, a.size) + |s.owner| == a.size - a.start
  {
    assert Between(a.start, a.size) == FreeSet(s.bits, a.size) + s.owner.Keys;
    assert FreeSet(s.bits, a.size) !! s.owner.Keys;
    assert |s.owner.Keys| == |s.owner|;
  }

  ghost function Between(lo: nat, hi: nat): (s: set<nat>)
    requires lo <= hi
    ensures |s| == hi - lo && forall b :: b in s <==> lo <= b < hi
    decreases hi - lo
  {
    if lo == hi then {} else {lo} + Between(lo + 1, hi)
  }

  // mkfs's balloc: the bitmap of a disk on which only the first blocks are in use.
  method FirstBitmap(used: nat, size: nat) returns (bits: seq<Bits8>)
    requires used <= size
    ensures size <= 8 * |bits|
    ensures forall b: nat :: b < size ==> (Bit(bits, b) <==> b < used)
  {
    bits := seq(size / 8 + 1, _ => NOBITS);
    for b := 0 to used
      invariant |bits| == size / 8 + 1
      invariant forall c: nat :: c < size ==> (Bit(bits, c) <==> c < b)
    {
      bits := WithBit(bits, b, true);
    }
  }

  class FileSys {
    const area: Area                // blocks area.start .. area.size-1 hold file data
    const bmapstart: nat
    const inodestart: nat
    var bits: seq<Bits8>            // the bitmap blocks
    var blocks: seq<DataBlock>      // the data blocks
    var inodes: seq<Inode>          // in-memory inodes
    var dinodes: seq<Inode>         // inodes on disk
    ghost var ext: seq<Extent>
    ghost var owner: Owner
    ghost var logged: set<nat>

    ghost function St(): FS
      reads this
    {
      FS(bits, blocks, inodes, ext, owner)
    }

    ghost predicate Valid()
      reads this
    {
      Inv(area, St()) && |dinodes| == |inodes|
    }

    ghost predicate Settled(i: nat)
      reads this
    {
      SettledAt(St(), dinodes, i)
    }

    ghost predicate AllSettled()
      reads this
    {
      Calm(St(), dinodes)
    }

    // An empty file system as mkfs lays it out: every inode free, and the bits of the boot block,
    // super block, log, inodes and bitmap set.
    constructor (start: nat, size: nat, bmapstart: nat, inodestart: nat, ninodes: nat)
      requires 0 < start <= size < UINT
      ensures Valid() && AllSettled() && area == Area(start, size) && logged == {}
      ensures this.bmapstart == bmapstart && this.inodestart == inodestart
      ensures |inodes| == ninodes && forall i :: 0 <= i < ninodes ==> inodes[i].kind == 0
      ensures forall b: nat :: b < size ==> (Bit(bits, b) <==> b < start)
    {
      var map0 := FirstBitmap(start, size);
      area, this.bmapstart, this.inodestart := Area(start, size), bmapstart, inodestart;
      bits := map0;
      blocks := seq(size, _ => ZeroBlock());
      inodes := seq(ninodes, _ => Inode(0, 0, 0, NoAddrs()));
      dinodes := seq(ninodes, _ => Inode(0, 0, 0, NoAddrs()));
      ext, owner, logged := seq(ninodes, _ => Extent(0, false)), map[], {};
      new;
      EmptyInv(area, St());
    }

    // How many blocks balloc can still hand out.
    ghost function Free(): nat
      requires Shape(area, St())
      reads this
    {
      FreeCount(bits, area.size)
    }

    // balloc: the first free block, zeroed.  Not ok is the panic "out of blocks".
    method Balloc() returns (ok: bool, b: nat)
      requires Shape(area, St())
      modifies this`bits, this`blocks, this`logged
      ensures ok <==> exists c: nat :: c < area.size && !Bit(old(bits), c)
      ensures !ok ==> bits == old(bits) && blocks == old(blocks) && logged == old(logged)
      ensures ok ==> b < area.size && !Bit(old(bits), b) && forall c: nat :: c < b ==> Bit(old(bits), c)
      ensures ok ==> bits == WithBit(old(bits), b, true) && blocks == old(blocks)[b := ZeroBlock()]
      ensures ok ==> logged == old(logged) + {b / BPB + bmapstart, b}
      ensures Shape(area, St()) && (ok <==> old(Free()) > 0) && (ok ==> Free() == old(Free()) - 1)
    {
      ok, b := FindFree();
      NoneFree(bits, area.size);
      if ok {
        TakeBit(bits, area.size, b);
        bits := WithBit(bits, b, true);
        logged := logged + {b / BPB + bmapstart};
        // bzero
        blocks := blocks[b := ZeroBlock()];
        logged := logged + {b};
      }
    }

    // The scan of balloc, one bitmap block at a time.
    method FindFree() returns (ok: bool, b: nat)
      requires Shape(area, St())
      ensures ok ==> b < area.size && !Bit(bits, b) && forall c: nat :: c < b ==> Bit(bits, c)
      ensures !ok ==> forall c: nat :: c < area.size ==> Bit(bits, c)
    {
      var base := 0;
      while base < area.size
        invariant base % BPB == 0
        invariant forall c: nat :: c < base && c < area.size ==> Bit(bits, c)
      {
        ok, b := FindFreeIn(base);
        if ok { return; }
        base := base + BPB;
      }
      return false, 0;
    }

    // The bits of the bitmap block that starts at base.
    method FindFreeIn(base: nat) returns (ok: bool, b: nat)
      requires Shape(area, St()) && base % BPB == 0
      ensures ok ==> base <= b < area.size && !Bit(bits, b) && forall c: nat :: base <= c < b ==> Bit(bits, c)
      ensures !ok ==> forall c: nat :: base <= c < base + BPB && c < area.size ==> Bit(bits, c)
    {
      var bi := 0;
      while bi < BPB && base + bi < area.size
        invariant bi <= BPB
        invariant forall c: nat :: base <= c < base + bi && c < area.size ==> Bit(bits, c)
      {
        BitIndex(base, bi);
        if !bits[base / 8 + bi / 8][bi % 8] {
          return true, base + bi;
        }
        bi := bi + 1;
      }
      return false, 0;
    }

    // bmap: the disk block of file block bn, allocated if it is the next one.  `bm`
    // are the bitmap blocks it logged.
    method Bmap(i: nat, bn: nat) returns (ok: bool, addr: nat, ghost bm: set<nat>)
      requires Valid() && i < |inodes| && bn < MAXFILE && bn <= ext[i].n
      modifies this`bits, this`blocks, this`inodes, this`ext, this`owner, this`logged
      ensures bn < old(ext)[i].n ==> ok && bm == {} && St() == old(St()) && logged == old(logged)
      ensures ok ==> Valid() && SameBytes(area, old(St()), St()) && addr == Ref(area, St(), i, SlotOf(bn))
      ensures ok ==> ext == old(ext)[i := MappedTo(old(ext)[i], bn)]
      ensures ok ==> inodes == old(inodes)[i := old(inodes)[i].(addrs := inodes[i].addrs)]
      ensures ok && old(ext)[i].ind ==> inodes[i].addrs[NDIRECT] == old(inodes)[i].addrs[NDIRECT]
      ensures ok ==> logged <= old(logged) + bm + {addr} + Indirect(inodes[i], bn)
      ensures ok ==> |bm| <= Allocations(old(ext)[i], bn)
      ensures ok <==> old(Free()) >= Allocations(old(ext)[i], bn)
      ensures ok ==> Free() == old(Free()) - Allocations(old(ext)[i], bn)
    {
      bm := {};
      if bn < NDIRECT {
        ok, addr, bm := BmapDirect(i, bn);
        return;
      }
      ok, addr, bm := BmapIndirect(i, bn);
    }

    method BmapDirect(i: nat, bn: nat) returns (ok: bool, addr: nat, ghost bm: set<nat>)
      requires Valid() && i < |inodes| && bn < NDIRECT && bn <= ext[i].n
      modifies this`bits, this`blocks, this`inodes, this`ext, this`owner, this`logged
      ensures bn < old(ext)[i].n ==> ok && bm == {} && St() == old(St()) && logged == old(logged)
      ensures ok ==> Valid() && SameBytes(area, old(St()), St()) && addr == Ref(area, St(), i, bn)
      ensures ok ==> ext == old(ext)[i := MappedTo(old(ext)[i], bn)]
      ensures ok ==> inodes == old(inodes)[i := old(inodes)[i].(addrs := inodes[i].addrs)]
      ensures ok && old(ext)[i].ind ==> inodes[i].addrs[NDIRECT] == old(inodes)[i].addrs[NDIRECT]
      ensures ok ==> logged <= old(logged) + bm + {addr} && |bm| <= if bn < old(ext)[i].n then 0 else 1
      ensures ok <==> old(Free()) >= (if bn < old(ext)[i].n then 0 else 1)
      ensures ok ==> Free() == old(Free()) - (if bn < old(ext)[i].n then 0 else 1)
    {
      ok, bm := true, {};
      addr := inodes[i].addrs[bn];
      assert addr == Ref(area, St(), i, bn);
      assert addr != 0 <==> Mapped(ext[i], bn);
      if addr == 0 {
        ok, addr := AllocDirect(i, bn);
        bm := {addr / BPB + bmapstart};
      }
    }

    method AllocDirect(i: nat, bn: nat) returns (ok: bool, addr: nat)
      requires Valid() && i < |inodes| && bn == ext[i].n < NDIRECT
      modifies this`bits, this`blocks, this`inodes, this`ext, this`owner, this`logged
      ensures ok ==> Valid() && SameBytes(area, old(St()), St()) && addr == Ref(area, St(), i, bn)
      ensures ok ==> ext == old(ext)[i := MappedTo(old(ext)[i], bn)]
      ensures ok ==> inodes == old(inodes)[i := old(inodes)[i].(addrs := old(inodes)[i].addrs[bn := addr])]
      ensures ok ==> logged == old(logged) + {addr / BPB + bmapstart, addr}
      ensures (ok <==> old(Free()) > 0) && (ok ==> Free() == old(Free()) - 1)
    {
      ok, addr := Balloc();
      if ok {
        assert BitsOk(area, old(St())) && Unowned(area, old(St()), addr);
        AddDirect(area, old(St()), i, addr);
        inodes := inodes[i := inodes[i].(addrs := inodes[i].addrs[bn := addr])];
        ext := ext[i := MappedTo(ext[i], bn)];
        owner := owner[addr := (i, bn)];
        assert St() == WithDirect(area, old(St()), i, addr);
      }
    }

    method AllocIndirect(i: nat) returns (ok: bool, addr: nat)
      requires Valid() && i < |inodes| && !ext[i].ind
      modifies this`bits, this`blocks, this`inodes, this`ext, this`owner, this`logged
      ensures ok ==> Valid() && SameBytes(area, old(St()), St())
      ensures ok ==> ext == old(ext)[i := old(ext)[i].(ind := true)]
      ensures ok ==> inodes == old(inodes)[i := old(inodes)[i].(addrs := old(inodes)[i].addrs[NDIRECT := addr])]
      ensures ok ==> logged == old(logged) + {addr / BPB + bmapstart, addr}
      ensures (ok <==> old(Free()) > 0) && (ok ==> Free() == old(Free()) - 1)
    {
      ok, addr := Balloc();
      if ok {
        assert BitsOk(area, old(St())) && Unowned(area, old(St()), addr);
        AddIndirect(area, old(St()), i, addr);
        inodes := inodes[i := inodes[i].(addrs := inodes[i].addrs[NDIRECT := addr])];
        ext := ext[i := ext[i].(ind := true)];
        owner := owner[addr := (i, NDIRECT)];
        assert St() == WithIndirect(area, old(St()), i, addr);
      }
    }

    method AllocEntry(i: nat, ind: nat, bn: nat) returns (ok: bool, addr: nat)
      requires Valid() && i < |inodes| && ext[i].ind && NDIRECT <= bn == ext[i].n < MAXFILE
      requires ind == inodes[i].addrs[NDIRECT]
      modifies this`bits, this`blocks, this`ext, this`owner, this`logged
      ensures ok ==> Valid() && SameBytes(area, old(St()), St())
      ensures ok ==> ext == old(ext)[i := MappedTo(old(ext)[i], bn)]
      ensures ok ==> logged == old(logged) + {addr / BPB + bmapstart, addr, ind} && addr == Ref(area, St(), i, SlotOf(bn))
      ensures (ok <==> old(Free()) > 0) && (ok ==> Free() == old(Free()) - 1)
    {
      ok, addr := Balloc();
      if ok {
        assert BitsOk(area, old(St())) && Unowned(area, old(St()), addr);
        AddEntry(area, old(St()), i, addr);
        ghost var s' := WithEntry(area, old(St()), i, addr);
        blocks := PutEntry(blocks, ind, bn - NDIRECT, addr);
        logged := logged + {ind};
        ext, owner := s'.ext, s'.owner;
        assert blocks == s'.blocks && bits == s'.bits;
        assert St() == s';
      }
    }

    method BmapIndirect(i: nat, bn: nat) returns (ok: bool, addr: nat, ghost bm: set<nat>)
      requires Valid() && i < |inodes| && NDIRECT <= bn < MAXFILE && bn <= ext[i].n
      modifies this`bits, this`blocks, this`inodes, this`ext, this`owner, this`logged
      ensures bn < old(ext)[i].n ==> ok && bm == {} && St() == old(St()) && logged == old(logged)
      ensures ok ==> Valid() && SameBytes(area, old(St()), St()) && addr == Ref(area, St(), i, SlotOf(bn))
      ensures ok ==> ext == old(ext)[i := MappedTo(old(ext)[i], bn)]
      ensures ok ==> inodes == old(inodes)[i := old(inodes)[i].(addrs := inodes[i].addrs)]
      ensures ok && old(ext)[i].ind ==> inodes[i].addrs[NDIRECT] == old(inodes)[i].addrs[NDIRECT]
      ensures ok ==> logged <= old(logged) + bm + {addr} + Indirect(inodes[i], bn)
      ensures ok ==> |bm| <= Allocations(old(ext)[i], bn)
      ensures ok <==> old(Free()) >= Allocations(old(ext)[i], bn)
      ensures ok ==> Free() == old(Free()) - Allocations(old(ext)[i], bn)
    {
      ghost var b1, b2;
      var ind;
      ok, ind, b1 := EnsureIndirect(i);
      if !ok { return false, 0, {}; }
      ghost var mid := St();
      ok, addr, b2 := EnsureEntry(i, ind, bn);
      if !ok { return false, 0, {}; }
      bm := b1 + b2;
      SameBytesTrans(area, old(St()), mid, St());
    }

    method EnsureIndirect(i: nat) returns (ok: bool, ind: nat, ghost bm: set<nat>)
      requires Valid() && i < |inodes|
      modifies this`bits, this`blocks, this`inodes, this`ext, this`owner, this`logged
      ensures old(ext)[i].ind ==> ok && bm == {} && St() == old(St()) && logged == old(logged)
      ensures ok ==> Valid() && SameBytes(area, old(St()), St()) && ind == inodes[i].addrs[NDIRECT]
      ensures ok ==> ext == old(ext)[i := old(ext)[i].(ind := true)]
      ensures ok ==> inodes == old(inodes)[i := old(inodes)[i].(addrs := inodes[i].addrs)]
      ensures ok ==> logged <= old(logged) + bm + {ind}
      ensures ok ==> |bm| <= if old(ext)[i].ind then 0 else 1
      ensures ok <==> old(Free()) >= (if old(ext)[i].ind then 0 else 1)
      ensures ok ==> Free() == old(Free()) - (if old(ext)[i].ind then 0 else 1)
    {
      ok, bm := true, {};
      ind := inodes[i].addrs[NDIRECT];
      IndirectThere(area, St(), i);
      if ind == 0 {
        ok, ind := AllocIndirect(i);
        bm := {ind / BPB + bmapstart};
      }
    }

    method EnsureEntry(i: nat, ind: nat, bn: nat) returns (ok: bool, addr: nat, ghost bm: set<nat>)
      requires Valid() && i < |inodes| && NDIRECT <= bn < MAXFILE && bn <= ext[i].n && ext[i].ind
      requires ind == inodes[i].addrs[NDIRECT]
      modifies this`bits, this`blocks, this`ext, this`owner, this`logged
      ensures bn < old(ext)[i].n ==> ok && bm == {} && St() == old(St()) && logged == old(logged)
      ensures ok ==> Valid() && SameBytes(area, old(St()), St()) && addr == Ref(area, St(), i, SlotOf(bn))
      ensures ok ==> ext == old(ext)[i := MappedTo(old(ext)[i], bn)]
      ensures ok ==> logged <= old(logged) + bm + {addr, ind}
      ensures ok ==> |bm| <= if bn < old(ext)[i].n then 0 else 1
      ensures ok <==> old(Free()) >= (if bn < old(ext)[i].n then 0 else 1)
      ensures ok ==> Free() == old(Free()) - (if bn < old(ext)[i].n then 0 else 1)
    {
      ok, bm := true, {};
      EntryThere(area, St(), i, bn);
      addr := Word(blocks[ind], bn - NDIRECT);
      if addr == 0 {
        ok, addr := AllocEntry(i, ind, bn);
        bm := {addr / BPB + bmapstart};
      }
    }

    // One turn of writei's loop.
    method WriteChunk(i: nat, o: nat, chunk: seq<byte>) returns (ok: bool, ghost addr: nat, ghost bm: set<nat>)
      requires Valid() && i < |inodes| && o / BSIZE < MAXFILE && o / BSIZE <= ext[i].n
      requires 0 < |chunk| <= BSIZE - o % BSIZE
      modifies this`bits, this`blocks, this`inodes, this`ext, this`owner, this`logged
      ensures ok ==> Valid() && Wrote(area, old(St()), St(), i, o, chunk)
      ensures ok ==> AddrsOnly(old(St()), St(), i, MappedTo(old(ext)[i], o / BSIZE))
      ensures ok && o / BSIZE < old(ext)[i].n ==> inodes == old(inodes)
      ensures ok && old(ext)[i].ind ==> inodes[i].addrs[NDIRECT] == old(inodes)[i].addrs[NDIRECT]
      ensures ok ==> logged <= old(logged) + bm + {addr} + Indirect(inodes[i], o / BSIZE)
      ensures ok ==> |bm| <= Allocations(old(ext)[i], o / BSIZE)
      ensures ok <==> old(Free()) >= Allocations(old(ext)[i], o / BSIZE)
      ensures ok ==> Free() == old(Free()) - Allocations(old(ext)[i], o / BSIZE)
    {
      var b;
      ok, b, bm := Bmap(i, o / BSIZE);
      addr := b;
      if !ok { return; }
      ghost var s := St();
      PutBytes(area, s, i, o, chunk);
      blocks := blocks[b := Patched(blocks[b], o % BSIZE, chunk)];
      logged := logged + {b};
      WroteIn(area, old(St()), s, St(), i, o, chunk);
    }

    // writei's loop.
    method WriteBytes(i: nat, off: nat, src: seq<byte>) returns (ok: bool, ghost k: Ledger)
      requires Valid() && i < |inodes| && off <= ext[i].n * BSIZE && off + |src| <= MAXFILE * BSIZE
      modifies this`bits, this`blocks, this`inodes, this`ext, this`owner, this`logged
      ensures ok ==> k.s0 == old(St()) && k.lg0 == old(logged) && Going(k, i, off, src, |src|)
      ensures ok ==> k.first == off / BSIZE
      ensures ok <==> old(Free()) >= BlocksTo(old(ext)[i], off + |src|)
      ensures ok ==> Free() == old(Free()) - BlocksTo(old(ext)[i], off + |src|)
    {
      ok := true;
      var tot := 0;
      k := Ledger(St(), logged, {}, {}, off / BSIZE, 0, ext[i]);
      while tot < |src|
        invariant tot <= |src| && Going(k, i, off, src, tot)
        invariant k.s0 == old(St()) && k.lg0 == old(logged) && k.first == off / BSIZE
      {
        var m;
        ok, m, k := WriteTurn(i, off, src, tot, k);
        if !ok { return; }
        tot := tot + m;
      }
      Reaches(k.s0.ext[i], k.e, off + tot, off + |src|);
    }

    // The state of writei's loop when tot bytes are done.
    ghost predicate Going(k: Ledger, i: nat, off: nat, src: seq<byte>, tot: nat)
      reads this
    {
      && Inv(area, k.s0) && Valid() && i < |inodes| && tot <= |src| && i < |k.s0.ext|
      && Wrote(area, k.s0, St(), i, off, src[..tot])
      && AddrsOnly(k.s0, St(), i, k.e) && Covers(k.s0.ext[i], k.e, off + tot)
      && (k.e == k.s0.ext[i] ==> inodes == k.s0.inodes)
      && Accounted(k.lg0, logged, k.data, k.maps, St(), i)
      && |k.data| <= k.turns && TurnsOk(k.first, off, |src|, tot, k.turns)
      && |k.maps| <= Allocated(k.s0.ext[i], k.e)
      && Free() == FreeCount(k.s0.bits, area.size) - Allocated(k.s0.ext[i], k.e)
    }

    method WriteTurn(i: nat, off: nat, src: seq<byte>, tot: nat, ghost k: Ledger)
      returns (ok: bool, m: nat, ghost k': Ledger)
      requires tot < |src| && off + |src| <= MAXFILE * BSIZE && Going(k, i, off, src, tot)
      modifies this`bits, this`blocks, this`inodes, this`ext, this`owner, this`logged
      ensures ok ==> 0 < m <= |src| - tot && Going(k', i, off, src, tot + m)
      ensures ok ==> k'.s0 == k.s0 && k'.lg0 == k.lg0 && k'.first == k.first
      ensures !ok ==> FreeCount(k.s0.bits, area.size) < BlocksTo(k.s0.ext[i], off + |src|)
    {
      var o, bn := off + tot, (off + tot) / BSIZE;
      m := Min(|src| - tot, BSIZE - o % BSIZE);
      var chunk := src[tot..tot + m];
      assert src[..tot] + chunk == src[..tot + m];
      ghost var s, lg, addr, bm := St(), logged, 0, {};
      k' := k;
      CoverStep(k.s0.ext[i], k.e, bn, o, m);
      Reaches(k.s0.ext[i], MappedTo(k.e, bn), o + m, off + |src|);
      TurnsStep(k.first, off, |src|, tot, m, k.turns);
      ok, addr, bm := WriteChunk(i, o, chunk);
      if !ok { return; }
      WroteMore(area, k.s0, s, St(), i, off, src, tot, o, chunk);
      AddrsStep(k.s0, s, St(), i, k.e, MappedTo(k.e, bn));
      AccountStep(k.lg0, lg, logged, k.data, k.maps, addr, bm, s, St(), i, bn);
      UnionSize(k.data, {addr});
      UnionSize(k.maps, bm);
      k' := Ledger(k.s0, k.lg0, k.data + {addr}, k.maps + bm, k.first, k.turns + 1, MappedTo(k.e, bn));
    }

    // The contents of inode i's file.
    ghost function File(i: nat): seq<byte>
      requires Valid() && Settled(i)
      reads this
    {
      FileOf(area, St(), i)
    }

    // iupdate: write the in-memory inode through to disk.
    method Iupdate(i: nat)
      requires i < |inodes| == |dinodes|
      modifies this`dinodes, this`logged
      ensures dinodes == old(dinodes)[i := inodes[i]]
      ensures logged == old(logged) + {i / IPB + inodestart}
    {
      dinodes := dinodes[i := inodes[i]];
      logged := logged + {i / IPB + inodestart};
    }

    // writei: splice src into the file at off.  Not ok is the panic "out of blocks"; `early` is
    // what has been logged when the loop ends.
    method Writei(i: nat, src: seq<byte>, off: nat) returns (ok: bool, r: int, ghost early: set<nat>)
      requires Valid() && AllSettled() && i < |inodes| && inodes[i].kind != 0
      requires off < UINT && |src| < UINT
      modifies this`bits, this`blocks, this`inodes, this`dinodes, this`ext, this`owner, this`logged
      ensures ok ==> Valid() && |inodes| == |old(inodes)| && AllSettled()
      ensures ok ==> (r < 0 <==> off > old(inodes)[i].size || off + |src| > MAXFILE * BSIZE)
      ensures ok && r < 0 ==> r == -1 && St() == old(St()) && dinodes == old(dinodes) && logged == old(logged)
      ensures ok && r >= 0 ==> r == |src| && File(i) == Splice(old(File(i)), off, src)
      ensures ok && r >= 0 ==> inodes[i] == old(inodes)[i].(size := |File(i)|, addrs := inodes[i].addrs)
      ensures ok ==> forall j: nat :: j < |inodes| && j != i ==>
                inodes[j] == old(inodes)[j] && FileOf(area, St(), j) == FileOf(area, old(St()), j)
      ensures ok && r >= 0 ==> |early - old(logged)| <= LoopCost(old(inodes)[i].size, off, |src|)
      ensures ok && r >= 0 ==>
                logged == early + (if |src| > 0 then InodeBlock(i, old(inodes)[i].size, off + |src|) else {})
      ensures !InRange(old(inodes)[i].size, off, |src|) ==> ok
      ensures InRange(old(inodes)[i].size, off, |src|) ==>
                (ok <==> old(Free()) >= BlocksNeeded(old(inodes)[i].size, off, |src|))
      ensures ok && r >= 0 ==> Free() == old(Free()) - BlocksNeeded(old(inodes)[i].size, off, |src|)
    {
      ok, r, early := true, -1, logged;
      if off > inodes[i].size || Wraps(off, |src|) {
        return;
      }
      if off + |src| > MAXFILE * BSIZE {
        return;
      }
      assert Settled(i);
      ghost var s := St();
      ok, early := WriteAndGrow(i, src, off);
      r := |src|;
      if ok {
        WriteEffect(area, s, old(dinodes), St(), dinodes, i, off, src);
      }
    }

    // writei after its checks: the loop, then the size.
    method WriteAndGrow(i: nat, src: seq<byte>, off: nat) returns (ok: bool, ghost early: set<nat>)
      requires Valid() && i < |inodes| && Settled(i) && off <= inodes[i].size && off + |src| <= MAXFILE * BSIZE
      requires inodes[i].kind != 0
      modifies this`bits, this`blocks, this`inodes, this`dinodes, this`ext, this`owner, this`logged
      ensures ok ==> Valid() && Settled(i) && |inodes| == |old(inodes)|
      ensures ok ==> Wrote(area, old(St()), St(), i, off, src)
      ensures ok ==> inodes[i] == old(inodes)[i].(size := Max(old(inodes)[i].size, off + |src|), addrs := inodes[i].addrs)
      ensures ok ==> forall j :: 0 <= j < |inodes| && j != i ==>
                inodes[j] == old(inodes)[j] && ext[j] == old(ext)[j] && dinodes[j] == old(dinodes)[j]
      ensures ok ==> |early - old(logged)| <= LoopCost(old(inodes)[i].size, off, |src|)
      ensures ok ==> logged == early + (if |src| > 0 then InodeBlock(i, old(inodes)[i].size, off + |src|) else {})
      ensures ok <==> old(Free()) >= BlocksNeeded(old(inodes)[i].size, off, |src|)
      ensures ok ==> Free() == old(Free()) - BlocksNeeded(old(inodes)[i].size, off, |src|)
    {
      ok, early := true, logged;
      NeededTo(ext[i], inodes[i].size, off, |src|);
      if |src| > 0 {
        ghost var k;
        ok, k := WriteBytes(i, off, src);
        if !ok { return; }
        ghost var s, size := St(), inodes[i].size;
        CoversExact(k.s0.ext[i], k.e, size, off, |src|);
        CostBound(k, inodes[i], i, logged, size, off, |src|);
        early := logged;
        assert src[..|src|] == src;
        Grow(i, off + |src|);
        WroteSized(area, k.s0, s, St(), i, off, src);
      }
    }

    ghost function InodeBlock(i: nat, size: nat, end: nat): set<nat> {
      if end > size then {i / IPB + inodestart} else {}
    }

    // The end of writei.
    method Grow(i: nat, end: nat)
      requires Valid() && i < |inodes|
      modifies this`inodes, this`dinodes, this`logged
      ensures Valid() && SameBytes(area, old(St()), St())
      ensures inodes == old(inodes)[i := old(inodes)[i].(size := Max(old(inodes)[i].size, end))]
      ensures end > old(inodes)[i].size ==> dinodes == old(dinodes)[i := inodes[i]]
      ensures end <= old(inodes)[i].size ==> dinodes == old(dinodes)
      ensures logged == old(logged) + InodeBlock(i, old(inodes)[i].size, end)
    {
      if end > inodes[i].size {
        SizeOnly(area, St(), i, end);
        inodes := inodes[i := inodes[i].(size := end)];
        Iupdate(i);
      }
    }

    // bfree: the panic "freeing free block" is its precondition.
    method Bfree(b: nat)
      requires b / 8 < |bits| && Bit(bits, b)
      modifies this`bits, this`logged
      ensures bits == WithBit(old(bits), b, false)
      ensures logged == old(logged) + {b / BPB + bmapstart}
    {
      bits := WithBit(bits, b, false);
      logged := logged + {b / BPB + bmapstart};
    }

    // itrunc: free exactly the blocks of inode i.
    method Itrunc(i: nat)
      requires Valid() && i < |inodes|
      modifies this`bits, this`inodes, this`dinodes, this`ext, this`owner, this`logged
      ensures Valid() && Settled(i) && |inodes| == |old(inodes)|
      ensures inodes[i] == old(inodes)[i].(size := 0, addrs := inodes[i].addrs) && File(i) == []
      ensures forall k :: 0 <= k <= NDIRECT ==> inodes[i].addrs[k] == 0
      ensures forall b: nat :: b < area.size ==>
                (Bit(bits, b) <==> Bit(old(bits), b) && !(b in old(owner) && old(owner)[b].0 == i))
      ensures forall j :: 0 <= j < |inodes| && j != i ==>
                inodes[j] == old(inodes)[j] && ext[j] == old(ext)[j] && dinodes[j] == old(dinodes)[j]
      ensures forall j: nat, p: nat :: j != i && HasByte(old(St()), j, p) ==>
                HasByte(St(), j, p) && ByteAt(area, St(), j, p) == ByteAt(area, old(St()), j, p)
      ensures logged == old(logged) + MapsOf(BlocksOf(old(owner), i), bmapstart) + {i / IPB + inodestart}
    {
      ghost var s0, lg0 := St(), logged;
      FreeDirect(i);
      FreeIndirect(i, s0, lg0);
      AllFreed(area, s0, i);
      ghost var s := St();
      inodes := inodes[i := inodes[i].(size := 0)];
      ext := ext[i := Extent(0, false)];
      owner := OthersOnly(owner, i);
      TruncatedInv(area, s0, s, i, St());
      Iupdate(i);
    }

    // What itrunc does with each slot: if (addr) bfree(addr).
    method FreeSlot(addr: nat, i: nat, ghost s0: FS, ghost lg0: set<nat>, ghost d: Done, ghost d': Done, ghost k: nat)
      requires Inv(area, s0) && Freeing(area, s0, St(), i, d) && k < NSLOTS && addr == Ref(area, s0, i, k)
      requires !FreedSlot(d, k) && forall l: nat :: l < NSLOTS ==> (FreedSlot(d', l) <==> FreedSlot(d, l) || l == k)
      requires logged == lg0 + FreedMaps(s0, i, d, bmapstart)
      modifies this`bits, this`logged
      ensures Freeing(area, s0, St(), i, d') && logged == lg0 + FreedMaps(s0, i, d', bmapstart)
    {
      FreeStep(area, s0, St(), i, d, d', k);
      FreedMapsStep(area, s0, i, d, d', k, bmapstart);
      if addr != 0 {
        Bfree(addr);
      }
    }

    // itrunc's first loop.
    method FreeDirect(i: nat)
      requires Valid() && i < |inodes|
      modifies this`bits, this`inodes, this`logged
      ensures Freeing(area, old(St()), St(), i, Done(NDIRECT, 0, false))
      ensures forall k :: 0 <= k < NDIRECT ==> inodes[i].addrs[k] == 0
      ensures inodes[i].addrs[NDIRECT] == old(inodes)[i].addrs[NDIRECT]
      ensures logged == old(logged) + FreedMaps(old(St()), i, Done(NDIRECT, 0, false), bmapstart)
    {
      ghost var s0 := St();
      NoneFreed(s0, i, bmapstart);
      var n := 0;
      while n < NDIRECT
        invariant n <= NDIRECT && Freeing(area, s0, St(), i, Done(n, 0, false))
        invariant forall k :: 0 <= k < n ==> inodes[i].addrs[k] == 0
        invariant forall k :: n <= k <= NDIRECT ==> inodes[i].addrs[k] == s0.inodes[i].addrs[k]
        invariant logged == old(logged) + FreedMaps(s0, i, Done(n, 0, false), bmapstart)
      {
        var addr := inodes[i].addrs[n];
        FreeSlot(addr, i, s0, old(logged), Done(n, 0, false), Done(n + 1, 0, false), n);
        if addr != 0 {
          inodes := inodes[i := inodes[i].(addrs := inodes[i].addrs[n := 0])];
        }
        n := n + 1;
      }
    }

    // itrunc's second loop: the entries of the indirect block, then the block itself.
    method FreeIndirect(i: nat, ghost s0: FS, ghost lg0: set<nat>)
      requires i < |inodes| && Inv(area, s0) && Freeing(area, s0, St(), i, Done(NDIRECT, 0, false))
      requires inodes[i].addrs[NDIRECT] == s0.inodes[i].addrs[NDIRECT]
      requires forall k :: 0 <= k < NDIRECT ==> inodes[i].addrs[k] == 0
      requires logged == lg0 + FreedMaps(s0, i, Done(NDIRECT, 0, false), bmapstart)
      modifies this`bits, this`inodes, this`logged
      ensures Freeing(area, s0, St(), i, Done(NDIRECT, NINDIRECT, true))
      ensures logged == lg0 + FreedMaps(s0, i, Done(NDIRECT, NINDIRECT, true), bmapstart)
      ensures forall k :: 0 <= k <= NDIRECT ==> inodes[i].addrs[k] == 0
    {
      var ind := inodes[i].addrs[NDIRECT];
      if ind != 0 {
        IndirectThere(area, s0, i);
        FreeEntries(i, ind, s0, lg0);
        FreeSlot(ind, i, s0, lg0, Done(NDIRECT, NINDIRECT, false), Done(NDIRECT, NINDIRECT, true), NDIRECT);
        inodes := inodes[i := inodes[i].(addrs := inodes[i].addrs[NDIRECT := 0])];
      } else {
        NothingIndirect(area, s0, St(), i);
        NoMoreMaps(area, s0, i);
      }
    }

    method FreeEntries(i: nat, ind: nat, ghost s0: FS, ghost lg0: set<nat>)
      requires i < |inodes| && Inv(area, s0) && Freeing(area, s0, St(), i, Done(NDIRECT, 0, false))
      requires ind == s0.inodes[i].addrs[NDIRECT] && 0 < ind < area.size
      requires logged == lg0 + FreedMaps(s0, i, Done(NDIRECT, 0, false), bmapstart)
      modifies this`bits, this`logged
      ensures Freeing(area, s0, St(), i, Done(NDIRECT, NINDIRECT, false))
      ensures logged == lg0 + FreedMaps(s0, i, Done(NDIRECT, NINDIRECT, false), bmapstart)
    {
      var j := 0;
      while j < NINDIRECT
        invariant j <= NINDIRECT && Freeing(area, s0, St(), i, Done(NDIRECT, j, false))
        invariant logged == lg0 + FreedMaps(s0, i, Done(NDIRECT, j, false), bmapstart)
      {
        FreeSlot(Word(blocks[ind], j), i, s0, lg0, Done(NDIRECT, j, false), Done(NDIRECT, j + 1, false), NDIRECT + 1 + j);
        j := j + 1;
      }
    }

    // ialloc: the first free inode on disk becomes an empty file of the given kind.
    // Not ok is the panic "no inodes".
    method Ialloc(kind: nat) returns (ok: bool, i: nat)
      requires Valid() && AllSettled() && kind != 0
      modifies this`inodes, this`dinodes, this`logged
      ensures Valid() && |inodes| == |old(inodes)| && AllSettled()
      ensures ok <==> exists j :: 1 <= j < |old(inodes)| && old(inodes)[j].kind == 0
      ensures !ok ==> St() == old(St()) && dinodes == old(dinodes)
      ensures ok ==> 1 <= i < |inodes| && old(inodes)[i].kind == 0 && forall j :: 1 <= j < i ==> old(inodes)[j].kind != 0
      ensures ok ==> inodes[i].kind == kind && inodes[i].nlink == 0 && File(i) == []
      ensures ok ==> inodes == old(inodes)[i := inodes[i]]
      ensures forall j: nat, p: nat :: HasByte(old(St()), j, p) ==>
                HasByte(St(), j, p) && ByteAt(area, St(), j, p) == ByteAt(area, old(St()), j, p)
    {
      i := 1;
      while i < |dinodes|
        invariant 1 <= i
        invariant forall j :: 1 <= j < i && j < |inodes| ==> inodes[j].kind != 0
      {
        assert Settled(i);
        if dinodes[i].kind == 0 {
          var ino := Inode(kind, 0, 0, NoAddrs());
          FreshInode(area, St(), i, ino);
          dinodes := dinodes[i := ino];
          logged := logged + {i / IPB + inodestart};
          inodes := inodes[i := ino];   // what ilock will read back
          forall j: nat | j < |inodes| ensures SettledAt(St(), dinodes, j) {
            assert SettledAt(old(St()), old(dinodes), j);
          }
          return true, i;
        }
        i := i + 1;
      }
      return false, 0;
    }

    // The part of iput that frees an inode without links or references.
    method FreeInode(i: nat)
      requires Valid() && AllSettled() && i < |inodes|
      modifies this`bits, this`inodes, this`dinodes, this`ext, this`owner, this`logged
      ensures Valid() && |inodes| == |old(inodes)| && AllSettled()
      ensures inodes[i].kind == 0 && File(i) == []
      ensures forall b: nat :: b < area.size ==>
                (Bit(bits, b) <==> Bit(old(bits), b) && !(b in old(owner) && old(owner)[b].0 == i))
      ensures forall j :: 0 <= j < |inodes| && j != i ==> inodes[j] == old(inodes)[j]
      ensures forall j: nat, p: nat :: j != i && HasByte(old(St()), j, p) ==>
                HasByte(St(), j, p) && ByteAt(area, St(), j, p) == ByteAt(area, old(St()), j, p)
      ensures logged == old(logged) + MapsOf(BlocksOf(old(owner), i), bmapstart) + {i / IPB + inodestart}
    {
      Itrunc(i);
      ghost var s := St();
      KindOnly(area, s, i, 0);
      inodes := inodes[i := inodes[i].(kind := 0)];
      Iupdate(i);
      forall j: nat | j < |inodes| ensures SettledAt(St(), dinodes, j) {
        assert SettledAt(old(St()), old(dinodes), j);
      }
    }

    // begin_op and end_op, as far as the file layer is concerned: a transaction must not
    // log more than MAXOPBLOCKS blocks.
    method BeginOp()
      modifies this`logged
      ensures logged == {}
    {
      logged := {};
    }

    method EndOp()
      requires |logged| <= MAXOPBLOCKS
    {
    }

    // One turn of filewrite: the transaction stays within its log reservation, and only its very
    // last log_write, that of the inode, can be the one that uses it up.
    method WriteInTransaction(i: nat, chunk: seq<byte>, off: nat) returns (ok: bool, w: int, ghost early: set<nat>)
      requires Valid() && AllSettled() && Settled(i) && inodes[i].kind != 0
      requires off < UINT && |chunk| <= CHUNK
      modifies this`bits, this`blocks, this`inodes, this`dinodes, this`ext, this`owner, this`logged
      ensures ok ==> Valid() && AllSettled() && |inodes| == |old(inodes)| && Settled(i) && inodes[i].kind != 0
      ensures ok ==> (w < 0 <==> off > old(inodes)[i].size || off + |chunk| > MAXFILE * BSIZE)
      ensures ok && w < 0 ==> FileOf(area, St(), i) == FileOf(area, old(St()), i)
      ensures ok && w >= 0 ==> FileOf(area, St(), i) == Splice(FileOf(area, old(St()), i), off, chunk)
      ensures ok && w >= 0 ==> Transaction(early, logged, i / IPB + inodestart)
      ensures !InRange(old(inodes)[i].size, off, |chunk|) ==> ok && Free() == old(Free())
      ensures InRange(old(inodes)[i].size, off, |chunk|) ==>
                (ok <==> old(Free()) >= BlocksNeeded(old(inodes)[i].size, off, |chunk|))
      ensures ok && w >= 0 ==> Free() == old(Free()) - BlocksNeeded(old(inodes)[i].size, off, |chunk|)
    {
      BeginOp();
      ok, w, early := Writei(i, chunk, off);
      if ok {
        if w >= 0 {
          ChunkFits(old(inodes)[i].size, off, |chunk|);
          assert early - {} == early;
          UnionSize(early, {i / IPB + inodestart});
          SubsetSize(logged, early + {i / IPB + inodestart});
        }
        EndOp();
      }
    }

    // filewrite on an inode: one transaction per chunk.  Returns -1 exactly when the
    // range is out of bounds; what was written by then is a prefix of whole chunks.
    method Filewrite(i: nat, src: seq<byte>, off: nat) returns (ok: bool, r: int, done: nat, ghost chunks: nat)
      requires Valid() && AllSettled() && Settled(i) && inodes[i].kind != 0
      requires off < UINT && |src| < UINT
      modifies this`bits, this`blocks, this`inodes, this`dinodes, this`ext, this`owner, this`logged
      ensures ok ==> Valid() && AllSettled() && |inodes| == |old(inodes)| && done <= |src|
      ensures ok ==> (r == |src| <==> done == |src|) && (r != |src| ==> r == -1)
      ensures ok && |src| > 0 ==> (r < 0 <==> off > old(inodes)[i].size || off + |src| > MAXFILE * BSIZE)
      ensures ok ==> FileOf(area, St(), i) == WrittenSoFar(FileOf(area, old(St()), i), off, src[..done])
      ensures ok && r < 0 ==> done == chunks * CHUNK
      ensures ok ==> done == Writable(old(inodes)[i].size, off, |src|)
      ensures ok <==> old(Free()) >= BlocksNeeded(old(inodes)[i].size, off, Writable(old(inodes)[i].size, off, |src|))
    {
      ghost var f := FileOf(area, St(), i);
      assert WrittenSoFar(f, off, src[..0]) == f && |f| == inodes[i].size;
      ok, done, chunks := WriteChunks(i, src, off, f);
      r := if done == |src| then |src| else -1;
    }

    // filewrite's loop.
    method WriteChunks(i: nat, src: seq<byte>, off: nat, ghost f: seq<byte>)
      returns (ok: bool, done: nat, ghost chunks: nat)
      requires Writing(i, src, off, 0, f) && off < UINT
      modifies this`bits, this`blocks, this`inodes, this`dinodes, this`ext, this`owner, this`logged
      ensures ok ==> |inodes| == |old(inodes)| && Writing(i, src, off, done, f)
      ensures ok && done < |src| ==> done == chunks * CHUNK
      ensures ok && |src| > 0 ==> (done < |src| <==> off > |f| || off + |src| > MAXFILE * BSIZE)
      ensures ok ==> done == Writable(|f|, off, |src|)
      ensures ok <==> old(Free()) >= BlocksNeeded(|f|, off, Writable(|f|, off, |src|))
    {
      ok, done, chunks := true, 0, 0;
      while done < |src|
        invariant done <= |src| && |inodes| == |old(inodes)| && Writing(i, src, off, done, f)
        invariant done > 0 ==> off <= |f| && off + done <= MAXFILE * BSIZE
        invariant done < |src| ==> done == chunks * CHUNK
        invariant done <= Writable(|f|, off, |src|) && Free() == old(Free()) - BlocksNeeded(|f|, off, done)
      {
        NextWritable(|f|, off, |src|, done, chunks);
        var stop;
        ok, done, stop := WriteNext(i, src, off, done, f);
        if !ok { return false, done, 0; }
        if stop {
          break;
        }
        chunks := chunks + 1;
      }
    }

    // filewrite has written src[..done] at off of a file that held f.
    ghost predicate Writing(i: nat, src: seq<byte>, off: nat, done: nat, f: seq<byte>)
      reads this
    {
      && Valid() && AllSettled() && Settled(i) && inodes[i].kind != 0 && done <= |src|
      && FileOf(area, St(), i) == WrittenSoFar(f, off, src[..done])
    }

    // One turn of filewrite's loop.
    method WriteNext(i: nat, src: seq<byte>, off: nat, done: nat, ghost f: seq<byte>)
      returns (ok: bool, done': nat, stop: bool)
      requires Writing(i, src, off, done, f) && done < |src| && off + done < UINT
      modifies this`bits, this`blocks, this`inodes, this`dinodes, this`ext, this`owner, this`logged
      ensures ok ==> |inodes| == |old(inodes)| && Writing(i, src, off, done', f)
      ensures ok ==> (stop <==> off > |f| || off + done + Min(|src| - done, CHUNK) > MAXFILE * BSIZE)
      ensures ok ==> done' == if stop then done else done + Min(|src| - done, CHUNK)
      ensures ok ==> old(Free()) - Free() == BlocksNeeded(|f|, off, done') - BlocksNeeded(|f|, off, done)
      ensures !ok ==> off <= |f| && off + done + Min(|src| - done, CHUNK) <= MAXFILE * BSIZE
      ensures !ok ==> old(Free()) < BlocksNeeded(|f|, off, done + Min(|src| - done, CHUNK)) - BlocksNeeded(|f|, off, done)
    {
      var n1 := Min(|src| - done, CHUNK);
      var chunk := src[done..done + n1];
      ghost var pre, g := src[..done], FileOf(area, St(), i);
      PrefixSnoc(src, done, n1, pre, chunk);
      WrittenNext(f, off, pre, chunk, g, off + done, WrittenSoFar(f, off, pre + chunk));
      WrittenSize(f, off, pre);
      if off <= |f| {
        NeededInTwo(|f|, off, done, n1);
      }
      var w;
      ghost var early;
      ok, w, early := WriteInTransaction(i, chunk, off + done);
      stop := w < 0;
      done' := if stop then done else done + n1;
    }

    // readi: at most n bytes of the file from off; changes nothing.
    method Readi(i: nat, off: nat, n: nat) returns (r: int, dst: seq<byte>)
      requires Valid() && Settled(i) && off < UINT && n < UINT
      modifies this`bits, this`blocks, this`inodes, this`ext, this`owner, this`logged
      ensures St() == old(St()) && logged == old(logged)
      ensures r < 0 <==> off > inodes[i].size || off + n >= UINT
      ensures r < 0 ==> r == -1
      ensures r >= 0 ==> r == Min(n, inodes[i].size - off) && dst == File(i)[off..off + r]
    {
      if off > inodes[i].size || Wraps(off, n) {
        return -1, [];
      }
      var size := inodes[i].size;
      var len := if off + n > size then size - off else n;
      dst := ReadBytes(i, off, len, size);
      return len, dst;
    }

    // What writei has written, readi returns.
    method WriteThenRead(i: nat, src: seq<byte>, off: nat) returns (ok: bool, r: int, back: seq<byte>)
      requires Valid() && AllSettled() && i < |inodes| && inodes[i].kind != 0
      requires off < UINT && |src| < UINT
      modifies this`bits, this`blocks, this`inodes, this`dinodes, this`ext, this`owner, this`logged
      ensures ok ==> (r < 0 <==> off > old(inodes)[i].size || off + |src| > MAXFILE * BSIZE)
      ensures ok && r >= 0 ==> back == src
      ensures InRange(old(inodes)[i].size, off, |src|) ==>
                (ok <==> old(Free()) >= BlocksNeeded(old(inodes)[i].size, off, |src|))
    {
      assert Settled(i);
      ghost var f, early := File(i), {};
      back := [];
      ok, r, early := Writei(i, src, off);
      if ok && r >= 0 {
        assert Settled(i);
        ghost var g := File(i);
        var n;
        n, back := Readi(i, off, |src|);
        ReadBack(f, off, src, g, n, back);
      }
    }

    // readi's loop.
    method ReadBytes(i: nat, off: nat, len: nat, size: nat) returns (dst: seq<byte>)
      requires Valid() && i < |inodes| && off + len <= size <= ext[i].n * BSIZE
      modifies this`bits, this`blocks, this`inodes, this`ext, this`owner, this`logged
      ensures St() == old(St()) && logged == old(logged)
      ensures dst == FileBytes(area, St(), i, size)[off..off + len]
    {
      ghost var f := FileBytes(area, St(), i, size);
      var tot, o := 0, off;
      dst := [];
      while tot < len
        invariant tot <= len && o == off + tot
        invariant St() == old(St()) && logged == old(logged)
        invariant dst == f[off..o]
      {
        var m := Min(len - tot, BSIZE - o % BSIZE);
        var chunk := ReadChunk(i, o, m, size);
        assert f[off..o] + f[o..o + m] == f[off..o + m];
        dst := dst + chunk;
        tot, o := tot + m, o + m;
      }
    }

    // One turn of readi's loop: bmap finds the block mapped, so nothing is allocated.
    method ReadChunk(i: nat, o: nat, m: nat, size: nat) returns (chunk: seq<byte>)
      requires Valid() && i < |inodes| && o + m <= size <= ext[i].n * BSIZE && 0 < m <= BSIZE - o % BSIZE
      modifies this`bits, this`blocks, this`inodes, this`ext, this`owner, this`logged
      ensures St() == old(St()) && logged == old(logged)
      ensures chunk == FileBytes(area, St(), i, size)[o..o + m]
    {
      var _, addr, _ := Bmap(i, o / BSIZE);
      BlockBytes(area, St(), i, o, m);
      chunk := blocks[addr][o % BSIZE..o % BSIZE + m];
    }
  }

  // From s to s', bytes off .. off+|src|-1 of file i became src and no byte of any
  // file changed otherwise.
  ghost predicate Wrote(a: Area, s: FS, s': FS, i: nat, off: nat, src: seq<byte>)
    requires Inv(a, s) && Inv(a, s')
  {
    && (forall j: nat, p: nat :: HasByte(s, j, p) ==> HasByte(s', j, p))
    && (forall j: nat, p: nat :: HasByte(s, j, p) && !(j == i && off <= p < off + |src|) ==>
          ByteAt(a, s', j, p) == ByteAt(a, s, j, p))
    && (forall p: nat :: off <= p < off + |src| ==> HasByte(s', i, p) && ByteAt(a, s', i, p) == src[p - off])
  }

  lemma WroteIn(a: Area, s: FS, mid: FS, s': FS, i: nat, off: nat, chunk: seq<byte>)
    requires Inv(a, s) && Inv(a, mid) && Inv(a, s') && SameBytes(a, s, mid)
    requires i < |mid.inodes| && off / BSIZE < mid.ext[i].n && off % BSIZE + |chunk| <= BSIZE
    requires s'.ext == mid.ext
    requires forall j: nat, p: nat :: HasByte(mid, j, p) ==>
               ByteAt(a, s', j, p) == if j == i && off <= p < off + |chunk| then chunk[p - off] else ByteAt(a, mid, j, p)
    ensures Wrote(a, s, s', i, off, chunk)
  {
  }

  lemma WroteMore(a: Area, s0: FS, s: FS, s': FS, i: nat, off: nat, src: seq<byte>, tot: nat, o: nat, chunk: seq<byte>)
    requires Inv(a, s0) && Inv(a, s) && Inv(a, s') && tot <= |src| && o == off + tot
    requires Wrote(a, s0, s, i, off, src[..tot]) && Wrote(a, s, s', i, o, chunk)
    ensures Wrote(a, s0, s', i, off, src[..tot] + chunk)
  {
    forall p: nat | off <= p < o + |chunk|
      ensures HasByte(s', i, p) && ByteAt(a, s', i, p) == (src[..tot] + chunk)[p - off]
    {
      if p < o {
        assert HasByte(s, i, p) && ByteAt(a, s, i, p) == src[..tot][p - off];
      } else {
        assert ByteAt(a, s', i, p) == chunk[p - o];
      }
    }
  }

  // Of the inodes only i changed, only in its block addresses, and its extent is now e.
  ghost predicate AddrsOnly(s: FS, s': FS, i: nat, e: Extent) {
    && i < |s.inodes| && i < |s.ext| && |s'.inodes| == |s.inodes|
    && s'.ext == s.ext[i := e]
    && s'.inodes == s.inodes[i := s.inodes[i].(addrs := s'.inodes[i].addrs)]
  }

  lemma AddrsStep(s0: FS, s: FS, s': FS, i: nat, e: Extent, e': Extent)
    requires AddrsOnly(s0, s, i, e) && AddrsOnly(s, s', i, e')
    ensures AddrsOnly(s0, s', i, e')
  {
  }

  // Everything logged is a data block, a bitmap block or i's indirect block.
  ghost predicate Accounted(lg0: set<nat>, lg: set<nat>, data: set<nat>, maps: set<nat>, s: FS, i: nat) {
    && i < |s.inodes| && i < |s.ext| && |s.inodes[i].addrs| == NDIRECT + 1
    && lg <= lg0 + data + maps + IndirectOf(s.inodes[i], s.ext[i])
  }

  lemma AccountStep(lg0: set<nat>, lg: set<nat>, lg': set<nat>, data: set<nat>, maps: set<nat>, addr: nat, bm: set<nat>,
                    s: FS, s': FS, i: nat, bn: nat)
    requires Accounted(lg0, lg, data, maps, s, i)
    requires i < |s'.inodes| && i < |s'.ext| && |s'.inodes[i].addrs| == NDIRECT + 1
    requires s'.ext[i] == MappedTo(s.ext[i], bn)
    requires s.ext[i].ind ==> s'.inodes[i].addrs[NDIRECT] == s.inodes[i].addrs[NDIRECT]
    requires lg' <= lg + bm + {addr} + Indirect(s'.inodes[i], bn)
    ensures Accounted(lg0, lg', data + {addr}, maps + bm, s', i)
  {
  }

  lemma UnionSize(a: set<nat>, b: set<nat>)
    ensures |a + b| <= |a| + |b|
  {
  }

  // Starting from extent e, everything below `end` is mapped now, and no block was
  // added without need.
  ghost predicate Covers(e: Extent, e': Extent, end: nat) {
    && e.n <= e'.n && end <= e'.n * BSIZE
    && (e'.n == e.n || (e'.n - 1) * BSIZE < end)
    && (e'.ind <==> e.ind || e'.n > NDIRECT)
  }

  // Mapping the block bn at o covers everything up to o+m inside that block.
  lemma CoverStep(e: Extent, e': Extent, bn: nat, o: nat, m: nat)
    requires Covers(e, e', o) && bn * BSIZE <= o < o + m <= (bn + 1) * BSIZE
    ensures bn <= e'.n && Covers(e, MappedTo(e', bn), o + m)
    ensures Allocated(e, MappedTo(e', bn)) == Allocated(e, e') + Allocations(e', bn)
  {
  }

  // Blocks taken from the bitmap to get from one extent to another.
  ghost function Allocated(e: Extent, e': Extent): int {
    e'.n - e.n + (if e'.ind && !e.ind then 1 else 0)
  }

  // Blocks taken from the bitmap to map everything below `end`.
  ghost function BlocksTo(e: Extent, end: nat): nat {
    var n := Max(e.n, BlocksFor(end));
    n - e.n + (if n > NDIRECT && !e.ind then 1 else 0)
  }

  // The loop never takes more than that, and exactly that when it gets to the end.
  lemma Reaches(e: Extent, e': Extent, end': nat, end: nat)
    requires Covers(e, e', end') && end' <= end
    ensures Allocated(e, e') <= BlocksTo(e, end)
    ensures end' == end ==> Allocated(e, e') == BlocksTo(e, end)
  {
  }

  // The same, from the size of the file and the range written alone.
  function BlocksNeeded(size: nat, off: nat, n: nat): nat {
    var before := BlocksFor(size);
    var after := if n > 0 && off + n > size then BlocksFor(off + n) else before;
    after - before + (if after > NDIRECT && before <= NDIRECT then 1 else 0)
  }

  lemma NeededTo(e: Extent, size: nat, off: nat, n: nat)
    requires Exact(e, size) && off <= size
    ensures BlocksTo(e, off + n) == BlocksNeeded(size, off, n)
  {
    ExactBlocks(e, size);
  }

  // Writing a range in two pieces takes what the whole range takes.
  lemma NeededInTwo(size: nat, off: nat, m: nat, n: nat)
    requires off <= size
    ensures BlocksNeeded(size, off, m + n)
         == BlocksNeeded(size, off, m) + BlocksNeeded(Max(size, off + m), off + m, n)
  {
  }

  // How many file blocks a range of n bytes at off meets.
  function BlocksTouched(off: nat, n: nat): nat {
    if n == 0 then 0 else (off + n - 1) / BSIZE - off / BSIZE + 1
  }

  // The loop has made `turns` turns, starting in block `first`, when tot of n bytes
  // are done.
  ghost predicate TurnsOk(first: nat, off: nat, n: nat, tot: nat, turns: nat) {
    if tot < n then (first + turns) * BSIZE <= off + tot < (first + turns + 1) * BSIZE
    else turns > 0 ==> (first + turns - 1) * BSIZE < off + n
  }

  lemma TurnsStep(first: nat, off: nat, n: nat, tot: nat, m: nat, turns: nat)
    requires tot < n && TurnsOk(first, off, n, tot, turns) && m == Min(n - tot, BSIZE - (off + tot) % BSIZE)
    ensures TurnsOk(first, off, n, tot + m, turns + 1)
  {
  }

  lemma TurnsBound(first: nat, off: nat, n: nat, turns: nat)
    requires TurnsOk(first, off, n, n, turns) && first == off / BSIZE
    ensures turns <= if n == 0 then 1 else BlocksTouched(off, n)
  {
  }

  function BlocksFor(size: nat): nat {
    (size + BSIZE - 1) / BSIZE
  }

  // The most log blocks a write of n bytes at off can use: each block met, each bitmap
  // block of an allocation, the indirect block, and the inode if the file grows.
  function LoopCost(size: nat, off: nat, n: nat): nat {
    if n == 0 then 0
    else
      var before := BlocksFor(size);
      var after := if off + n > size then BlocksFor(off + n) else before;
      BlocksTouched(off, n) + BlocksNeeded(size, off, n) + (if after > NDIRECT then 1 else 0)
  }

  // The same for the whole of writei, which logs the inode's block last.
  function WriteCost(size: nat, off: nat, n: nat): nat {
    LoopCost(size, off, n) + (if n > 0 && off + n > size then 1 else 0)
  }

  // What is mapped after the loop is what the new size needs.
  lemma CoversExact(e: Extent, e': Extent, size: nat, off: nat, n: nat)
    requires Exact(e, size) && off <= size && n > 0 && Covers(e, e', off + n)
    ensures Exact(e', Max(size, off + n))
    ensures off + n <= size ==> e' == e
  {
  }

  lemma ExactBlocks(e: Extent, size: nat)
    requires Exact(e, size)
    ensures e.n == BlocksFor(size)
  {
  }

  lemma CostBound(k: Ledger, ino: Inode, i: nat, lg: set<nat>, size: nat, off: nat, n: nat)
    requires i < |k.s0.ext| && |ino.addrs| == NDIRECT + 1
    requires lg <= k.lg0 + k.data + k.maps + IndirectOf(ino, k.e)
    requires |k.data| <= k.turns && TurnsOk(k.first, off, n, n, k.turns) && k.first == off / BSIZE && n > 0
    requires |k.maps| <= Allocated(k.s0.ext[i], k.e)
    requires Exact(k.s0.ext[i], size) && Exact(k.e, Max(size, off + n)) && off <= size
    ensures |lg - k.lg0| <= LoopCost(size, off, n)
  {
    var ind := IndirectOf(ino, k.e);
    TurnsBound(k.first, off, n, k.turns);
    ExactBlocks(k.s0.ext[i], size);
    ExactBlocks(k.e, Max(size, off + n));
    SubsetSize(lg - k.lg0, k.data + k.maps + ind);
    UnionSize(k.data, k.maps);
    UnionSize(k.data + k.maps, ind);
  }

  // How far itrunc has come: direct blocks and indirect entries freed, and whether the
  // indirect block itself is.
  datatype Done = Done(direct: nat, entries: nat, ind: bool)

  ghost predicate FreedSlot(d: Done, k: nat) {
    if k < NDIRECT then k < d.direct else if k == NDIRECT then d.ind else k - NDIRECT - 1 < d.entries
  }

  ghost predicate Freeing(a: Area, s0: FS, s: FS, i: nat, d: Done) {
    && Shape(a, s0) && Shape(a, s) && |s.bits| == |s0.bits|
    && s.blocks == s0.blocks && s.ext == s0.ext && s.owner == s0.owner
    && i < |s0.inodes| == |s.inodes|
    && s.inodes == s0.inodes[i := s0.inodes[i].(addrs := s.inodes[i].addrs)]
    && forall b: nat :: b < a.size ==>
         (Bit(s.bits, b) <==> Bit(s0.bits, b) && !(b in s0.owner && s0.owner[b].0 == i && FreedSlot(d, s0.owner[b].1)))
  }

  // The next slot to free: its block, if any, still has its bit set.
  lemma FreeStep(a: Area, s0: FS, s: FS, i: nat, d: Done, d': Done, k: nat)
    requires Inv(a, s0) && Freeing(a, s0, s, i, d) && k < NSLOTS && !FreedSlot(d, k)
    requires forall l: nat :: l < NSLOTS ==> (FreedSlot(d', l) <==> FreedSlot(d, l) || l == k)
    ensures var b := Ref(a, s0, i, k);
            if b == 0 then Freeing(a, s0, s, i, d')
            else b < a.size && Bit(s.bits, b) && Freeing(a, s0, s.(bits := WithBit(s.bits, b, false)), i, d')
  {
  }

  lemma NothingIndirect(a: Area, s0: FS, s: FS, i: nat)
    requires Inv(a, s0) && Freeing(a, s0, s, i, Done(NDIRECT, 0, false)) && s0.inodes[i].addrs[NDIRECT] == 0
    ensures Freeing(a, s0, s, i, Done(NDIRECT, NINDIRECT, true))
  {
  }

  // --- what freeing a file logs ------------------------------------------------------------

  ghost function BlocksOf(owner: Owner, i: nat): set<nat> {
    set b | b in owner && owner[b].0 == i
  }

  // The bitmap blocks with the bits of the given blocks.
  ghost function MapsOf(blocks: set<nat>, bmapstart: nat): set<nat> {
    set b | b in blocks :: b / BPB + bmapstart
  }

  ghost function FreedBlocks(s0: FS, i: nat, d: Done): set<nat> {
    set b | b in s0.owner && s0.owner[b].0 == i && FreedSlot(d, s0.owner[b].1)
  }

  ghost function FreedMaps(s0: FS, i: nat, d: Done, bmapstart: nat): set<nat> {
    MapsOf(FreedBlocks(s0, i, d), bmapstart)
  }

  lemma NoneFreed(s0: FS, i: nat, bmapstart: nat)
    ensures FreedMaps(s0, i, Done(0, 0, false), bmapstart) == {}
  {
  }

  lemma AllFreed(a: Area, s0: FS, i: nat)
    requires Inv(a, s0)
    ensures FreedBlocks(s0, i, Done(NDIRECT, NINDIRECT, true)) == BlocksOf(s0.owner, i)
  {
  }

  lemma NoMoreMaps(a: Area, s0: FS, i: nat)
    requires Inv(a, s0) && i < |s0.inodes| && s0.inodes[i].addrs[NDIRECT] == 0
    ensures FreedBlocks(s0, i, Done(NDIRECT, NINDIRECT, true)) == FreedBlocks(s0, i, Done(NDIRECT, 0, false))
  {
  }

  lemma FreedMapsStep(a: Area, s0: FS, i: nat, d: Done, d': Done, k: nat, bmapstart: nat)
    requires Inv(a, s0) && i < |s0.inodes| && k < NSLOTS
    requires forall l: nat :: l < NSLOTS ==> (FreedSlot(d', l) <==> FreedSlot(d, l) || l == k)
    ensures var b := Ref(a, s0, i, k);
            FreedMaps(s0, i, d', bmapstart)
            == FreedMaps(s0, i, d, bmapstart) + (if b == 0 then {} else {b / BPB + bmapstart})
  {
    var b := Ref(a, s0, i, k);
    assert FreedBlocks(s0, i, d') == FreedBlocks(s0, i, d) + (if b == 0 then {} else {b});
  }

  ghost function OthersOnly(owner: Owner, i: nat): Owner {
    map b | b in owner && owner[b].0 != i :: owner[b]
  }

  // The state itrunc leaves, once everything is freed.
  lemma TruncatedInv(a: Area, s0: FS, s: FS, i: nat, s': FS)
    requires Inv(a, s0) && Freeing(a, s0, s, i, Done(NDIRECT, NINDIRECT, true))
    requires forall k :: 0 <= k <= NDIRECT ==> s.inodes[i].addrs[k] == 0
    requires s' == FS(s.bits, s.blocks, s.inodes[i := s.inodes[i].(size := 0)], s.ext[i := Extent(0, false)], OthersOnly(s.owner, i))
    ensures Inv(a, s')
    ensures forall b: nat :: b < a.size ==>
              (Bit(s'.bits, b) <==> Bit(s0.bits, b) && !(b in s0.owner && s0.owner[b].0 == i))
    ensures forall j: nat, p: nat :: j != i && HasByte(s0, j, p) ==>
              HasByte(s', j, p) && ByteAt(a, s', j, p) == ByteAt(a, s0, j, p)
  {
    TruncatedSlots(a, s0, s', i);
    forall j: nat, p: nat | j != i && HasByte(s0, j, p)
      ensures HasByte(s', j, p) && ByteAt(a, s', j, p) == ByteAt(a, s0, j, p)
    {
      BlockForOk(a, s0, j, p);
    }
  }

  lemma TruncatedSlots(a: Area, s0: FS, s': FS, i: nat)
    requires Inv(a, s0) && Shape(a, s') && i < |s0.inodes| == |s'.inodes|
    requires s'.blocks == s0.blocks && s'.owner == OthersOnly(s0.owner, i) && s'.ext == s0.ext[i := Extent(0, false)]
    requires forall j :: 0 <= j < |s0.inodes| && j != i ==> s'.inodes[j] == s0.inodes[j]
    requires forall k :: 0 <= k <= NDIRECT ==> s'.inodes[i].addrs[k] == 0
    ensures SlotsOk(a, s') && OwnersOk(a, s')
    ensures forall j: nat, k: nat :: j < |s0.inodes| && k < NSLOTS && j != i ==> Ref(a, s', j, k) == Ref(a, s0, j, k)
  {
  }

  function NoAddrs(): seq<nat> {
    [0, 0, 0, 0, 0, 0, 0, 0, 0, 0, 0, 0, 0]
  }

  // An inode without blocks can be replaced by another one without blocks.
  lemma FreshInode(a: Area, s: FS, i: nat, ino: Inode)
    requires Inv(a, s) && i < |s.inodes| && s.ext[i] == Extent(0, false) && ino.addrs == NoAddrs()
    ensures Inv(a, s.(inodes := s.inodes[i := ino])) && SameBytes(a, s, s.(inodes := s.inodes[i := ino]))
  {
  }

  // If no slot changes, nothing else does.
  lemma SameRefs(a: Area, s: FS, s': FS)
    requires Inv(a, s) && Shape(a, s') && |s'.inodes| == |s.inodes|
    requires s'.bits == s.bits && s'.blocks == s.blocks && s'.ext == s.ext && s'.owner == s.owner
    requires forall j: nat, k: nat :: j < |s.inodes| && k < NSLOTS ==> Ref(a, s', j, k) == Ref(a, s, j, k)
    ensures Inv(a, s') && SameBytes(a, s, s') && SameBytes(a, s', s)
  {
  }

  lemma KindOnly(a: Area, s: FS, i: nat, kind: nat)
    requires Inv(a, s) && i < |s.inodes|
    ensures var s' := s.(inodes := s.inodes[i := s.inodes[i].(kind := kind)]);
            Inv(a, s') && SameBytes(a, s, s')
  {
    var s' := s.(inodes := s.inodes[i := s.inodes[i].(kind := kind)]);
    assert forall j: nat, k: nat :: j < |s.inodes| && k < NSLOTS ==> Slot(s'.inodes[j], s.blocks, k) == Slot(s.inodes[j], s.blocks, k);
    SameRefs(a, s, s');
  }

  lemma SubsetSize(a: set<nat>, b: set<nat>)
    requires a <= b
    ensures |a| <= |b|
  {
    assert b == a + (b - a);
  }

  // Changing the size of an inode moves no block and no byte.
  lemma SizeOnly(a: Area, s: FS, i: nat, size: nat)
    requires Inv(a, s) && i < |s.inodes|
    ensures var s' := s.(inodes := s.inodes[i := s.inodes[i].(size := size)]);
            Inv(a, s') && SameBytes(a, s, s') && SameBytes(a, s', s)
  {
    var s' := s.(inodes := s.inodes[i := s.inodes[i].(size := size)]);
    assert forall j: nat, k: nat :: j < |s.inodes| && k < NSLOTS ==> Slot(s'.inodes[j], s.blocks, k) == Slot(s.inodes[j], s.blocks, k);
    SameRefs(a, s, s');
  }

  lemma WroteSized(a: Area, s0: FS, s: FS, s': FS, i: nat, off: nat, src: seq<byte>)
    requires Inv(a, s0) && Inv(a, s) && Inv(a, s') && Wrote(a, s0, s, i, off, src) && SameBytes(a, s, s')
    ensures Wrote(a, s0, s', i, off, src)
  {
  }

  // What a write means for whole files.
  lemma WriteEffect(a: Area, s: FS, d: seq<Inode>, s': FS, d': seq<Inode>, i: nat, off: nat, src: seq<byte>)
    requires Inv(a, s) && Calm(s, d) && Inv(a, s') && i < |s.inodes| == |s'.inodes| && |d'| == |d|
    requires off <= s.inodes[i].size && Wrote(a, s, s', i, off, src) && SettledAt(s', d', i)
    requires s'.inodes[i].size == Max(s.inodes[i].size, off + |src|)
    requires forall j :: 0 <= j < |s.inodes| && j != i ==>
               s'.inodes[j] == s.inodes[j] && s'.ext[j] == s.ext[j] && d'[j] == d[j]
    ensures Calm(s', d')
    ensures SettledAt(s, d, i) && FileOf(a, s', i) == Splice(FileOf(a, s, i), off, src)
    ensures forall j: nat :: j < |s.inodes| && j != i ==>
              SettledAt(s, d, j) && SettledAt(s', d', j) && FileOf(a, s', j) == FileOf(a, s, j)
  {
    assert SettledAt(s, d, i);
    SplicedFile(a, s, s', i, s.inodes[i].size, off, src);
    forall j: nat | j < |s.inodes| && j != i
      ensures SettledAt(s, d, j) && SettledAt(s', d', j) && FileOf(a, s', j) == FileOf(a, s, j)
    {
      assert SettledAt(s, d, j);
      OtherFile(a, s, s', i, off, src, j, s.inodes[j].size);
    }
  }

  lemma SplicedFile(a: Area, s: FS, s': FS, i: nat, size: nat, off: nat, src: seq<byte>)
    requires Inv(a, s) && Inv(a, s') && i < |s.ext| && i < |s'.ext| && Wrote(a, s, s', i, off, src) && off <= size
    requires size <= s.ext[i].n * BSIZE && Max(size, off + |src|) <= s'.ext[i].n * BSIZE
    ensures FileBytes(a, s', i, Max(size, off + |src|)) == Splice(FileBytes(a, s, i, size), off, src)
  {
    var f, f' := FileBytes(a, s, i, size), FileBytes(a, s', i, Max(size, off + |src|));
    SpliceAt(f, off, src);
    forall p: nat | p < |f'| ensures f'[p] == Splice(f, off, src)[p] {
      if off <= p < off + |src| {
        assert f'[p] == src[p - off];
      } else {
        assert HasByte(s, i, p);
        assert f'[p] == f[p];
      }
    }
  }

  lemma SpliceAt(f: seq<byte>, off: nat, src: seq<byte>)
    requires off <= |f|
    ensures |Splice(f, off, src)| == Max(|f|, off + |src|)
    ensures forall p: nat :: p < |Splice(f, off, src)| ==>
              Splice(f, off, src)[p] == if off <= p < off + |src| then src[p - off] else f[p]
  {
  }

  lemma OtherFile(a: Area, s: FS, s': FS, i: nat, off: nat, src: seq<byte>, j: nat, len: nat)
    requires Inv(a, s) && Inv(a, s') && j < |s.ext| && j < |s'.ext| && Wrote(a, s, s', i, off, src) && j != i
    requires len <= s.ext[j].n * BSIZE && len <= s'.ext[j].n * BSIZE
    ensures FileBytes(a, s', j, len) == FileBytes(a, s, j, len)
  {
  }

  function Max(a: int, b: int): int {
    if a < b then b else a
  }

  // filewrite's chunk fits one transaction, at any offset up to the size.
  lemma ChunkFits(size: nat, off: nat, n: nat)
    requires off <= size && n <= CHUNK
    ensures CHUNK == (MAXOPBLOCKS - 1 - 1 - 2) / 2 * 512
    ensures LoopCost(size, off, n) < MAXOPBLOCKS && WriteCost(size, off, n) <= MAXOPBLOCKS
  {
  }

  // How much of n bytes at off filewrite writes before it stops: everything, or the whole
  // chunks below the largest file size.
  function Writable(size: nat, off: nat, n: nat): nat {
    if off > size then 0
    else if off + n <= MAXFILE * BSIZE then n
    else if off > MAXFILE * BSIZE then 0
    else (MAXFILE * BSIZE - off) / CHUNK * CHUNK
  }

  // filewrite stops where Writable says, and needs no more blocks than that takes before.
  lemma NextWritable(size: nat, off: nat, n: nat, done: nat, chunks: nat)
    requires done == chunks * CHUNK < n && done <= Writable(size, off, n)
    ensures off > size || off + done + Min(n - done, CHUNK) > MAXFILE * BSIZE ==> done == Writable(size, off, n)
    ensures !(off > size || off + done + Min(n - done, CHUNK) > MAXFILE * BSIZE) ==>
              done + Min(n - done, CHUNK) <= Writable(size, off, n)
              && BlocksNeeded(size, off, done + Min(n - done, CHUNK)) <= BlocksNeeded(size, off, Writable(size, off, n))
  {
  }

  // The bound is met, and one more block per chunk would break it.
  lemma ChunkTight()
    ensures WriteCost(11 * BSIZE + 1, 11 * BSIZE + 1, CHUNK) == MAXOPBLOCKS
    ensures WriteCost(11 * BSIZE + 1, 11 * BSIZE + 1, CHUNK + BSIZE) > MAXOPBLOCKS
  {
  }

  // The file after `pre` has been written at off, if off is not beyond its end.
  ghost function WrittenSoFar(f: seq<byte>, off: nat, pre: seq<byte>): seq<byte> {
    if off <= |f| then Splice(f, off, pre) else f
  }

  lemma WrittenNext(f: seq<byte>, off: nat, pre: seq<byte>, chunk: seq<byte>, g: seq<byte>, o: nat, g': seq<byte>)
    requires g == WrittenSoFar(f, off, pre) && o == off + |pre| && g' == WrittenSoFar(f, off, pre + chunk)
    ensures off <= |f| ==> o <= |g| && g' == Splice(g, o, chunk)
  {
    if off <= |f| {
      SpliceTwice(f, off, pre, chunk);
    }
  }

  lemma WrittenSize(f: seq<byte>, off: nat, pre: seq<byte>)
    ensures off + |pre| > |WrittenSoFar(f, off, pre)| <==> off > |f|
    ensures off <= |f| ==> |WrittenSoFar(f, off, pre)| == Max(|f|, off + |pre|)
  {
  }

  lemma PrefixSnoc(src: seq<byte>, done: nat, n: nat, pre: seq<byte>, chunk: seq<byte>)
    requires done + n <= |src| && pre == src[..done] && chunk == src[done..done + n]
    ensures pre + chunk == src[..done + n]
  {
  }

  lemma SpliceTwice(f: seq<byte>, off: nat, a: seq<byte>, b: seq<byte>)
    requires off <= |f|
    ensures off + |a| <= |Splice(f, off, a)|
    ensures Splice(Splice(f, off, a), off + |a|, b) == Splice(f, off, a + b)
  {
  }

  // Reading back what was written.
  lemma SpliceReadBack(f: seq<byte>, off: nat, src: seq<byte>)
    requires off <= |f|
    ensures |Splice(f, off, src)| >= off + |src| && Splice(f, off, src)[off..off + |src|] == src
  {
  }

  lemma ReadBack(f: seq<byte>, off: nat, src: seq<byte>, g: seq<byte>, n: int, back: seq<byte>)
    requires off <= |f| && g == Splice(f, off, src) && 0 <= n == Min(|src|, |g| - off) && back == g[off..off + n]
    ensures back == src
  {
    SpliceReadBack(f, off, src);
  }

  ghost function IndirectOf(ino: Inode, e: Extent): set<nat>
    requires |ino.addrs| == NDIRECT + 1
  {
    if e.ind then {ino.addrs[NDIRECT]} else {}
  }

  lemma SameBytesTrans(a: Area, s1: FS, s2: FS, s3: FS)
    requires Inv(a, s1) && Inv(a, s2) && Inv(a, s3) && SameBytes(a, s1, s2) && SameBytes(a, s2, s3)
    ensures SameBytes(a, s1, s3)
  {
  }

  lemma IndirectThere(a: Area, s: FS, i: nat)
    requires Inv(a, s) && i < |s.inodes|
    ensures s.ext[i].ind <==> s.inodes[i].addrs[NDIRECT] != 0
    ensures s.ext[i].ind ==> s.inodes[i].addrs[NDIRECT] < a.size
  {
    assert Ref(a, s, i, NDIRECT) == s.inodes[i].addrs[NDIRECT];
    assert Mapped(s.ext[i], NDIRECT) == s.ext[i].ind;
  }

  lemma EntryThere(a: Area, s: FS, i: nat, bn: nat)
    requires Inv(a, s) && i < |s.inodes| && s.ext[i].ind && NDIRECT <= bn < MAXFILE
    ensures s.inodes[i].addrs[NDIRECT] < a.size
    ensures Word(s.blocks[s.inodes[i].addrs[NDIRECT]], bn - NDIRECT) == Ref(a, s, i, SlotOf(bn))
    ensures Ref(a, s, i, SlotOf(bn)) != 0 <==> bn < s.ext[i].n
  {
    IndirectThere(a, s, i);
    assert Mapped(s.ext[i], bn + 1) <==> bn < s.ext[i].n;
  }

  // The ranges that writei accepts.
  predicate InRange(size: nat, off: nat, n: nat) {
    off <= size && off + n <= MAXFILE * BSIZE
  }

  // off + n < off, in 32-bit arithmetic
  predicate Wraps(off: nat, n: nat)
    requires off < UINT && n < UINT
    ensures Wraps(off, n) <==> off + n >= UINT
  {
    (off + n) % UINT < off
  }

  function Min(a: int, b: int): int {
    if a < b then a else b
  }

  ghost function Indirect(ino: Inode, bn: nat): set<nat>
    requires |ino.addrs| == NDIRECT + 1
  {
    if bn >= NDIRECT then {ino.addrs[NDIRECT]} else {}
  }

  // How many blocks bmap takes from the bitmap.
  ghost function Allocations(e: Extent, bn: nat): nat {
    (if bn < e.n then 0 else 1) + (if bn >= NDIRECT && !e.ind then 1 else 0)
  }

  // data[bi/8] of bitmap block base/BPB is byte (base+bi)/8 of the whole map.
  lemma BitIndex(base: nat, bi: nat)
    requires base % BPB == 0 && bi < BPB
    ensures (base + bi) / 8 == base / 8 + bi / 8 && (base + bi) % 8 == bi % 8
  {
  }
}
