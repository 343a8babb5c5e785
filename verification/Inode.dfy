/**
 What an inode's block map means: which disk blocks it owns, and which byte of the
 file lives where.  All definitions are on values; FileSystem.dfy has the code.
 */
module InodeMap {
  import opened Bitmap
  import opened Kernel

  const BSIZE: nat := 512
  const NDIRECT: nat := 12
  const NINDIRECT: nat := 128       // BSIZE / sizeof(uint)
  const MAXFILE: nat := NDIRECT + NINDIRECT

  type byte = x: int | 0 <= x < 256
  type DataBlock = b: seq<byte> | |b| == BSIZE witness seq(BSIZE, _ => 0)

  function ZeroBytes(n: nat): (z: seq<byte>)
    ensures |z| == n && forall i :: 0 <= i < n ==> z[i] == 0
  {
    if n == 0 then [] else ZeroBytes(n - 1) + [0]
  }

  function ZeroBlock(): DataBlock {
    ZeroBytes(BSIZE)
  }

  // --- a block as an array of little-endian words ------------------------------------

  function Word(b: DataBlock, k: nat): nat
    requires k < NINDIRECT
  {
    var w0: int, w1: int, w2: int, w3: int := b[4 * k], b[4 * k + 1], b[4 * k + 2], b[4 * k + 3];
    w0 + 0x100 * w1 + 0x1_0000 * w2 + 0x100_0000 * w3
  }

  // Byte j of the little-endian representation of v.
  function Digit(v: nat, j: nat): byte {
    if j == 0 then v % 0x100 else Digit(v / 0x100, j - 1)
  }

  function SetWord(b: DataBlock, k: nat, v: nat): DataBlock
    requires k < NINDIRECT && v < UINT
  {
    b[4 * k := Digit(v, 0)][4 * k + 1 := Digit(v, 1)][4 * k + 2 := Digit(v, 2)][4 * k + 3 := Digit(v, 3)]
  }

  lemma Digits(v: nat)
    requires v < UINT
    ensures var d0: int, d1: int, d2: int, d3: int := Digit(v, 0), Digit(v, 1), Digit(v, 2), Digit(v, 3);
            d0 + 0x100 * d1 + 0x1_0000 * d2 + 0x100_0000 * d3 == v
  {
  }

  lemma WordOfSet(b: DataBlock, k: nat, v: nat, j: nat)
    requires k < NINDIRECT && j < NINDIRECT && v < UINT
    ensures Word(SetWord(b, k, v), j) == if j == k then v else Word(b, j)
  {
    Digits(v);
    var b' := SetWord(b, k, v);
    if j != k {
      assert b'[4 * j] == b[4 * j] && b'[4 * j + 1] == b[4 * j + 1];
      assert b'[4 * j + 2] == b[4 * j + 2] && b'[4 * j + 3] == b[4 * j + 3];
    } else {
      assert b'[4 * k] == Digit(v, 0) && b'[4 * k + 1] == Digit(v, 1);
      assert b'[4 * k + 2] == Digit(v, 2) && b'[4 * k + 3] == Digit(v, 3);
    }
  }

  // --- block maps -----------------------------------------------------------------------

  datatype Inode = Inode(kind: nat, nlink: nat, size: nat, addrs: seq<nat>)

  // Slots 0..11 hold data blocks, slot 12 the indirect block, slots 13.. its entries.
  const NSLOTS: nat := NDIRECT + 1 + NINDIRECT

  function SlotOf(bn: nat): nat {
    if bn < NDIRECT then bn else bn + 1
  }

  ghost function Slot(ino: Inode, blocks: seq<DataBlock>, k: nat): nat
    requires |ino.addrs| == NDIRECT + 1 && k < NSLOTS
  {
    if k <= NDIRECT then ino.addrs[k]
    else if ino.addrs[NDIRECT] == 0 || ino.addrs[NDIRECT] >= |blocks| then 0
    else Word(blocks[ino.addrs[NDIRECT]], k - NDIRECT - 1)
  }

  // How much of an inode is mapped: n data blocks, and perhaps the indirect block.
  datatype Extent = Extent(n: nat, ind: bool)

  predicate Mapped(e: Extent, k: nat) {
    if k < NDIRECT then k < e.n else if k == NDIRECT then e.ind else k - 1 < e.n
  }

  // The extent after file block bn has been mapped.
  ghost function MappedTo(e: Extent, bn: nat): Extent {
    Extent(if bn < e.n then e.n else bn + 1, e.ind || bn >= NDIRECT)
  }

  // The extent of a file of this size: every block below the size and no other.
  ghost predicate Exact(e: Extent, size: nat) {
    && size <= e.n * BSIZE
    && (e.n > 0 ==> (e.n - 1) * BSIZE < size)
    && (e.ind <==> e.n > NDIRECT)
  }

  // The disk area in which data blocks live.
  datatype Area = Area(start: nat, size: nat)

  ghost predicate InArea(a: Area, b: nat) {
    a.start <= b < a.size
  }

  // `owner` says which slot of which inode refers to a block.
  type Owner = map<nat, (nat, nat)>

  datatype FS = FS(bits: seq<Bits8>, blocks: seq<DataBlock>, inodes: seq<Inode>, ext: seq<Extent>, owner: Owner)

  ghost predicate Shape(a: Area, s: FS) {
    && 0 < a.start <= a.size < UINT
    && |s.blocks| == a.size && a.size <= 8 * |s.bits|
    && |s.ext| == |s.inodes|
    && (forall i :: 0 <= i < |s.inodes| ==> |s.inodes[i].addrs| == NDIRECT + 1)
    && (forall i :: 0 <= i < |s.ext| ==> s.ext[i].n <= MAXFILE && (s.ext[i].n > NDIRECT ==> s.ext[i].ind))
  }

  // The block in slot k of inode i.
  ghost function Ref(a: Area, s: FS, i: nat, k: nat): nat
    requires Shape(a, s) && i < |s.inodes| && k < NSLOTS
  {
    Slot(s.inodes[i], s.blocks, k)
  }

  ghost predicate SlotsOk(a: Area, s: FS)
    requires Shape(a, s)
  {
    forall i: nat, k: nat :: i < |s.inodes| && k < NSLOTS ==>
      && (Ref(a, s, i, k) != 0 <==> Mapped(s.ext[i], k))
      && (Ref(a, s, i, k) != 0 ==> Ref(a, s, i, k) in s.owner && s.owner[Ref(a, s, i, k)] == (i, k))
  }

  ghost predicate OwnersOk(a: Area, s: FS)
    requires Shape(a, s)
  {
    forall b :: b in s.owner ==>
      && InArea(a, b) && s.owner[b].0 < |s.inodes| && s.owner[b].1 < NSLOTS
      && Ref(a, s, s.owner[b].0, s.owner[b].1) == b
  }

  ghost predicate BitsOk(a: Area, s: FS)
    requires Shape(a, s)
  {
    forall b: nat :: b < a.size ==> (Bit(s.bits, b) <==> b < a.start || b in s.owner)
  }

  // The bitmap is exactly the set of referenced blocks, and each is referenced once.
  ghost predicate Inv(a: Area, s: FS) {
    Shape(a, s) && SlotsOk(a, s) && OwnersOk(a, s) && BitsOk(a, s)
  }

  // --- how the map grows --------------------------------------------------------------------

  ghost predicate Unowned(a: Area, s: FS, b: nat)
    requires Shape(a, s)
  {
    InArea(a, b) && !Bit(s.bits, b)
  }

  // balloc's effect: the bit set, the block zeroed.
  ghost function Taken(a: Area, s: FS, b: nat): FS
    requires Shape(a, s) && b < a.size
  {
    s.(bits := WithBit(s.bits, b, true), blocks := s.blocks[b := ZeroBlock()])
  }

  // Overwriting a block that is not an indirect block leaves every slot alone.
  lemma KeepSlots(a: Area, s: FS, b: nat, v: DataBlock)
    requires Inv(a, s) && b < a.size && (b in s.owner ==> s.owner[b].1 != NDIRECT)
    ensures Shape(a, s.(blocks := s.blocks[b := v]))
    ensures forall i: nat, k: nat :: i < |s.inodes| && k < NSLOTS ==>
              Ref(a, s.(blocks := s.blocks[b := v]), i, k) == Ref(a, s, i, k)
  {
    forall i: nat, k: nat | i < |s.inodes| && k < NSLOTS
      ensures Slot(s.inodes[i], s.blocks[b := v], k) == Slot(s.inodes[i], s.blocks, k)
    {
      var ind := Ref(a, s, i, NDIRECT);
      assert ind != 0 ==> s.owner[ind] == (i, NDIRECT);
    }
  }

  lemma TakenRef(a: Area, s: FS, b: nat, j: nat, k: nat)
    requires Inv(a, s) && Unowned(a, s, b) && j < |s.inodes| && k < NSLOTS
    ensures Slot(s.inodes[j], s.blocks[b := ZeroBlock()], k) == Ref(a, s, j, k)
  {
    KeepSlots(a, s, b, ZeroBlock());
    assert Ref(a, s.(blocks := s.blocks[b := ZeroBlock()]), j, k) == Ref(a, s, j, k);
  }

  // The only change is that slot (i, k) now holds the unowned block b, and the
  // bitmap, the extents and the owners follow.
  ghost predicate Grows(a: Area, s: FS, s': FS, i: nat, k: nat, b: nat) {
    && Shape(a, s) && Shape(a, s') && |s'.inodes| == |s.inodes| && |s'.bits| == |s.bits|
    && i < |s.inodes| && k < NSLOTS && Unowned(a, s, b) && !Mapped(s.ext[i], k)
    && (forall j: nat, l: nat :: j < |s.inodes| && l < NSLOTS ==>
          && Ref(a, s', j, l) == (if j == i && l == k then b else Ref(a, s, j, l))
          && (Mapped(s'.ext[j], l) <==> (j == i && l == k) || Mapped(s.ext[j], l)))
    && s'.owner == s.owner[b := (i, k)]
    && (forall c: nat :: c < a.size ==> (Bit(s'.bits, c) <==> c == b || Bit(s.bits, c)))
    && (forall j: nat :: j < |s.ext| ==> s.ext[j].n <= s'.ext[j].n)
    && (forall c: nat :: c < a.size && c != b && (c in s.owner ==> s.owner[c].1 != NDIRECT) ==> s'.blocks[c] == s.blocks[c])
  }

  // Growing a map keeps the invariant and changes no byte of any file.
  lemma Grown(a: Area, s: FS, s': FS, i: nat, k: nat, b: nat)
    requires Inv(a, s) && Grows(a, s, s', i, k, b)
    ensures Inv(a, s') && SameBytes(a, s, s')
  {
    assert b !in s.owner;
    assert SlotsOk(a, s');
    forall c | c in s'.owner ensures Ref(a, s', s'.owner[c].0, s'.owner[c].1) == c {
      if c != b {
        assert Ref(a, s, s.owner[c].0, s.owner[c].1) == c;
      }
    }
    GrownBytes(a, s, s', i, k, b);
  }

  lemma GrownBytes(a: Area, s: FS, s': FS, i: nat, k: nat, b: nat)
    requires Inv(a, s) && Inv(a, s') && Grows(a, s, s', i, k, b)
    ensures SameBytes(a, s, s')
  {
  }

  // A block taken for the next direct slot of inode i.
  ghost function WithDirect(a: Area, s: FS, i: nat, b: nat): FS
    requires Shape(a, s) && i < |s.inodes| && s.ext[i].n < NDIRECT && b < a.size
  {
    var n := s.ext[i].n;
    Taken(a, s, b).(inodes := s.inodes[i := s.inodes[i].(addrs := s.inodes[i].addrs[n := b])],
                    ext := s.ext[i := MappedTo(s.ext[i], n)],
                    owner := s.owner[b := (i, n)])
  }

  lemma DirectRefs(a: Area, s: FS, i: nat, b: nat, j: nat, k: nat)
    requires Inv(a, s) && i < |s.inodes| && s.ext[i].n < NDIRECT && Unowned(a, s, b)
    requires j < |s.inodes| && k < NSLOTS
    ensures Shape(a, WithDirect(a, s, i, b))
    ensures Ref(a, WithDirect(a, s, i, b), j, k) == if j == i && k == s.ext[i].n then b else Ref(a, s, j, k)
  {
    TakenRef(a, s, b, j, k);
  }

  lemma DirectGrows(a: Area, s: FS, i: nat, b: nat)
    requires Inv(a, s) && i < |s.inodes| && s.ext[i].n < NDIRECT && Unowned(a, s, b)
    ensures Grows(a, s, WithDirect(a, s, i, b), i, s.ext[i].n, b)
  {
    DirectRefs(a, s, i, b, i, 0);
    var s' := WithDirect(a, s, i, b);
    forall j: nat, k: nat | j < |s.inodes| && k < NSLOTS
      ensures Ref(a, s', j, k) == if j == i && k == s.ext[i].n then b else Ref(a, s, j, k)
    {
      DirectRefs(a, s, i, b, j, k);
    }
  }

  lemma AddDirect(a: Area, s: FS, i: nat, b: nat)
    requires Inv(a, s) && i < |s.inodes| && s.ext[i].n < NDIRECT && Unowned(a, s, b)
    ensures Inv(a, WithDirect(a, s, i, b)) && SameBytes(a, s, WithDirect(a, s, i, b))
    ensures Ref(a, WithDirect(a, s, i, b), i, s.ext[i].n) == b
  {
    DirectGrows(a, s, i, b);
    Grown(a, s, WithDirect(a, s, i, b), i, s.ext[i].n, b);
  }

  // A block taken for the indirect block of inode i; its entries are all zero.
  ghost function WithIndirect(a: Area, s: FS, i: nat, b: nat): FS
    requires Shape(a, s) && i < |s.inodes| && b < a.size
  {
    Taken(a, s, b).(inodes := s.inodes[i := s.inodes[i].(addrs := s.inodes[i].addrs[NDIRECT := b])],
                    ext := s.ext[i := s.ext[i].(ind := true)],
                    owner := s.owner[b := (i, NDIRECT)])
  }

  lemma AddIndirect(a: Area, s: FS, i: nat, b: nat)
    requires Inv(a, s) && i < |s.inodes| && !s.ext[i].ind && Unowned(a, s, b)
    ensures Inv(a, WithIndirect(a, s, i, b)) && SameBytes(a, s, WithIndirect(a, s, i, b))
  {
    var s' := WithIndirect(a, s, i, b);
    forall j: nat, k: nat | j < |s.inodes| && k < NSLOTS
      ensures Ref(a, s', j, k) == if j == i && k == NDIRECT then b else Ref(a, s, j, k)
    {
      TakenRef(a, s, b, j, k);
      if j == i && k > NDIRECT {
        assert Word(s'.blocks[b], k - NDIRECT - 1) == 0;
        assert !Mapped(s.ext[i], k);
      }
    }
    assert Grows(a, s, s', i, NDIRECT, b);
    Grown(a, s, s', i, NDIRECT, b);
  }

  // a[k] = v in the indirect block
  function PutEntry(blocks: seq<DataBlock>, ind: nat, k: nat, v: nat): seq<DataBlock>
    requires ind < |blocks| && k < NINDIRECT && v < UINT
  {
    blocks[ind := SetWord(blocks[ind], k, v)]
  }

  // A block taken for the next entry of inode i's indirect block.
  ghost function WithEntry(a: Area, s: FS, i: nat, b: nat): FS
    requires Shape(a, s) && i < |s.inodes| && NDIRECT <= s.ext[i].n < MAXFILE && b < a.size
    requires s.inodes[i].addrs[NDIRECT] < a.size
  {
    var n, ind := s.ext[i].n, s.inodes[i].addrs[NDIRECT];
    Taken(a, s, b).(blocks := PutEntry(s.blocks[b := ZeroBlock()], ind, n - NDIRECT, b),
                    ext := s.ext[i := MappedTo(s.ext[i], n)],
                    owner := s.owner[b := (i, n + 1)])
  }

  lemma EntryRefs(a: Area, s: FS, i: nat, b: nat, j: nat, k: nat)
    requires Inv(a, s) && i < |s.inodes| && s.ext[i].ind && NDIRECT <= s.ext[i].n < MAXFILE && Unowned(a, s, b)
    requires j < |s.inodes| && k < NSLOTS
    ensures s.inodes[i].addrs[NDIRECT] < a.size && Shape(a, WithEntry(a, s, i, b))
    ensures Ref(a, WithEntry(a, s, i, b), j, k) == if j == i && k == s.ext[i].n + 1 then b else Ref(a, s, j, k)
  {
    var ind, n := Ref(a, s, i, NDIRECT), s.ext[i].n;
    assert Mapped(s.ext[i], NDIRECT) && s.owner[ind] == (i, NDIRECT);
    var s' := WithEntry(a, s, i, b);
    if k > NDIRECT {
      var jnd := Ref(a, s, j, NDIRECT);
      assert jnd != 0 ==> s.owner[jnd] == (j, NDIRECT) && jnd != b;
      if j == i {
        WordOfSet(s.blocks[ind], n - NDIRECT, b, k - NDIRECT - 1);
      } else {
        assert jnd != 0 ==> jnd != ind;
      }
    }
  }

  lemma MappedStep(e: Extent, k: nat)
    requires k < NSLOTS && e.n < MAXFILE && (e.n >= NDIRECT ==> e.ind)
    ensures Mapped(MappedTo(e, e.n), k) <==> k == SlotOf(e.n) || Mapped(e, k)
  {
  }

  lemma EntryGrows(a: Area, s: FS, i: nat, b: nat)
    requires Inv(a, s) && i < |s.inodes| && s.ext[i].ind && NDIRECT <= s.ext[i].n < MAXFILE && Unowned(a, s, b)
    ensures s.inodes[i].addrs[NDIRECT] < a.size && s.inodes[i].addrs[NDIRECT] != b
    ensures Grows(a, s, WithEntry(a, s, i, b), i, s.ext[i].n + 1, b)
  {
    EntryRefs(a, s, i, b, i, 0);
    var s' := WithEntry(a, s, i, b);
    forall j: nat, k: nat | j < |s.inodes| && k < NSLOTS
      ensures Ref(a, s', j, k) == if j == i && k == s.ext[i].n + 1 then b else Ref(a, s, j, k)
      ensures Mapped(s'.ext[j], k) <==> (j == i && k == s.ext[i].n + 1) || Mapped(s.ext[j], k)
    {
      EntryRefs(a, s, i, b, j, k);
      MappedStep(s.ext[i], k);
    }
    EntryBlocks(a, s, i, b);
  }

  lemma EntryBlocks(a: Area, s: FS, i: nat, b: nat)
    requires Inv(a, s) && i < |s.inodes| && s.ext[i].ind && NDIRECT <= s.ext[i].n < MAXFILE && Unowned(a, s, b)
    ensures s.inodes[i].addrs[NDIRECT] < a.size && s.inodes[i].addrs[NDIRECT] != b
    ensures forall c: nat :: c < a.size && c != b && (c in s.owner ==> s.owner[c].1 != NDIRECT) ==>
              WithEntry(a, s, i, b).blocks[c] == s.blocks[c]
  {
    assert Mapped(s.ext[i], NDIRECT);
    assert s.owner[Ref(a, s, i, NDIRECT)] == (i, NDIRECT);
  }

  lemma AddEntry(a: Area, s: FS, i: nat, b: nat)
    requires Inv(a, s) && i < |s.inodes| && s.ext[i].ind && NDIRECT <= s.ext[i].n < MAXFILE && Unowned(a, s, b)
    ensures s.inodes[i].addrs[NDIRECT] < a.size && s.inodes[i].addrs[NDIRECT] != b
    ensures Inv(a, WithEntry(a, s, i, b)) && SameBytes(a, s, WithEntry(a, s, i, b))
    ensures Ref(a, WithEntry(a, s, i, b), i, s.ext[i].n + 1) == b
  {
    EntryGrows(a, s, i, b);
    Grown(a, s, WithEntry(a, s, i, b), i, s.ext[i].n + 1, b);
  }

  // --- file contents -------------------------------------------------------------------

  // Byte p of inode i's file lies in a mapped block.
  ghost predicate HasByte(s: FS, i: nat, p: nat) {
    i < |s.ext| && p < s.ext[i].n * BSIZE
  }

  ghost function BlockFor(a: Area, s: FS, i: nat, p: nat): nat
    requires Shape(a, s) && HasByte(s, i, p)
  {
    Ref(a, s, i, SlotOf(p / BSIZE))
  }

  lemma BlockForOk(a: Area, s: FS, i: nat, p: nat)
    requires Inv(a, s) && HasByte(s, i, p)
    ensures BlockFor(a, s, i, p) in s.owner && s.owner[BlockFor(a, s, i, p)] == (i, SlotOf(p / BSIZE))
    ensures InArea(a, BlockFor(a, s, i, p))
  {
  }

  ghost function ByteAt(a: Area, s: FS, i: nat, p: nat): byte
    requires Inv(a, s) && HasByte(s, i, p)
  {
    BlockForOk(a, s, i, p);
    s.blocks[BlockFor(a, s, i, p)][p % BSIZE]
  }

  // Every byte of every file is the same in both states.
  ghost predicate SameBytes(a: Area, s: FS, s': FS)
    requires Inv(a, s) && Inv(a, s')
  {
    forall i: nat, p: nat :: HasByte(s, i, p) ==> HasByte(s', i, p) && ByteAt(a, s', i, p) == ByteAt(a, s, i, p)
  }

  // Overwriting one data block of inode i.
  ghost function WithData(a: Area, s: FS, b: nat, v: DataBlock): FS
    requires Shape(a, s) && b < a.size
  {
    s.(blocks := s.blocks[b := v])
  }

  // It changes the bytes of that block of that file, and no others.
  lemma WriteData(a: Area, s: FS, i: nat, bn: nat, v: DataBlock)
    requires Inv(a, s) && i < |s.inodes| && bn < s.ext[i].n
    ensures var b := Ref(a, s, i, SlotOf(bn));
            && InArea(a, b)
            && Inv(a, WithData(a, s, b, v))
            && forall j: nat, p: nat :: HasByte(s, j, p) ==>
                 ByteAt(a, WithData(a, s, b, v), j, p)
                 == if j == i && p / BSIZE == bn then v[p % BSIZE] else ByteAt(a, s, j, p)
  {
    assert Mapped(s.ext[i], SlotOf(bn));
    var b := Ref(a, s, i, SlotOf(bn));
    KeepSlots(a, s, b, v);
    var s' := WithData(a, s, b, v);
    assert forall j: nat, k: nat :: j < |s.inodes| && k < NSLOTS ==> Ref(a, s', j, k) == Ref(a, s, j, k);
    assert SlotsOk(a, s') && OwnersOk(a, s');
    forall j: nat, p: nat | HasByte(s, j, p)
      ensures ByteAt(a, s', j, p) == if j == i && p / BSIZE == bn then v[p % BSIZE] else ByteAt(a, s, j, p)
    {
      BlockForOk(a, s, j, p);
      BlockForOk(a, s', j, p);
    }
  }

  // memmove(bp->data + k, chunk, |chunk|)
  function Patched(d: DataBlock, k: nat, chunk: seq<byte>): DataBlock
    requires k + |chunk| <= BSIZE
  {
    d[..k] + chunk + d[k + |chunk|..]
  }

  // Writing a chunk inside one block changes exactly those bytes of that file.
  lemma PutBytes(a: Area, s: FS, i: nat, off: nat, chunk: seq<byte>)
    requires Inv(a, s) && i < |s.inodes| && off / BSIZE < s.ext[i].n && off % BSIZE + |chunk| <= BSIZE
    ensures var b := Ref(a, s, i, SlotOf(off / BSIZE));
            && InArea(a, b)
            && var s' := WithData(a, s, b, Patched(s.blocks[b], off % BSIZE, chunk));
               && Inv(a, s')
               && forall j: nat, p: nat :: HasByte(s, j, p) ==>
                    ByteAt(a, s', j, p)
                    == if j == i && off <= p < off + |chunk| then chunk[p - off] else ByteAt(a, s, j, p)
  {
    var bn, k := off / BSIZE, off % BSIZE;
    assert Mapped(s.ext[i], SlotOf(bn));
    var b := Ref(a, s, i, SlotOf(bn));
    assert s.owner[b] == (i, SlotOf(bn));
    var v := Patched(s.blocks[b], k, chunk);
    WriteData(a, s, i, bn, v);
    forall j: nat, p: nat | HasByte(s, j, p)
      ensures ByteAt(a, WithData(a, s, b, v), j, p)
              == if j == i && off <= p < off + |chunk| then chunk[p - off] else ByteAt(a, s, j, p)
    {
      if j == i && p / BSIZE == bn {
        assert ByteAt(a, s, i, p) == s.blocks[b][p % BSIZE];
      }
    }
  }

  // The bytes of one block, as part of the file.
  lemma BlockBytes(a: Area, s: FS, i: nat, off: nat, m: nat)
    requires Inv(a, s) && i < |s.inodes| && off / BSIZE < s.ext[i].n && off % BSIZE + m <= BSIZE
    ensures InArea(a, Ref(a, s, i, SlotOf(off / BSIZE)))
    ensures forall p: nat :: off <= p < off + m ==>
              HasByte(s, i, p) && ByteAt(a, s, i, p) == s.blocks[Ref(a, s, i, SlotOf(off / BSIZE))][off % BSIZE + (p - off)]
  {
  }

  // The first len bytes of inode i's file.
  ghost function FileBytes(a: Area, s: FS, i: nat, len: nat): (f: seq<byte>)
    requires Inv(a, s) && i < |s.ext| && len <= s.ext[i].n * BSIZE
    ensures |f| == len && forall p: nat :: p < len ==> HasByte(s, i, p) && f[p] == ByteAt(a, s, i, p)
  {
    if len == 0 then [] else FileBytes(a, s, i, len - 1) + [ByteAt(a, s, i, len - 1)]
  }

  // What a write of src at off makes of a file.
  function Splice(f: seq<byte>, off: nat, src: seq<byte>): seq<byte>
    requires off <= |f|
  {
    f[..off] + src + (if off + |src| < |f| then f[off + |src|..] else [])
  }
}
