/**
 Address spaces: the physical page allocator, two-level page tables, and the operations that
 build, copy and tear down the user part.  Addresses are counted in pages; page number
 i * 1024 + j has its entry at index j of the table at index i of the directory.
 */
module Vm {

  import opened Kernel

  const NENTRIES := 1024         // NPDENTRIES and NPTENTRIES
  const KERNDIR := 512           // PDX(KERNBASE): directory entries from here on are the kernel's
  const PGSIZE := 4096
  const KERNBASE := 0x8000_0000

  const FLAGS_WU := 6            // PTE_W|PTE_U

  datatype Entry = Absent | Present(frame: nat, flags: nat)

  // What a frame of physical memory holds.
  datatype Frame = Junk | Table(e: seq<Entry>) | Data(bytes: seq<int>)

  // Who a frame belongs to; Other: a part of the kernel that is not modelled, or the caller.
  datatype Owner = Free | Dir | Tab(d: nat, i: nat) | User(d: nat, i: nat, j: nat) | Other

  type Memory = map<nat, Frame>
  type Owners = map<nat, Owner>

  // --- the invariant --------------------------------------------------------------------------

  ghost predicate IsTable(mem: Memory, f: nat) {
    f in mem && mem[f].Table? && |mem[f].e| == NENTRIES
  }

  ghost predicate DirOk(mem: Memory, own: Owners, f: nat) {
    && IsTable(mem, f)
    && forall i :: 0 <= i < NENTRIES && mem[f].e[i].Present? ==>
         mem[f].e[i].frame in own && own[mem[f].e[i].frame] == Tab(f, i)
  }

  ghost predicate TabOk(mem: Memory, own: Owners, f: nat, d: nat, i: nat) {
    && IsTable(mem, f) && IsTable(mem, d) && d in own && own[d].Dir?
    && i < NENTRIES && mem[d].e[i].Present? && mem[d].e[i].frame == f
    && (i < KERNDIR ==> forall j :: 0 <= j < NENTRIES && mem[f].e[j].Present? ==>
          mem[f].e[j].frame in own && own[mem[f].e[j].frame] == User(d, i, j))
  }

  ghost predicate UserOk(mem: Memory, own: Owners, f: nat, d: nat, i: nat, j: nat) {
    && f in mem && mem[f].Data? && IsTable(mem, d) && d in own && own[d].Dir?
    && i < KERNDIR && j < NENTRIES && mem[d].e[i].Present?
    && IsTable(mem, mem[d].e[i].frame) && mem[mem[d].e[i].frame].e[j].Present?
    && mem[mem[d].e[i].frame].e[j].frame == f
  }

  // Directory entries, table entries and owners agree.
  ghost predicate FrameOk(mem: Memory, own: Owners, f: nat)
    requires f in own
  {
    match own[f]
    case Dir => DirOk(mem, own, f)
    case Tab(d, i) => TabOk(mem, own, f, d, i)
    case User(d, i, j) => UserOk(mem, own, f, d, i, j)
    case Free => true
    case Other => true
  }

  ghost predicate AllOk(mem: Memory, own: Owners) {
    forall f :: f in own ==> FrameOk(mem, own, f)
  }

  ghost predicate ListOk(free: seq<nat>, own: Owners) {
    && (forall f :: f in own ==> (own[f].Free? <==> f in free))
    && (forall f :: f in free ==> f in own)
    && (forall a, b :: 0 <= a < b < |free| ==> free[a] != free[b])
  }

  // --- what an address space is ------------------------------------------------------------------

  // The entry for page (i, j), as the hardware finds it.
  function Lookup(mem: Memory, d: nat, i: nat, j: nat): Entry {
    if d in mem && mem[d].Table? && i < |mem[d].e| && mem[d].e[i].Present? then
      var t := mem[d].e[i].frame;
      if t in mem && mem[t].Table? && j < |mem[t].e| then mem[t].e[j] else Absent
    else Absent
  }

  ghost predicate Mine(o: Owner, f: nat, d: nat) {
    (o.Dir? && f == d) || (o.Tab? && o.d == d) || (o.User? && o.d == d)
  }

  // Nothing that belongs to anybody but d has changed, apart from the frames in x.
  ghost predicate OthersKept(mem: Memory, own: Owners, mem': Memory, own': Owners, d: nat, x: set<nat>) {
    && own'.Keys == own.Keys
    && forall f :: f in own && !own[f].Free? && !Mine(own[f], f, d) && f !in x ==>
         own'[f] == own[f] && (f in mem ==> f in mem' && mem'[f] == mem[f])
  }

  // The user part of d is mapped as before, with the same contents.
  ghost predicate UserKept(mem: Memory, own: Owners, mem': Memory, own': Owners, d: nat) {
    && (forall i, j :: 0 <= i < KERNDIR && 0 <= j < NENTRIES ==> Lookup(mem', d, i, j) == Lookup(mem, d, i, j))
    && (forall f :: f in own && f in own' && (own[f].User? || own'[f].User?) ==>
          own'[f] == own[f] && f in mem && f in mem' && mem'[f] == mem[f])
  }

  // --- steps -----------------------------------------------------------------------------------

  // A free frame, or one the caller holds, is in no table.
  lemma RelabelOk(mem: Memory, own: Owners, f: nat, o: Owner, page: Frame)
    requires AllOk(mem, own) && f in own && (own[f].Free? || own[f].Other?) && (o.Free? || o.Other?)
    ensures AllOk(mem[f := page], own[f := o])
  {
  }

  function NewTable(): (r: Frame)
    ensures r.Table? && |r.e| == NENTRIES && forall i :: 0 <= i < NENTRIES ==> r.e[i].Absent?
  {
    Table(seq(NENTRIES, _ => Absent))
  }

  function Put(page: Frame, i: nat, e: Entry): Frame
    requires page.Table? && i < |page.e|
  {
    Table(page.e[i := e])
  }

  // walkpgdir adds table t at index i of directory d.
  lemma AddTableOk(mem: Memory, own: Owners, d: nat, i: nat, t: nat, flags: nat)
    requires AllOk(mem, own) && d in own && own[d].Dir? && t in own && own[t].Other? && i < NENTRIES
    requires IsTable(mem, d) && mem[d].e[i].Absent?
    ensures AllOk(mem[t := NewTable()][d := Put(mem[d], i, Present(t, flags))], own[t := Tab(d, i)])
  {
  }

  // mappages enters frame f for user page (i, j).
  lemma AddUserOk(mem: Memory, own: Owners, d: nat, i: nat, j: nat, t: nat, f: nat, perm: nat)
    requires AllOk(mem, own) && t in own && own[t] == Tab(d, i) && i < KERNDIR && j < NENTRIES
    requires f in own && own[f].Other? && f in mem && mem[f].Data?
    requires IsTable(mem, t) && mem[t].e[j].Absent?
    ensures AllOk(mem[t := Put(mem[t], j, Present(f, perm))], own[f := User(d, i, j)])
  {
  }

  lemma AddKernelOk(mem: Memory, own: Owners, d: nat, i: nat, j: nat, t: nat, e: Entry)
    requires AllOk(mem, own) && t in own && own[t] == Tab(d, i) && KERNDIR <= i && j < NENTRIES && IsTable(mem, t)
    ensures AllOk(mem[t := Put(mem[t], j, e)], own)
  {
  }

  // deallocuvm frees frame f of user page (i, j) and clears the entry.
  lemma DropUserOk(mem: Memory, own: Owners, d: nat, i: nat, j: nat, t: nat, f: nat)
    requires AllOk(mem, own) && t in own && own[t] == Tab(d, i) && i < KERNDIR && j < NENTRIES
    requires IsTable(mem, t) && mem[t].e[j].Present? && mem[t].e[j].frame == f && f in own && own[f] == User(d, i, j)
    ensures AllOk(mem[f := Junk][t := Put(mem[t], j, Absent)], own[f := Free])
  {
  }

  // What changing one entry of table t does to the lookups in its address space.
  lemma LookupAfter(mem: Memory, own: Owners, mem': Memory, d: nat, i: nat, j: nat, t: nat, e: Entry, x: nat, y: nat)
    requires AllOk(mem, own) && t in own && own[t] == Tab(d, i) && j < NENTRIES && IsTable(mem, t) && d in own && own[d].Dir?
    requires IsTable(mem', t) && IsTable(mem, d) && IsTable(mem', d) && mem'[d] == mem[d] && mem'[t] == Put(mem[t], j, e)
    requires forall g :: g in own && own[g].Tab? && g != t && g in mem ==> g in mem' && mem'[g] == mem[g]
    requires x < NENTRIES && y < NENTRIES
    ensures Lookup(mem', d, x, y) == if x == i && y == j then e else Lookup(mem, d, x, y)
  {
  }

  ghost function Descending(lo: nat, hi: nat): seq<nat> {
    if hi <= lo then [] else [hi - 1] + Descending(lo, hi - 1)
  }

  function KernelOwned(total: nat): (r: Owners)
    ensures forall f: nat :: (f in r <==> f < total) && (f in r ==> r[f].Other?)
  {
    if total == 0 then map[] else KernelOwned(total - 1)[total - 1 := Other]
  }

  // Frames lo .. hi-1 have been put on the list, and nothing else has changed.
  ghost predicate Listed(free0: seq<nat>, mem0: Memory, own0: Owners, free: seq<nat>, mem: Memory, own: Owners,
                         lo: nat, hi: nat)
  {
    && own.Keys == own0.Keys && free == Descending(lo, hi) + free0
    && (forall f :: f in own ==> own[f] == if lo <= f < hi then Free else own0[f])
    && (forall f :: f in mem0 && !(lo <= f < hi) ==> f in mem && mem[f] == mem0[f])
  }

  lemma NoneLeft(free0: seq<nat>, mem0: Memory, own0: Owners, free: seq<nat>, mem: Memory, own: Owners,
                 lo: nat, at: nat, hi: nat)
    requires Listed(free0, mem0, own0, free, mem, own, lo, at) && (at == hi || (hi <= at == lo))
    ensures Listed(free0, mem0, own0, free, mem, own, lo, hi)
  {
  }

  class Pages {
    var free: seq<nat>         // kmem.freelist
    var mem: Memory
    ghost var own: Owners

    ghost predicate Valid()
      reads this
    {
      ListOk(free, own) && AllOk(mem, own)
    }

    ghost predicate IsDir(d: nat)
      reads this
    {
      d in own && own[d].Dir?
    }

    // Before kinit1: the list is empty and every frame below `total` belongs to the kernel.
    constructor (ghost total: nat)
      ensures Valid() && free == [] && mem == map[] && own == KernelOwned(total)
    {
      free, mem, own := [], map[], KernelOwned(total);
    }

    // freerange, on byte addresses: the whole pages in vstart .. vend-1 go on the list, highest first.
    method Freerange(vstart: nat, vend: nat)
      requires Valid()
      requires forall f: nat :: NPages(vstart) <= f < vend / PGSIZE ==> f in own && own[f].Other?
      modifies this
      ensures Valid() && Listed(old(free), old(mem), old(own), free, mem, own, NPages(vstart), vend / PGSIZE)
    {
      ghost var lo := NPages(vstart);
      var p := NPages(vstart) * PGSIZE;
      assert Descending(lo, lo) + free == free;
      while p + PGSIZE <= vend
        invariant Valid() && p % PGSIZE == 0 && lo <= p / PGSIZE
        invariant p / PGSIZE <= vend / PGSIZE || p / PGSIZE == lo
        invariant Listed(old(free), old(mem), old(own), free, mem, own, lo, p / PGSIZE)
      {
        FreeNext(p / PGSIZE, lo, old(free), old(mem), old(own));
        p := p + PGSIZE;
      }
      NoneLeft(old(free), old(mem), old(own), free, mem, own, lo, p / PGSIZE, vend / PGSIZE);
    }

    method FreeNext(f: nat, ghost lo: nat, ghost free0: seq<nat>, ghost mem0: Memory, ghost own0: Owners)
      requires Valid() && Listed(free0, mem0, own0, free, mem, own, lo, f) && lo <= f && f in own0 && own0[f].Other?
      modifies this
      ensures Valid() && Listed(free0, mem0, own0, free, mem, own, lo, f + 1)
    {
      RelabelOk(mem, own, f, Free, Junk);
      Kfree(f);
      assert [f] + (Descending(lo, f) + free0) == Descending(lo, f + 1) + free0;
    }

    method Kalloc() returns (r: Option<nat>)
      requires ListOk(free, own)
      modifies this`free, this`own
      ensures ListOk(free, own)
      ensures r.None? <==> old(free) == []
      ensures r.None? ==> free == old(free) && own == old(own)
      ensures r.Some? ==> r.value in old(own) && old(own)[r.value].Free? && own == old(own)[r.value := Other]
      ensures r.Some? ==> |free| == |old(free)| - 1
    {
      if free == [] {
        return None;
      }
      var f := free[0];
      assert free[1..] + [] == free[1..] && f in free;
      free, own := free[1..], own[f := Other];
      r := Some(f);
    }

    // The frame must not be free already.
    method Kfree(f: nat)
      requires ListOk(free, own) && f in own && !own[f].Free?
      modifies this
      ensures ListOk(free, own) && free == [f] + old(free)
      ensures mem == old(mem)[f := Junk] && own == old(own)[f := Free]
    {
      free, mem, own := [f] + free, mem[f := Junk], own[f := Free];
    }

    // walkpgdir: the table for directory index i, made if it is missing and alloc is set.
    method Walk(d: nat, i: nat, alloc: bool) returns (r: Option<nat>)
      requires Valid() && IsDir(d) && i < NENTRIES
      modifies this
      ensures Valid() && IsDir(d) && OthersKept(old(mem), old(own), mem, own, d, {})
      ensures r.Some? ==> r.value in own && own[r.value] == Tab(d, i)
      ensures forall x, y :: 0 <= x < NENTRIES && 0 <= y < NENTRIES ==> Lookup(mem, d, x, y) == Lookup(old(mem), d, x, y)
      ensures UserKept(old(mem), old(own), mem, own, d)
      ensures r.None? || !alloc ==> free == old(free) && mem == old(mem) && own == old(own)
      ensures r.None? ==> (alloc ==> free == []) && forall y :: 0 <= y < NENTRIES ==> Lookup(mem, d, i, y).Absent?
      ensures forall f :: f in own && own[f] != old(own)[f] ==> old(own)[f].Free? && own[f] == Tab(d, i)
      ensures r.None? <==> !HasTable(old(mem), d, i) && (alloc ==> old(free) == [])
      ensures r.Some? ==> OneTable(old(free), old(mem), free, mem, d, i, 0)
    {
      assert FrameOk(mem, own, d);
      if mem[d].e[i].Present? {
        return Some(mem[d].e[i].frame);
      }
      if !alloc {
        return None;
      }
      var t := Kalloc();
      if t.None? {
        return None;
      }
      RelabelOk(mem, old(own), t.value, Other, Junk);
      AddTable(d, i, t.value);
      r := t;
    }

    method AddTable(d: nat, i: nat, t: nat)
      requires ListOk(free, own) && AllOk(mem[t := Junk], own) && IsDir(d) && i < NENTRIES
      requires t in own && own[t].Other? && IsTable(mem, d) && mem[d].e[i].Absent?
      modifies this`mem, this`own
      ensures Valid() && own == old(own)[t := Tab(d, i)]
      ensures mem == old(mem)[t := NewTable()][d := Put(old(mem)[d], i, Present(t, 7))]
      ensures SameTables(old(mem), mem, d, {i})
      ensures forall x, y :: 0 <= x < NENTRIES && 0 <= y < NENTRIES ==> Lookup(mem, d, x, y) == Lookup(old(mem), d, x, y)
    {
      ghost var m0 := mem[t := Junk];
      AddTableOk(m0, own, d, i, t, 7);
      mem := mem[t := NewTable()];
      mem := mem[d := Put(mem[d], i, Present(t, 7))];
      assert mem == m0[t := NewTable()][d := Put(m0[d], i, Present(t, 7))];
      forall x, y | 0 <= x < NENTRIES && 0 <= y < NENTRIES ensures Lookup(mem, d, x, y) == Lookup(old(mem), d, x, y) {
        assert FrameOk(m0, own, d);
      }
      own := own[t := Tab(d, i)];
    }

    // mappages for one user page, whose frame the caller has allocated and filled.
    method MapPage(d: nat, i: nat, j: nat, f: nat, perm: nat) returns (ok: bool)
      requires Valid() && IsDir(d) && i < KERNDIR && j < NENTRIES && Lookup(mem, d, i, j).Absent?
      requires f in own && own[f].Other? && f in mem && mem[f].Data?
      modifies this
      ensures Valid() && IsDir(d) && OthersKept(old(mem), old(own), mem, own, d, if ok then {f} else {})
      ensures !ok ==> free == old(free) == [] && mem == old(mem) && own == old(own)
      ensures ok ==> Entered(old(mem), old(own), mem, own, d, i, j, f, perm)
      ensures forall g :: g in own && own[g] != old(own)[g] && g != f ==> old(own)[g].Free? && Mine(own[g], g, d)
      ensures ok <==> HasTable(old(mem), d, i) || old(free) != []
      ensures ok ==> OneTable(old(free), old(mem), free, mem, d, i, 0)
    {
      var t := Walk(d, i, true);
      if t.None? {
        return false;
      }
      Enter(d, i, j, t.value, f, perm);
      ok := true;
    }

    // The store into the page table.
    method Enter(d: nat, i: nat, j: nat, t: nat, f: nat, perm: nat)
      requires Valid() && IsDir(d) && i < KERNDIR && j < NENTRIES && Lookup(mem, d, i, j).Absent?
      requires f in own && own[f].Other? && f in mem && mem[f].Data? && t in own && own[t] == Tab(d, i)
      modifies this`mem, this`own
      ensures Valid() && IsDir(d) && OthersKept(old(mem), old(own), mem, own, d, {f})
      ensures Entered(old(mem), old(own), mem, own, d, i, j, f, perm) && own == old(own)[f := User(d, i, j)]
      ensures SameTables(old(mem), mem, d, {})
    {
      assert FrameOk(mem, own, t) && FrameOk(mem, own, d);
      AddUserOk(mem, own, d, i, j, t, f, perm);
      ghost var mem0 := mem;
      mem := mem[t := Put(mem[t], j, Present(f, perm))];
      forall x, y | 0 <= x < NENTRIES && 0 <= y < NENTRIES
        ensures Lookup(mem, d, x, y) == if x == i && y == j then Present(f, perm) else Lookup(mem0, d, x, y)
      {
        LookupAfter(mem0, own, mem, d, i, j, t, Present(f, perm), x, y);
      }
      own := own[f := User(d, i, j)];
    }

    /** deallocuvm, from page hi down to page lo: a missing table is skipped as a whole. */
    method Deallocuvm(d: nat, hi: nat, lo: nat)
      requires Valid() && IsDir(d) && hi <= KERNDIR * NENTRIES
      modifies this
      ensures Valid() && IsDir(d) && Dropped(old(mem), old(own), mem, own, d, lo, hi)
    {
      var a := lo;
      NothingDropped(mem, own, d, lo, hi);
      while a < hi
        invariant Valid() && IsDir(d) && lo <= a
        invariant Dropped(old(mem), old(own), mem, own, d, lo, Min(a, hi))
        decreases hi - a
      {
        ghost var mem1, own1 := mem, own;
        var next := DropFrom(d, a, hi);
        DroppedTwice(old(mem), old(own), mem1, own1, mem, own, d, lo, a, Min(next, hi));
        a := next;
      }
    }

    // One turn of the loop.
    method DropFrom(d: nat, a: nat, hi: nat) returns (next: nat)
      requires Valid() && IsDir(d) && a < hi <= KERNDIR * NENTRIES
      modifies this
      ensures Valid() && IsDir(d) && a < next && Dropped(old(mem), old(own), mem, own, d, a, Min(next, hi))
    {
      var i, j := a / NENTRIES, a % NENTRIES;
      assert a == i * NENTRIES + j;
      var t := Walk(d, i, false);
      if t.None? {
        next := (i + 1) * NENTRIES;
        SkipTable(mem, own, d, a, i, Min(next, hi));
      } else {
        DropPage(d, i, j, t.value);
        next := a + 1;
      }
    }

    method DropPage(d: nat, i: nat, j: nat, t: nat)
      requires Valid() && IsDir(d) && i < KERNDIR && j < NENTRIES && t in own && own[t] == Tab(d, i)
      modifies this
      ensures Valid() && IsDir(d) && Dropped(old(mem), old(own), mem, own, d, i * NENTRIES + j, i * NENTRIES + j + 1)
    {
      assert FrameOk(mem, own, t) && FrameOk(mem, own, d);
      if mem[t].e[j].Present? {
        var f := mem[t].e[j].frame;
        DropUserOk(mem, own, d, i, j, t, f);
        DropUserEffect(mem, own, d, i, j, t, f);
        Kfree(f);
        mem := mem[t := Put(mem[t], j, Absent)];
      } else {
        AbsentDropped(mem, own, d, i, j);
      }
    }

    /** freevm: everything d owns becomes free, each frame once. */
    method Freevm(d: nat)
      requires Valid() && IsDir(d)
      modifies this
      ensures Valid() && Released(old(mem), old(own), mem, own, d)
    {
      Deallocuvm(d, KERNDIR * NENTRIES, 0);
      AllDropped(old(mem), old(own), mem, own, d);
      FreeTables(d);
    }

    method FreeTables(d: nat)
      requires Valid() && IsDir(d) && forall f :: f in own ==> !(own[f].User? && own[f].d == d)
      modifies this
      ensures Valid() && Released(old(mem), old(own), mem, own, d)
    {
      ghost var own1 := own;
      assert FrameOk(mem, own, d);
      DisownOk(mem, own, d);
      own := Disowned(own1, d, 0);
      for i := 0 to NENTRIES
        invariant Valid() && IsTable(mem, d) && mem[d] == old(mem)[d]
        invariant own == Disowned(own1, d, i)
        invariant forall f :: f in own1 && !Mine(own1[f], f, d) ==> (f in mem <==> f in old(mem)) && (f in mem ==> mem[f] == old(mem)[f])
      {
        if mem[d].e[i].Present? {
          RelabelOk(mem, own, mem[d].e[i].frame, Free, Junk);
          Kfree(mem[d].e[i].frame);
        }
        NextDisowned(old(mem), own1, d, i, own);
      }
      RelabelOk(mem, own, d, Free, Junk);
      Kfree(d);
    }

    /** allocuvm, in bytes.  0 on failure, as in the code; `ok` tells it from an empty process. */
    method Allocuvm(d: nat, oldsz: nat, newsz: nat) returns (r: nat, ok: bool)
      requires Valid() && IsDir(d)
      requires AbsentBetween(mem, d, NPages(oldsz), NPages(newsz))
      modifies this
      ensures Valid() && IsDir(d) && OthersKept(old(mem), old(own), mem, own, d, {})
      ensures r == (if !ok then 0 else if newsz < oldsz then oldsz else newsz)
      ensures ok <==> newsz < KERNBASE && (newsz < oldsz || |old(free)| >= GrowPrice(old(mem), d, oldsz, newsz))
      ensures !ok || newsz < oldsz ==> UserKept(old(mem), old(own), mem, own, d)
      ensures ok && newsz >= oldsz ==> Grown(old(mem), old(own), mem, own, d, NPages(oldsz), NPages(newsz))
    {
      if newsz >= KERNBASE {
        return 0, false;
      }
      if newsz < oldsz {
        return oldsz, true;
      }
      PagesInRange(oldsz, newsz);
      ghost var have := Tables(mem, d);
      CostCounts(have, NPages(oldsz), NPages(newsz));
      CostPages(have, NPages(oldsz), NPages(newsz));
      ok := GrowPages(d, NPages(oldsz), NPages(newsz), have);
      r := if ok then newsz else 0;
    }

    method GrowPages(d: nat, lo: nat, hi: nat, ghost have: set<nat>) returns (ok: bool)
      requires Valid() && IsDir(d) && lo <= hi <= KERNDIR * NENTRIES
      requires AbsentBetween(mem, d, lo, hi) && Has(mem, d, have)
      modifies this
      ensures Valid() && IsDir(d) && OthersKept(old(mem), old(own), mem, own, d, {})
      ensures ok ==> Grown(old(mem), old(own), mem, own, d, lo, hi)
      ensures !ok ==> UserKept(old(mem), old(own), mem, own, d)
      ensures ok <==> |old(free)| >= Cost(have, lo, hi, 1)
    {
      var a := lo;
      NothingGrown(mem, own, d, lo);
      NothingStocked(free, mem, d, have, lo, 1);
      while a < hi
        invariant lo <= a <= hi && Growing(old(free), old(mem), old(own), d, have, lo, a)
      {
        ok, a := GrowNext(d, lo, a, hi, old(free), old(mem), old(own), have);
        if !ok { return; }
      }
      GrownAll(old(free), old(mem), old(own), free, mem, own, d, have, lo, a, hi);
      ok := true;
    }

    // Pages lo .. a-1 have been added to d.
    ghost predicate Growing(free0: seq<nat>, mem0: Memory, own0: Owners, d: nat, have: set<nat>, lo: nat, a: nat)
      requires lo <= a
      reads this
    {
      && Valid() && IsDir(d) && OthersKept(mem0, own0, mem, own, d, {})
      && Grown(mem0, own0, mem, own, d, lo, a) && Stocked(free0, free, mem, d, have, lo, a, 1)
    }

    // One turn of the loop: the page at a, or all new pages gone again.
    method GrowNext(d: nat, lo: nat, a: nat, hi: nat, ghost free0: seq<nat>, ghost mem0: Memory, ghost own0: Owners,
                    ghost have: set<nat>)
      returns (ok: bool, next: nat)
      requires lo <= a < hi <= KERNDIR * NENTRIES && Growing(free0, mem0, own0, d, have, lo, a)
      requires AllOk(mem0, own0) && AbsentBetween(mem0, d, lo, hi)
      modifies this
      ensures ok ==> next == a + 1 && Growing(free0, mem0, own0, d, have, lo, next)
      ensures !ok ==> Valid() && IsDir(d) && OthersKept(mem0, own0, mem, own, d, {}) && UserKept(mem0, own0, mem, own, d)
      ensures !ok ==> |free0| < Cost(have, lo, hi, 1)
    {
      ghost var free1, mem1, own1 := free, mem, own;
      StillAbsent(mem0, own0, mem, own, d, lo, a, hi);
      next := a + 1;
      ok := GrowOne(d, a);
      StockStep(free0, free1, mem1, free, mem, d, have, lo, a, next, hi, 1, ok);
      if ok {
        GrownTwice(mem0, own0, mem1, own1, mem, own, d, lo, a);
      } else {
        GrowUndo(d, lo, a, hi, mem0, own0, mem1, own1);
      }
    }

    method GrowUndo(d: nat, lo: nat, ghost a: nat, hi: nat, ghost mem0: Memory, ghost own0: Owners,
                    ghost mem1: Memory, ghost own1: Owners)
      requires lo <= a <= hi <= KERNDIR * NENTRIES && Valid() && IsDir(d)
      requires AllOk(mem0, own0) && AllOk(mem1, own1) && AbsentBetween(mem0, d, lo, hi)
      requires Grown(mem0, own0, mem1, own1, d, lo, a) && OthersKept(mem0, own0, mem1, own1, d, {})
      requires own == own1 && SameUsed(mem1, own1, mem)
      modifies this
      ensures Valid() && IsDir(d) && OthersKept(mem0, own0, mem, own, d, {}) && UserKept(mem0, own0, mem, own, d)
    {
      Deallocuvm(d, hi, lo);
      GrownDropped(mem0, own0, mem1, own1, old(mem), mem, own, d, lo, a, hi);
    }

    // A zeroed frame for page a, or nothing if there is no memory for it or for its table.
    method GrowOne(d: nat, a: nat) returns (ok: bool)
      requires Valid() && IsDir(d) && a < KERNDIR * NENTRIES
      requires AbsentBetween(mem, d, a, a + 1)
      modifies this
      ensures Valid() && IsDir(d)
      ensures ok ==> OthersKept(old(mem), old(own), mem, own, d, {}) && Grown(old(mem), old(own), mem, own, d, a, a + 1)
      ensures !ok ==> own == old(own) && SameUsed(old(mem), own, mem)
      ensures ok <==> |old(free)| >= 1 + if HasTable(old(mem), d, a / NENTRIES) then 0 else 1
      ensures ok ==> OneTable(old(free), old(mem), free, mem, d, a / NENTRIES, 1)
    {
      var f := Kalloc();
      if f.None? {
        return false;
      }
      RelabelOk(mem, old(own), f.value, Other, Data(Zeros(PGSIZE)));
      mem := mem[f.value := Data(Zeros(PGSIZE))];
      var i, j := a / NENTRIES, a % NENTRIES;
      assert a == i * NENTRIES + j;
      ghost var mem1, own1 := mem, own;
      LookupElsewhere(old(mem), old(own), mem1, d, f.value);
      assert Between(i, j, a, a + 1);
      ghost var free1 := free;
      ok := MapPage(d, i, j, f.value, FLAGS_WU);
      PageTaken(old(free), old(mem), free1, mem1, free, mem, d, i, ok);
      if !ok {
        RelabelOk(mem, own, f.value, Free, Junk);
        Kfree(f.value);
        assert own == old(own);
      } else {
        EnteredGrown(old(mem), old(own), mem1, own1, mem, own, d, i, j, f.value, a);
      }
    }

    // mappages for a range of the kernel's part.
    method MapRange(d: nat, k: Range, ghost have: set<nat>) returns (ok: bool)
      requires Valid() && IsDir(d) && RangeOk(k) && Unmapped(mem, d, k) && Has(mem, d, have)
      modifies this
      ensures Valid() && IsDir(d) && OthersKept(old(mem), old(own), mem, own, d, {}) && Taken(old(own), own, d)
      ensures forall i, j :: 0 <= i < KERNDIR && 0 <= j < NENTRIES ==> Lookup(mem, d, i, j) == Lookup(old(mem), d, i, j)
      ensures ok ==> Ranged(old(mem), mem, d, k, k.n)
      ensures ok <==> |old(free)| >= Cost(have, k.v, k.v + k.n, 0)
      ensures ok ==> Stocked(old(free), free, mem, d, have, k.v, k.v + k.n, 0)
    {
      var n := 0;
      NothingRanged(mem, own, d, k);
      NothingStocked(free, mem, d, have, k.v, 0);
      while n < k.n
        invariant n <= k.n && Mapping(old(free), old(mem), old(own), d, k, have, n)
      {
        ok, n := MapNext(d, k, n, old(free), old(mem), old(own), have);
        if !ok { return; }
      }
      RangedAll(old(free), old(mem), free, mem, d, k, have, n);
      ok := true;
    }

    // The first n pages of k have been mapped.
    ghost predicate Mapping(free0: seq<nat>, mem0: Memory, own0: Owners, d: nat, k: Range, have: set<nat>, n: nat)
      reads this
    {
      && Valid() && IsDir(d) && OthersKept(mem0, own0, mem, own, d, {}) && Taken(own0, own, d)
      && Ranged(mem0, mem, d, k, n) && Stocked(free0, free, mem, d, have, k.v, k.v + n, 0)
    }

    // One turn of the loop.
    method MapNext(d: nat, k: Range, n: nat, ghost free0: seq<nat>, ghost mem0: Memory, ghost own0: Owners,
                   ghost have: set<nat>)
      returns (ok: bool, next: nat)
      requires RangeOk(k) && n < k.n && Unmapped(mem0, d, k) && Mapping(free0, mem0, own0, d, k, have, n)
      modifies this
      ensures ok ==> next == n + 1 && Mapping(free0, mem0, own0, d, k, have, next)
      ensures !ok ==> |free0| < Cost(have, k.v, k.v + k.n, 0) && Ranged(mem0, mem, d, k, n)
      ensures !ok ==> Valid() && IsDir(d) && OthersKept(mem0, own0, mem, own, d, {}) && Taken(own0, own, d)
    {
      ghost var free1, mem1, own1 := free, mem, own;
      StillUnmapped(mem0, mem, d, k, n);
      next := n + 1;
      ok := MapKernelPage(d, k.v + n, Present(k.p + n, k.perm));
      TakenTwice(mem0, own0, mem1, own1, mem, own, d);
      RangedNext(mem0, mem1, mem, d, k, n, next, ok);
      RangeStep(free0, free1, mem1, free, mem, d, have, k, n, next, ok);
    }

    method MapKernelPage(d: nat, a: nat, e: Entry) returns (ok: bool)
      requires Valid() && IsDir(d) && KERNDIR * NENTRIES <= a < NENTRIES * NENTRIES
      requires forall i, j :: 0 <= i < NENTRIES && 0 <= j < NENTRIES && Between(i, j, a, a + 1) ==> Lookup(mem, d, i, j).Absent?
      modifies this
      ensures Valid() && IsDir(d) && OthersKept(old(mem), old(own), mem, own, d, {}) && Taken(old(own), own, d)
      ensures OneMapped(old(mem), mem, d, a, e, ok)
      ensures ok <==> |old(free)| >= if HasTable(old(mem), d, a / NENTRIES) then 0 else 1
      ensures ok ==> OneTable(old(free), old(mem), free, mem, d, a / NENTRIES, 0)
    {
      var i, j := a / NENTRIES, a % NENTRIES;
      assert a == i * NENTRIES + j && Between(i, j, a, a + 1);
      var t := Walk(d, i, true);
      if t.None? {
        return false;
      }
      EnterKernel(d, i, j, t.value, e);
      ok := true;
    }

    method EnterKernel(d: nat, i: nat, j: nat, t: nat, e: Entry)
      requires Valid() && IsDir(d) && KERNDIR <= i < NENTRIES && j < NENTRIES && t in own && own[t] == Tab(d, i)
      requires Lookup(mem, d, i, j).Absent?
      modifies this`mem
      ensures Valid() && OthersKept(old(mem), old(own), mem, own, d, {}) && SameTables(old(mem), mem, d, {})
      ensures forall x, y :: 0 <= x < NENTRIES && 0 <= y < NENTRIES ==>
                Lookup(mem, d, x, y) == if x == i && y == j then e else Lookup(old(mem), d, x, y)
    {
      assert FrameOk(mem, own, t) && FrameOk(mem, own, d);
      AddKernelOk(mem, own, d, i, j, t, e);
      mem := mem[t := Put(mem[t], j, e)];
      forall x, y | 0 <= x < NENTRIES && 0 <= y < NENTRIES
        ensures Lookup(mem, d, x, y) == if x == i && y == j then e else Lookup(old(mem), d, x, y)
      {
        LookupAfter(old(mem), own, mem, d, i, j, t, e, x, y);
      }
    }

    /** setupkvm: a new directory with the kernel's mappings and an empty user part, or nothing at all. */
    method Setupkvm(kmap: seq<Range>) returns (r: Option<nat>)
      requires Valid() && KmapOk(kmap)
      modifies this
      ensures Valid()
      ensures r.None? ==> own == old(own) && SameUsed(old(mem), own, mem)
      ensures r.Some? ==> r.value in old(own) && old(own)[r.value].Free? && IsDir(r.value)
      ensures r.Some? ==> OthersKept(old(mem), old(own), mem, own, r.value, {}) && Taken(old(own), own, r.value)
      ensures r.Some? ==> forall i, j :: 0 <= i < KERNDIR && 0 <= j < NENTRIES ==> Lookup(mem, r.value, i, j).Absent?
      ensures r.Some? ==> forall k :: 0 <= k < |kmap| ==> Mapped(mem, r.value, kmap[k])
      ensures r.None? <==> |old(free)| < SetupPrice(kmap)
      ensures r.Some? ==> |free| == |old(free)| - SetupPrice(kmap) && Has(mem, r.value, KmapSpan(kmap, |kmap|))
    {
      KmapCounts(kmap, |kmap|);
      r := Kalloc();
      if r.None? {
        return;
      }
      var d := r.value;
      NewDirOk(mem, old(own), d);
      mem := mem[d := NewTable()];
      own := own[d := Dir];
      ghost var mem1, own1 := mem, own;
      var ok := MapAll(d, kmap);
      TakenTwice(old(mem), old(own), mem1, own1, mem, own, d);
      if !ok {
        ghost var mem2, own2 := mem, own;
        Freevm(d);
        AllReturned(old(mem), old(own), mem2, own2, mem, own, d);
        r := None;
      }
    }

    /** growproc, with sz the size of the process and n the change asked for. */
    method Growproc(d: nat, sz: nat, n: int) returns (sz': nat, ok: bool)
      requires Valid() && IsDir(d) && sz < KERNBASE && Sized(mem, d, NPages(sz)) && -KERNBASE <= n < KERNBASE
      modifies this
      ensures Valid() && IsDir(d) && sz' < KERNBASE && (!ok ==> sz' == sz)
      ensures ok ==> sz' == if sz + n < 0 then sz else sz + n
      ensures n > 0 ==> (ok <==> sz + n < KERNBASE && |old(free)| >= GrowPrice(old(mem), d, sz, sz + n))
      ensures n <= 0 ==> (ok <==> n == 0 || (if sz + n < 0 then sz else sz + n) != 0)
      ensures Sized(mem, d, NPages(sz')) <==> !(n < 0 && sz + n == 0)
    {
      sz' := sz;
      if n > 0 {
        SizedAbsent(mem, d, NPages(sz), NPages(sz + n));
        var r, _ := Allocuvm(d, sz, sz + n);
        ok := r != 0;
        AllocSized(old(mem), old(own), mem, own, d, sz, sz + n, ok);
        sz' := if ok then r else sz;
      } else if n < 0 {
        // A negative sum wraps around to a size that is not smaller, and nothing is deallocated.
        if sz + n >= 0 {
          PagesInRange(sz + n, sz);
          Deallocuvm(d, NPages(sz), NPages(sz + n));
          SizedDropped(old(mem), old(own), mem, own, d, NPages(sz + n), NPages(sz));
        }
        var r := if sz + n >= 0 then sz + n else sz;
        ok := r != 0;
        sz' := if ok then r else sz;
        EmptySize(mem, d, sz, sz + n);
      } else {
        ok := true;
      }
    }

    // The loop of setupkvm.
    method MapAll(d: nat, kmap: seq<Range>) returns (ok: bool)
      requires Valid() && IsDir(d) && KmapOk(kmap)
      requires (forall i, j :: 0 <= i < NENTRIES && 0 <= j < NENTRIES ==> Lookup(mem, d, i, j).Absent?) && Has(mem, d, {})
      modifies this
      ensures Valid() && IsDir(d) && OthersKept(old(mem), old(own), mem, own, d, {}) && Taken(old(own), own, d)
      ensures forall i, j :: 0 <= i < KERNDIR && 0 <= j < NENTRIES ==> Lookup(mem, d, i, j).Absent?
      ensures ok ==> forall k :: 0 <= k < |kmap| ==> Mapped(mem, d, kmap[k])
      ensures ok <==> |old(free)| >= KmapCost(kmap, |kmap|)
      ensures ok ==> |free| == |old(free)| - KmapCost(kmap, |kmap|) && Has(mem, d, KmapSpan(kmap, |kmap|))
    {
      var k := 0;
      while k < |kmap|
        invariant k <= |kmap| && MappedTo(old(free), old(mem), old(own), d, kmap, k)
      {
        ok, k := MapRangeNext(d, kmap, k, old(free), old(mem), old(own));
        if !ok { return; }
      }
      ok := true;
    }

    // The first k ranges of kmap have been mapped, in a directory that was empty.
    ghost predicate MappedTo(free0: seq<nat>, mem0: Memory, own0: Owners, d: nat, kmap: seq<Range>, k: nat)
      requires k <= |kmap|
      reads this
    {
      && Valid() && IsDir(d) && OthersKept(mem0, own0, mem, own, d, {}) && Taken(own0, own, d)
      && (forall i, j :: 0 <= i < KERNDIR && 0 <= j < NENTRIES ==> Lookup(mem, d, i, j).Absent?)
      && RangesMapped(mem, d, kmap, k)
      && |free| == |free0| - KmapCost(kmap, k) && Has(mem, d, KmapSpan(kmap, k))
    }

    // One turn of the loop.
    method MapRangeNext(d: nat, kmap: seq<Range>, k: nat, ghost free0: seq<nat>, ghost mem0: Memory, ghost own0: Owners)
      returns (ok: bool, next: nat)
      requires KmapOk(kmap) && k < |kmap| && MappedTo(free0, mem0, own0, d, kmap, k)
      modifies this
      ensures ok ==> next == k + 1 && MappedTo(free0, mem0, own0, d, kmap, next)
      ensures !ok ==> |free0| < KmapCost(kmap, |kmap|)
      ensures !ok ==> Valid() && IsDir(d) && OthersKept(mem0, own0, mem, own, d, {}) && Taken(own0, own, d)
      ensures !ok ==> forall i, j :: 0 <= i < KERNDIR && 0 <= j < NENTRIES ==> Lookup(mem, d, i, j).Absent?
    {
      ghost var free1, mem1, own1 := free, mem, own;
      next := k + 1;
      ok := MapRange(d, kmap[k], KmapSpan(kmap, k));
      KmapStep(free1, free, mem, d, kmap, k, next, ok);
      TakenTwice(mem0, own0, mem1, own1, mem, own, d);
      if ok {
        OneMoreMapped(mem1, mem, d, kmap, k, next);
      }
    }

    /** copyuvm: the first n pages of src in a new address space, or nothing at all. */
    method Copyuvm(src: nat, n: nat, kmap: seq<Range>) returns (r: Option<nat>)
      requires Valid() && IsDir(src) && KmapOk(kmap) && n <= KERNDIR * NENTRIES && AllPresent(mem, src, n)
      modifies this
      ensures Valid()
      ensures r.None? ==> own == old(own) && SameUsed(old(mem), own, mem)
      ensures r.Some? ==> r.value in old(own) && old(own)[r.value].Free? && IsDir(r.value)
      ensures r.Some? ==> OthersKept(old(mem), old(own), mem, own, r.value, {}) && Taken(old(own), own, r.value)
      ensures r.Some? ==> Copied(old(mem), old(own), mem, src, r.value, n)
      ensures r.None? <==> |old(free)| < SetupPrice(kmap) + n + (n + NENTRIES - 1) / NENTRIES
      ensures r.Some? ==> forall k :: 0 <= k < |kmap| ==> Mapped(mem, r.value, kmap[k])
    {
      r := Setupkvm(kmap);
      if r.None? {
        return;
      }
      var d := r.value;
      ghost var free1 := free;
      NothingStocked(free, mem, d, KmapSpan(kmap, |kmap|), 0, 1);
      CopyCost(kmap, n);
      var a := 0;
      while a < n
        invariant a <= n && Copying(old(mem), old(own), free1, src, d, kmap, a)
      {
        var ok;
        ok, a := CopyNext(src, d, a, n, old(mem), old(own), free1, kmap);
        if !ok {
          return None;
        }
      }
      CopiedAll(old(mem), old(own), free1, free, mem, src, d, KmapSpan(kmap, |kmap|), a, n);
    }

    // The first a pages of src are in d, which was made with free1 frames left.
    ghost predicate Copying(mem0: Memory, own0: Owners, free1: seq<nat>, src: nat, d: nat, kmap: seq<Range>, a: nat)
      reads this
    {
      && Valid() && IsDir(d) && OthersKept(mem0, own0, mem, own, d, {}) && Taken(own0, own, d)
      && Copied(mem0, own0, mem, src, d, a) && (forall k :: 0 <= k < |kmap| ==> Mapped(mem, d, kmap[k]))
      && Stocked(free1, free, mem, d, KmapSpan(kmap, |kmap|), 0, a, 1)
    }

    // One turn of the loop: page a, or everything given back.
    method CopyNext(src: nat, d: nat, a: nat, n: nat, ghost mem0: Memory, ghost own0: Owners, ghost free1: seq<nat>,
                    ghost kmap: seq<Range>)
      returns (ok: bool, next: nat)
      requires a < n <= KERNDIR * NENTRIES && KmapOk(kmap) && Copying(mem0, own0, free1, src, d, kmap, a)
      requires AllOk(mem0, own0) && src in own0 && own0[src].Dir? && AllPresent(mem0, src, n) && d in own0 && own0[d].Free?
      modifies this
      ensures ok ==> next == a + 1 && Copying(mem0, own0, free1, src, d, kmap, next)
      ensures !ok ==> Valid() && own == own0 && SameUsed(mem0, own, mem)
      ensures !ok ==> |free1| < Cost(KmapSpan(kmap, |kmap|), 0, n, 1)
    {
      ghost var free2, mem1, own1 := free, mem, own;
      StillPresent(mem0, own0, mem, own, d, src, a + 1, n);
      next := a + 1;
      ok := CopyOne(src, d, a);
      StockStep(free1, free2, mem1, free, mem, d, KmapSpan(kmap, |kmap|), 0, a, next, n, 1, ok);
      if ok {
        CopiedOneMore(mem0, own0, mem1, own1, mem, own, src, d, a, kmap);
      } else {
        ghost var mem2 := mem;
        Freevm(d);
        UsedTwice(mem0, own0, mem1, own1, mem2, d);
        AllReturned(mem0, own0, mem2, own1, mem, own, d);
      }
    }

    // Page a of src is copied into a new frame.
    method CopyOne(src: nat, d: nat, a: nat) returns (ok: bool)
      requires Valid() && IsDir(src) && IsDir(d) && src != d && a < KERNDIR * NENTRIES && AllPresent(mem, src, a + 1)
      requires AbsentBetween(mem, d, a, a + 1)
      modifies this
      ensures Valid() && IsDir(d)
      ensures !ok ==> own == old(own) && SameUsed(old(mem), own, mem)
      ensures ok ==> OthersKept(old(mem), old(own), mem, own, d, {}) && Taken(old(own), own, d)
      ensures ok ==> CopyMade(old(mem), old(own), mem, own, src, d, a)
      ensures ok <==> |old(free)| >= 1 + if HasTable(old(mem), d, a / NENTRIES) then 0 else 1
      ensures ok ==> OneTable(old(free), old(mem), free, mem, d, a / NENTRIES, 1)
    {
      var i, j := a / NENTRIES, a % NENTRIES;
      assert a == i * NENTRIES + j && Between(i, j, a, a + 1) && Between(i, j, 0, a + 1);
      LookupOwner(mem, own, src, i, j);
      var pte := Lookup(mem, src, i, j);
      assert FrameOk(mem, own, pte.frame);
      var f := Kalloc();
      if f.None? {
        return false;
      }
      RelabelOk(mem, old(own), f.value, Other, mem[pte.frame]);
      mem := mem[f.value := mem[pte.frame]];
      ghost var mem1, own1 := mem, own;
      LookupElsewhere(old(mem), old(own), mem1, d, f.value);
      ghost var free1 := free;
      ok := MapPage(d, i, j, f.value, pte.flags);
      PageTaken(old(free), old(mem), free1, mem1, free, mem, d, i, ok);
      if !ok {
        RelabelOk(mem, own, f.value, Free, Junk);
        Kfree(f.value);
        assert own == old(own);
      } else {
        EnteredCopy(old(mem), old(own), mem1, own1, mem, own, src, d, i, j, f.value, a);
      }
    }
  }

  // --- how much memory it takes ------------------------------------------------------------------

  ghost predicate HasTable(mem: Memory, d: nat, i: nat) {
    d in mem && mem[d].Table? && i < |mem[d].e| && mem[d].e[i].Present?
  }

  // d has the tables it had, and those at the indices in x.
  ghost predicate SameTables(mem: Memory, mem': Memory, d: nat, x: set<nat>) {
    forall i: nat :: i < NENTRIES ==> (HasTable(mem', d, i) <==> HasTable(mem, d, i) || i in x)
  }

  // The same, for one index i: the table has been taken off the list if it was missing, and so many pages.
  ghost predicate OneTable(free: seq<nat>, mem: Memory, free': seq<nat>, mem': Memory, d: nat, i: nat, pages: nat) {
    && SameTables(mem, mem', d, {i})
    && |free'| == |free| - pages - (if HasTable(mem, d, i) then 0 else 1)
  }

  // The tables of d are those at the indices in `have`.
  ghost predicate Has(mem: Memory, d: nat, have: set<nat>) {
    forall i: nat :: i < NENTRIES ==> (HasTable(mem, d, i) <==> i in have)
  }

  // Index i is that of one of the pages lo .. hi-1.
  ghost predicate Met(i: nat, lo: nat, hi: nat) {
    lo < hi && lo / NENTRIES <= i <= (hi - 1) / NENTRIES
  }

  // Entering page a, after pages lo .. a-1, takes a new table.
  ghost predicate Opens(have: set<nat>, lo: nat, a: nat) {
    a / NENTRIES !in have && !Met(a / NENTRIES, lo, a)
  }

  // The frames it takes to enter pages lo .. hi-1 where there are tables at the indices in `have`: so many
  // for each page, and the tables.
  ghost function Cost(have: set<nat>, lo: nat, hi: nat, each: nat): nat {
    if lo < hi then Cost(have, lo, hi - 1, each) + each + (if Opens(have, lo, hi - 1) then 1 else 0) else 0
  }

  // Pages lo .. a-1 have been entered.
  ghost predicate Stocked(free0: seq<nat>, free: seq<nat>, mem: Memory, d: nat, have: set<nat>, lo: nat, a: nat, each: nat) {
    && (forall i: nat :: i < NENTRIES ==> (HasTable(mem, d, i) <==> i in have || Met(i, lo, a)))
    && |free| == |free0| - Cost(have, lo, a, each)
  }

  lemma NothingStocked(free: seq<nat>, mem: Memory, d: nat, have: set<nat>, lo: nat, each: nat)
    requires Has(mem, d, have)
    ensures Stocked(free, free, mem, d, have, lo, lo, each)
  {
  }

  lemma MetNext(i: nat, lo: nat, a: nat, next: nat)
    requires lo <= a && next == a + 1
    ensures Met(i, lo, next) <==> Met(i, lo, a) || i == a / NENTRIES
  {
  }

  lemma CostNext(have: set<nat>, lo: nat, a: nat, next: nat, each: nat)
    requires lo <= a && next == a + 1
    ensures Cost(have, lo, next, each) == Cost(have, lo, a, each) + each + if Opens(have, lo, a) then 1 else 0
  {
  }

  lemma {:induction false} CostGrows(have: set<nat>, lo: nat, a: nat, hi: nat, each: nat)
    requires lo <= a <= hi
    ensures Cost(have, lo, a, each) <= Cost(have, lo, hi, each)
  {
    if a < hi {
      CostGrows(have, lo, a, hi - 1, each);
    }
  }

  // One more page: it is entered exactly when what is left pays for it, and then all is as the cost says.
  lemma StockStep(free0: seq<nat>, free1: seq<nat>, mem1: Memory, free: seq<nat>, mem: Memory,
                  d: nat, have: set<nat>, lo: nat, a: nat, next: nat, hi: nat, each: nat, ok: bool)
    requires lo <= a < next == a + 1 <= hi && a / NENTRIES < NENTRIES && Stocked(free0, free1, mem1, d, have, lo, a, each)
    requires ok <==> |free1| >= each + if HasTable(mem1, d, a / NENTRIES) then 0 else 1
    requires ok ==> OneTable(free1, mem1, free, mem, d, a / NENTRIES, each)
    ensures if ok then Stocked(free0, free, mem, d, have, lo, next, each) else |free0| < Cost(have, lo, hi, each)
  {
    CostNext(have, lo, a, next, each);
    if ok {
      forall i: nat | i < NENTRIES ensures HasTable(mem, d, i) <==> i in have || Met(i, lo, next) {
        MetNext(i, lo, a, next);
      }
    } else {
      CostGrows(have, lo, next, hi, each);
    }
  }

  // The directory indices at which d has a table.
  ghost function Tables(mem: Memory, d: nat): set<nat> {
    set i: nat | i < NENTRIES && HasTable(mem, d, i)
  }

  // What a process that grows from oldsz to newsz bytes takes: its new pages, and a table for each directory
  // index they meet and d has none at.
  ghost function GrowPrice(mem: Memory, d: nat, oldsz: nat, newsz: nat): int {
    NPages(newsz) - NPages(oldsz) + |Span(NPages(oldsz), NPages(newsz)) - Tables(mem, d)|
  }

  // A frame for a page, then a table for it if there is none at index i.
  lemma PageTaken(free0: seq<nat>, mem0: Memory, free1: seq<nat>, mem1: Memory, free: seq<nat>, mem: Memory, d: nat, i: nat, ok: bool)
    requires |free1| == |free0| - 1 && d in mem0 && d in mem1 && mem1[d] == mem0[d]
    requires ok <==> HasTable(mem1, d, i) || free1 != []
    requires ok ==> OneTable(free1, mem1, free, mem, d, i, 0)
    ensures ok <==> |free0| >= 1 + if HasTable(mem0, d, i) then 0 else 1
    ensures ok ==> OneTable(free0, mem0, free, mem, d, i, 1)
  {
  }

  // The directory indices of pages lo .. hi-1.
  ghost function Span(lo: nat, hi: nat): set<nat> {
    set i: nat | i < hi && Met(i, lo, hi)
  }

  lemma SpanNext(lo: nat, hi: nat)
    requires lo < hi
    ensures Span(lo, hi) == Span(lo, hi - 1) + {(hi - 1) / NENTRIES}
  {
    forall i: nat ensures i in Span(lo, hi) <==> i in Span(lo, hi - 1) + {(hi - 1) / NENTRIES} {
      if i < hi {
        MetNext(i, lo, hi - 1, hi);
      }
    }
  }

  // What the cost counts: the indices the pages meet where there is no table yet, and the pages if each takes one.
  lemma {:induction false} CostCounts(have: set<nat>, lo: nat, hi: nat)
    ensures Cost(have, lo, hi, 0) == |Span(lo, hi) - have|
  {
    if lo < hi {
      CostCounts(have, lo, hi - 1);
      SpanNext(lo, hi);
      OneMoreMet(Span(lo, hi - 1), (hi - 1) / NENTRIES, have);
    }
  }

  lemma OneMoreMet(s: set<nat>, i: nat, have: set<nat>)
    ensures |(s + {i}) - have| == |s - have| + if i in s || i in have then 0 else 1
  {
    if i in s || i in have {
      assert (s + {i}) - have == s - have;
    } else {
      assert (s + {i}) - have == (s - have) + {i};
    }
  }

  lemma {:induction false} CostPages(have: set<nat>, lo: nat, hi: nat)
    ensures Cost(have, lo, hi, 1) == Cost(have, lo, hi, 0) + if lo < hi then hi - lo else 0
  {
    if lo < hi {
      CostPages(have, lo, hi - 1);
    }
  }

  // The directory indices that the first k ranges of kmap meet.
  ghost function KmapSpan(kmap: seq<Range>, k: nat): set<nat>
    requires k <= |kmap|
  {
    if k == 0 then {} else KmapSpan(kmap, k - 1) + Span(kmap[k - 1].v, kmap[k - 1].v + kmap[k - 1].n)
  }

  // The tables it takes to map them, range by range.
  ghost function KmapCost(kmap: seq<Range>, k: nat): nat
    requires k <= |kmap|
  {
    if k == 0 then 0
    else KmapCost(kmap, k - 1) + Cost(KmapSpan(kmap, k - 1), kmap[k - 1].v, kmap[k - 1].v + kmap[k - 1].n, 0)
  }

  // A table is taken for each index met, however many ranges meet it.
  lemma {:induction false} KmapCounts(kmap: seq<Range>, k: nat)
    requires k <= |kmap|
    ensures KmapCost(kmap, k) == |KmapSpan(kmap, k)|
  {
    if k > 0 {
      KmapCounts(kmap, k - 1);
      var have, lo, hi := KmapSpan(kmap, k - 1), kmap[k - 1].v, kmap[k - 1].v + kmap[k - 1].n;
      KmapNext(kmap, k, have, lo, hi);
      NewRange(have, lo, hi);
    }
  }

  lemma {:induction false} KmapNext(kmap: seq<Range>, k: nat, have: set<nat>, lo: nat, hi: nat)
    requires 0 < k <= |kmap| && have == KmapSpan(kmap, k - 1) && lo == kmap[k - 1].v && hi == lo + kmap[k - 1].n
    ensures KmapSpan(kmap, k) == have + Span(lo, hi)
    ensures KmapCost(kmap, k) == KmapCost(kmap, k - 1) + Cost(have, lo, hi, 0)
  {
  }

  lemma NewRange(have: set<nat>, lo: nat, hi: nat)
    ensures |have + Span(lo, hi)| == |have| + Cost(have, lo, hi, 0)
  {
    CostCounts(have, lo, hi);
    SizeOfBoth(have, Span(lo, hi));
  }

  lemma SizeOfBoth(a: set<nat>, b: set<nat>)
    ensures |a + b| == |a| + |b - a|
  {
    assert a + b == a + (b - a);
  }

  lemma {:induction false} KmapGrows(kmap: seq<Range>, k: nat)
    requires k <= |kmap|
    ensures KmapCost(kmap, k) <= KmapCost(kmap, |kmap|)
    decreases |kmap| - k
  {
    if k < |kmap| {
      KmapGrows(kmap, k + 1);
    }
  }

  // One more range.
  lemma {:induction false} KmapStep(free1: seq<nat>, free: seq<nat>, mem: Memory, d: nat, kmap: seq<Range>, k: nat, next: nat, ok: bool)
    requires k < next == k + 1 <= |kmap|
    requires ok <==> |free1| >= Cost(KmapSpan(kmap, k), kmap[k].v, kmap[k].v + kmap[k].n, 0)
    requires ok ==> Stocked(free1, free, mem, d, KmapSpan(kmap, k), kmap[k].v, kmap[k].v + kmap[k].n, 0)
    ensures ok ==> |free| == |free1| - (KmapCost(kmap, next) - KmapCost(kmap, k)) && Has(mem, d, KmapSpan(kmap, next))
    ensures !ok ==> |free1| + KmapCost(kmap, k) < KmapCost(kmap, |kmap|)
  {
    KmapGrows(kmap, next);
  }

  // What setupkvm takes: the directory, and a table for every index the kernel's mappings meet.
  ghost function SetupPrice(kmap: seq<Range>): nat {
    1 + |KmapSpan(kmap, |kmap|)|
  }

  // --- the kernel's part and copying -----------------------------------------------------------

  // n pages from page v on, mapped to physical pages from p on.
  datatype Range = Range(v: nat, n: nat, p: nat, perm: nat)

  ghost predicate RangeOk(k: Range) {
    KERNDIR * NENTRIES <= k.v && k.v + k.n <= NENTRIES * NENTRIES
  }

  // The kernel's mappings lie above KERNBASE and do not overlap.
  ghost predicate KmapOk(kmap: seq<Range>) {
    && (forall k :: 0 <= k < |kmap| ==> RangeOk(kmap[k]))
    && (forall x, y :: 0 <= x < y < |kmap| ==> kmap[x].v + kmap[x].n <= kmap[y].v || kmap[y].v + kmap[y].n <= kmap[x].v)
  }

  // The entry of page (i, j) once the first n pages of k are mapped.
  ghost function KernelEntry(k: Range, n: nat, i: nat, j: nat, e: Entry): Entry {
    if Between(i, j, k.v, k.v + n) then Present(k.p + (i * NENTRIES + j - k.v), k.perm) else e
  }

  // The first n pages of k are mapped, and otherwise d is as it was.
  ghost predicate Ranged(mem: Memory, mem': Memory, d: nat, k: Range, n: nat) {
    forall i, j :: 0 <= i < NENTRIES && 0 <= j < NENTRIES ==>
      Lookup(mem', d, i, j) == KernelEntry(k, n, i, j, Lookup(mem, d, i, j))
  }

  // The entry of page a is e, if ok; otherwise d is as it was.
  ghost predicate OneMapped(mem: Memory, mem': Memory, d: nat, a: nat, e: Entry, ok: bool) {
    forall i, j :: 0 <= i < NENTRIES && 0 <= j < NENTRIES ==>
      Lookup(mem', d, i, j) == if ok && Between(i, j, a, a + 1) then e else Lookup(mem, d, i, j)
  }

  lemma NothingRanged(mem: Memory, own: Owners, d: nat, k: Range)
    ensures Ranged(mem, mem, d, k, 0) && OthersKept(mem, own, mem, own, d, {}) && Taken(own, own, d)
  {
  }

  lemma StillUnmapped(mem0: Memory, mem: Memory, d: nat, k: Range, n: nat)
    requires Ranged(mem0, mem, d, k, n) && Unmapped(mem0, d, k) && n < k.n
    ensures forall i, j :: 0 <= i < NENTRIES && 0 <= j < NENTRIES && Between(i, j, k.v + n, k.v + n + 1) ==>
              Lookup(mem, d, i, j).Absent?
  {
  }

  lemma RangedNext(mem0: Memory, mem1: Memory, mem: Memory, d: nat, k: Range, n: nat, next: nat, ok: bool)
    requires Ranged(mem0, mem1, d, k, n) && next == n + 1
    requires OneMapped(mem1, mem, d, k.v + n, Present(k.p + n, k.perm), ok)
    ensures Ranged(mem0, mem, d, k, if ok then next else n)
  {
  }

  lemma RangeStep(free0: seq<nat>, free1: seq<nat>, mem1: Memory, free: seq<nat>, mem: Memory,
                  d: nat, have: set<nat>, k: Range, n: nat, next: nat, ok: bool)
    requires RangeOk(k) && n < next == n + 1 <= k.n && Stocked(free0, free1, mem1, d, have, k.v, k.v + n, 0)
    requires ok <==> |free1| >= if HasTable(mem1, d, (k.v + n) / NENTRIES) then 0 else 1
    requires ok ==> OneTable(free1, mem1, free, mem, d, (k.v + n) / NENTRIES, 0)
    ensures ok ==> Stocked(free0, free, mem, d, have, k.v, k.v + next, 0)
    ensures !ok ==> |free0| < Cost(have, k.v, k.v + k.n, 0)
  {
    StockStep(free0, free1, mem1, free, mem, d, have, k.v, k.v + n, k.v + next, k.v + k.n, 0, ok);
  }

  lemma RangedAll(free0: seq<nat>, mem0: Memory, free: seq<nat>, mem: Memory, d: nat, k: Range, have: set<nat>, n: nat)
    requires n == k.n && Ranged(mem0, mem, d, k, n) && Stocked(free0, free, mem, d, have, k.v, k.v + n, 0)
    ensures Ranged(mem0, mem, d, k, k.n) && Stocked(free0, free, mem, d, have, k.v, k.v + k.n, 0)
    ensures |free0| >= Cost(have, k.v, k.v + k.n, 0)
  {
  }

  ghost predicate Mapped(mem: Memory, d: nat, k: Range) {
    forall i, j :: 0 <= i < NENTRIES && 0 <= j < NENTRIES && Between(i, j, k.v, k.v + k.n) ==>
      Lookup(mem, d, i, j) == Present(k.p + (i * NENTRIES + j - k.v), k.perm)
  }

  // What d has now and did not have before was free; nothing else has changed hands.
  ghost predicate Taken(own: Owners, own': Owners, d: nat) {
    && own'.Keys == own.Keys
    && forall f :: f in own ==> own'[f] == own[f] || (own[f].Free? && Mine(own'[f], f, d))
  }

  lemma NewDirOk(mem: Memory, own: Owners, d: nat)
    requires AllOk(mem, own) && d in own && own[d].Free?
    ensures AllOk(mem[d := NewTable()], own[d := Dir])
  {
  }

  lemma TakenTwice(mem0: Memory, own0: Owners, mem1: Memory, own1: Owners, mem: Memory, own: Owners, d: nat)
    requires OthersKept(mem0, own0, mem1, own1, d, {}) && Taken(own0, own1, d)
    requires OthersKept(mem1, own1, mem, own, d, {}) && Taken(own1, own, d)
    ensures OthersKept(mem0, own0, mem, own, d, {}) && Taken(own0, own, d)
  {
  }

  // Freeing all that d has taken puts everything back.
  lemma AllReturned(mem0: Memory, own0: Owners, mem1: Memory, own1: Owners, mem: Memory, own: Owners, d: nat)
    requires d in own0 && own0[d].Free? && AllOk(mem0, own0)
    requires OthersKept(mem0, own0, mem1, own1, d, {}) && Taken(own0, own1, d) && Released(mem1, own1, mem, own, d)
    ensures own == own0 && SameUsed(mem0, own0, mem)
  {
  }

  ghost predicate Unmapped(mem: Memory, d: nat, k: Range) {
    forall i, j :: 0 <= i < NENTRIES && 0 <= j < NENTRIES && Between(i, j, k.v, k.v + k.n) ==> Lookup(mem, d, i, j).Absent?
  }

  // The first k ranges are mapped and the others are not.
  ghost predicate RangesMapped(mem: Memory, d: nat, kmap: seq<Range>, k: nat)
    requires k <= |kmap|
  {
    && (forall x :: 0 <= x < k ==> Mapped(mem, d, kmap[x]))
    && (forall x :: k <= x < |kmap| ==> Unmapped(mem, d, kmap[x]))
  }

  lemma OneMoreMapped(mem: Memory, mem': Memory, d: nat, kmap: seq<Range>, k: nat, next: nat)
    requires KmapOk(kmap) && k < next == k + 1 <= |kmap| && RangesMapped(mem, d, kmap, k)
    requires Ranged(mem, mem', d, kmap[k], kmap[k].n)
    ensures RangesMapped(mem', d, kmap, next)
  {
  }

  // The first n pages of src are all there.
  ghost predicate AllPresent(mem: Memory, src: nat, n: nat) {
    forall i, j :: 0 <= i < KERNDIR && 0 <= j < NENTRIES && Between(i, j, 0, n) ==> Lookup(mem, src, i, j).Present?
  }

  // Entry e' is a copy of entry e: the same flags, the same bytes, in a frame that was free.
  ghost predicate CopyOf(mem: Memory, own: Owners, mem': Memory, e: Entry, e': Entry) {
    && e.Present? && e'.Present? && e'.flags == e.flags
    && e'.frame in own && own[e'.frame].Free?
    && e.frame in mem && e'.frame in mem' && mem[e.frame].Data? && mem'[e'.frame] == mem[e.frame]
  }

  // The user part of d is a copy of the first n pages of src, as src was in mem.
  ghost predicate Copied(mem: Memory, own: Owners, mem': Memory, src: nat, d: nat, n: nat) {
    forall i, j :: 0 <= i < KERNDIR && 0 <= j < NENTRIES ==>
      if Between(i, j, 0, n) then CopyOf(mem, own, mem', Lookup(mem, src, i, j), Lookup(mem', d, i, j))
      else Lookup(mem', d, i, j).Absent?
  }

  // Page a of d is a copy of that of src; no other entry of d and no user frame has changed.
  ghost predicate CopyMade(mem: Memory, own: Owners, mem': Memory, own': Owners, src: nat, d: nat, a: nat) {
    && (forall i, j :: 0 <= i < NENTRIES && 0 <= j < NENTRIES ==>
          if Between(i, j, a, a + 1) then CopyOf(mem, own, mem', Lookup(mem, src, i, j), Lookup(mem', d, i, j))
          else Lookup(mem', d, i, j) == Lookup(mem, d, i, j))
    && (forall g :: g in own && own[g].User? ==> g in mem && g in mem' && mem'[g] == mem[g])
  }

  lemma EnteredCopy(mem0: Memory, own0: Owners, mem1: Memory, own1: Owners, mem: Memory, own: Owners,
                    src: nat, d: nat, i: nat, j: nat, f: nat, a: nat)
    requires AllOk(mem0, own0) && i < KERNDIR && j < NENTRIES && a == i * NENTRIES + j
    requires Lookup(mem0, src, i, j).Present? && Lookup(mem0, src, i, j).frame in mem0 && mem0[Lookup(mem0, src, i, j).frame].Data?
    requires f in own0 && own0[f].Free? && own1 == own0[f := Other]
    requires mem1 == mem0[f := mem0[Lookup(mem0, src, i, j).frame]]
    requires forall x, y :: 0 <= x < NENTRIES && 0 <= y < NENTRIES ==> Lookup(mem1, d, x, y) == Lookup(mem0, d, x, y)
    requires OthersKept(mem1, own1, mem, own, d, {f}) && Entered(mem1, own1, mem, own, d, i, j, f, Lookup(mem0, src, i, j).flags)
    requires forall g :: g in own1 && own[g] != own1[g] && g != f ==> own1[g].Free? && Mine(own[g], g, d)
    ensures OthersKept(mem0, own0, mem, own, d, {}) && Taken(own0, own, d) && CopyMade(mem0, own0, mem, own, src, d, a)
  {
    forall g | g in own0 && own0[g].User? ensures g in mem0 && g in mem && mem[g] == mem0[g] {
      assert FrameOk(mem0, own0, g);
    }
    assert own.Keys == own0.Keys;
  }

  // No kernel mapping is in a table of the user part, so n pages take n frames and their tables.
  lemma {:induction false} CopyCost(kmap: seq<Range>, n: nat)
    requires KmapOk(kmap) && n <= KERNDIR * NENTRIES
    ensures Cost(KmapSpan(kmap, |kmap|), 0, n, 1) == n + (n + NENTRIES - 1) / NENTRIES
  {
    KernelIndices(kmap, |kmap|);
    UserCost(KmapSpan(kmap, |kmap|), n);
  }

  lemma {:induction false} KernelIndices(kmap: seq<Range>, k: nat)
    requires KmapOk(kmap) && k <= |kmap|
    ensures forall i :: i in KmapSpan(kmap, k) ==> KERNDIR <= i
  {
    if k > 0 {
      KernelIndices(kmap, k - 1);
      assert RangeOk(kmap[k - 1]);
    }
  }

  lemma {:induction false} UserCost(have: set<nat>, n: nat)
    requires n <= KERNDIR * NENTRIES && forall i :: i in have ==> KERNDIR <= i
    ensures Cost(have, 0, n, 1) == n + (n + NENTRIES - 1) / NENTRIES
  {
    if n > 0 {
      UserCost(have, n - 1);
    }
  }

  lemma CopiedAll(mem0: Memory, own0: Owners, free1: seq<nat>, free: seq<nat>, mem: Memory, src: nat, d: nat, have: set<nat>,
                  a: nat, n: nat)
    requires a == n && Copied(mem0, own0, mem, src, d, a) && Stocked(free1, free, mem, d, have, 0, a, 1)
    ensures Copied(mem0, own0, mem, src, d, n) && |free1| >= Cost(have, 0, n, 1)
  {
  }

  lemma UsedTwice(mem0: Memory, own0: Owners, mem1: Memory, own1: Owners, mem2: Memory, d: nat)
    requires OthersKept(mem0, own0, mem1, own1, d, {}) && SameUsed(mem1, own1, mem2)
    ensures OthersKept(mem0, own0, mem2, own1, d, {})
  {
  }

  lemma CopiedOneMore(mem0: Memory, own0: Owners, mem1: Memory, own1: Owners, mem: Memory, own: Owners,
                      src: nat, d: nat, a: nat, kmap: seq<Range>)
    requires AllOk(mem0, own0) && AllOk(mem1, own1) && KmapOk(kmap) && a < KERNDIR * NENTRIES
    requires src in own0 && own0[src].Dir? && d in own0 && own0[d].Free? && d in own1 && own1[d].Dir?
    requires OthersKept(mem0, own0, mem1, own1, d, {}) && Taken(own0, own1, d) && Copied(mem0, own0, mem1, src, d, a)
    requires OthersKept(mem1, own1, mem, own, d, {}) && Taken(own1, own, d) && CopyMade(mem1, own1, mem, own, src, d, a)
    requires forall k :: 0 <= k < |kmap| ==> Mapped(mem1, d, kmap[k])
    ensures OthersKept(mem0, own0, mem, own, d, {}) && Taken(own0, own, d) && Copied(mem0, own0, mem, src, d, a + 1)
    ensures forall k :: 0 <= k < |kmap| ==> Mapped(mem, d, kmap[k])
  {
    TakenTwice(mem0, own0, mem1, own1, mem, own, d);
    OtherLookups(mem0, own0, mem1, own1, d, src);
    forall i, j | 0 <= i < KERNDIR && 0 <= j < NENTRIES
      ensures if Between(i, j, 0, a + 1) then CopyOf(mem0, own0, mem, Lookup(mem0, src, i, j), Lookup(mem, d, i, j))
              else Lookup(mem, d, i, j).Absent?
    {
      if Between(i, j, 0, a) {
        LookupOwner(mem1, own1, d, i, j);
      }
      if Between(i, j, a, a + 1) {
        LookupOwner(mem0, own0, src, i, j);
        assert FrameOk(mem0, own0, Lookup(mem0, src, i, j).frame);
      }
    }
    forall k | 0 <= k < |kmap| ensures Mapped(mem, d, kmap[k]) {
      assert Mapped(mem1, d, kmap[k]) && RangeOk(kmap[k]);
    }
  }

  lemma StillPresent(mem0: Memory, own0: Owners, mem: Memory, own: Owners, d: nat, src: nat, k: nat, n: nat)
    requires AllOk(mem0, own0) && src in own0 && own0[src].Dir? && src != d && OthersKept(mem0, own0, mem, own, d, {})
    requires AllPresent(mem0, src, n) && k <= n
    ensures src in own && own[src].Dir? && AllPresent(mem, src, k)
  {
    OtherLookups(mem0, own0, mem, own, d, src);
  }

  // Other address spaces look the same.
  lemma OtherLookups(mem0: Memory, own0: Owners, mem: Memory, own: Owners, d: nat, src: nat)
    requires AllOk(mem0, own0) && src in own0 && own0[src].Dir? && src != d && OthersKept(mem0, own0, mem, own, d, {})
    ensures forall i, j :: 0 <= i < NENTRIES && 0 <= j < NENTRIES ==> Lookup(mem, src, i, j) == Lookup(mem0, src, i, j)
  {
  }

  // --- growing an address space ---------------------------------------------------------------

  // PGROUNDUP(sz) / PGSIZE
  function NPages(sz: nat): nat {
    (sz + PGSIZE - 1) / PGSIZE
  }

  lemma PagesInRange(oldsz: nat, newsz: nat)
    requires oldsz <= newsz < KERNBASE
    ensures NPages(oldsz) <= NPages(newsz) <= KERNDIR * NENTRIES
  {
  }

  function Zeros(n: nat): (r: seq<int>)
    ensures |r| == n && forall i :: 0 <= i < n ==> r[i] == 0
  {
    seq(n, _ => 0)
  }

  // A page that was absent now has a zeroed frame that was free.
  ghost predicate NewPage(own: Owners, mem': Memory, e: Entry) {
    && e.Present? && e.flags == FLAGS_WU && e.frame in own && own[e.frame].Free?
    && e.frame in mem' && mem'[e.frame] == Data(Zeros(PGSIZE))
  }

  // Pages lo to hi are new; all other user pages and all user frames there were are as before.
  ghost predicate Grown(mem: Memory, own: Owners, mem': Memory, own': Owners, d: nat, lo: nat, hi: nat) {
    && own'.Keys == own.Keys
    && (forall f :: f in own && !own[f].Free? ==> own'[f] == own[f])
    && (forall f :: f in own && own[f].User? ==> f in mem && f in mem' && mem'[f] == mem[f])
    && (forall f :: f in own && own'[f].User? && own'[f] != own[f] ==>
          own[f].Free? && own'[f].d == d && Between(own'[f].i, own'[f].j, lo, hi))
    && (forall i, j :: 0 <= i < KERNDIR && 0 <= j < NENTRIES ==>
          if Between(i, j, lo, hi) then NewPage(own, mem', Lookup(mem', d, i, j))
          else Lookup(mem', d, i, j) == Lookup(mem, d, i, j))
  }

  // A frame that was free is part of no lookup.
  lemma LookupElsewhere(mem: Memory, own: Owners, mem': Memory, d: nat, f: nat)
    requires AllOk(mem, own) && d in own && own[d].Dir? && f in own && own[f].Free?
    requires forall g :: g in own && g != f && g in mem ==> g in mem' && mem'[g] == mem[g]
    ensures forall i, j :: 0 <= i < NENTRIES && 0 <= j < NENTRIES ==> Lookup(mem', d, i, j) == Lookup(mem, d, i, j)
  {
  }

  lemma EnteredGrown(mem0: Memory, own0: Owners, mem1: Memory, own1: Owners, mem: Memory, own: Owners,
                     d: nat, i: nat, j: nat, f: nat, a: nat)
    requires AllOk(mem0, own0) && i < KERNDIR && j < NENTRIES && a == i * NENTRIES + j
    requires f in own0 && own0[f].Free? && own1 == own0[f := Other] && mem1 == mem0[f := Data(Zeros(PGSIZE))]
    requires forall x, y :: 0 <= x < NENTRIES && 0 <= y < NENTRIES ==> Lookup(mem1, d, x, y) == Lookup(mem0, d, x, y)
    requires OthersKept(mem1, own1, mem, own, d, {f}) && Entered(mem1, own1, mem, own, d, i, j, f, FLAGS_WU)
    ensures OthersKept(mem0, own0, mem, own, d, {}) && Grown(mem0, own0, mem, own, d, a, a + 1)
  {
    forall g | g in own0 && own0[g].User? ensures own[g] == own0[g] && g in mem0 && g in mem && mem[g] == mem0[g] {
      assert FrameOk(mem0, own0, g);
    }
    assert own.Keys == own0.Keys;
  }

  lemma NothingGrown(mem: Memory, own: Owners, d: nat, lo: nat)
    requires AllOk(mem, own)
    ensures OthersKept(mem, own, mem, own, d, {}) && Grown(mem, own, mem, own, d, lo, lo)
  {
    forall f | f in own && own[f].User? ensures f in mem {
      assert FrameOk(mem, own, f);
    }
  }

  lemma GrownAll(free0: seq<nat>, mem0: Memory, own0: Owners, free: seq<nat>, mem: Memory, own: Owners,
                 d: nat, have: set<nat>, lo: nat, a: nat, hi: nat)
    requires a == hi && Grown(mem0, own0, mem, own, d, lo, a) && Stocked(free0, free, mem, d, have, lo, a, 1)
    ensures Grown(mem0, own0, mem, own, d, lo, hi) && |free0| >= Cost(have, lo, hi, 1)
  {
  }

  lemma StillAbsent(mem0: Memory, own0: Owners, mem: Memory, own: Owners, d: nat, lo: nat, a: nat, hi: nat)
    requires lo <= a < hi && Grown(mem0, own0, mem, own, d, lo, a) && AbsentBetween(mem0, d, lo, hi)
    ensures AbsentBetween(mem, d, a, a + 1)
  {
  }

  lemma GrownTwice(mem0: Memory, own0: Owners, mem1: Memory, own1: Owners, mem: Memory, own: Owners,
                   d: nat, lo: nat, a: nat)
    requires lo <= a && Grown(mem0, own0, mem1, own1, d, lo, a) && Grown(mem1, own1, mem, own, d, a, a + 1)
    requires OthersKept(mem0, own0, mem1, own1, d, {}) && OthersKept(mem1, own1, mem, own, d, {})
    requires AllOk(mem1, own1) && d in own1 && own1[d].Dir?
    ensures OthersKept(mem0, own0, mem, own, d, {}) && Grown(mem0, own0, mem, own, d, lo, a + 1)
  {
    forall i, j | 0 <= i < KERNDIR && 0 <= j < NENTRIES
      ensures if Between(i, j, lo, a + 1) then NewPage(own0, mem, Lookup(mem, d, i, j))
              else Lookup(mem, d, i, j) == Lookup(mem0, d, i, j)
    {
      var e := Lookup(mem1, d, i, j);
      if e.Present? {
        LookupOwner(mem1, own1, d, i, j);
      }
    }
  }

  // The frame of a user page belongs to that page.
  lemma LookupOwner(mem: Memory, own: Owners, d: nat, i: nat, j: nat)
    requires AllOk(mem, own) && d in own && own[d].Dir? && i < KERNDIR && j < NENTRIES && Lookup(mem, d, i, j).Present?
    ensures Lookup(mem, d, i, j).frame in own && own[Lookup(mem, d, i, j).frame] == User(d, i, j)
  {
  }

  ghost predicate SameUsed(mem: Memory, own: Owners, mem': Memory) {
    forall f :: f in own && !own[f].Free? && f in mem ==> f in mem' && mem'[f] == mem[f]
  }

  lemma SameLookups(mem: Memory, own: Owners, mem': Memory, d: nat)
    requires AllOk(mem, own) && d in own && own[d].Dir? && SameUsed(mem, own, mem')
    ensures forall i, j :: 0 <= i < NENTRIES && 0 <= j < NENTRIES ==> Lookup(mem', d, i, j) == Lookup(mem, d, i, j)
  {
  }

  // Growing part of the way and dropping all of it again leaves the user part as it was.
  lemma GrownDropped(mem0: Memory, own0: Owners, mem1: Memory, own1: Owners, mem2: Memory, mem: Memory, own: Owners,
                     d: nat, lo: nat, a: nat, hi: nat)
    requires lo <= a <= hi && AllOk(mem0, own0) && AllOk(mem1, own1) && d in own1 && own1[d].Dir?
    requires AbsentBetween(mem0, d, lo, hi)
    requires Grown(mem0, own0, mem1, own1, d, lo, a) && OthersKept(mem0, own0, mem1, own1, d, {})
    requires SameUsed(mem1, own1, mem2) && Dropped(mem2, own1, mem, own, d, lo, hi)
    ensures UserKept(mem0, own0, mem, own, d) && OthersKept(mem0, own0, mem, own, d, {})
  {
    SameLookups(mem1, own1, mem2, d);
    forall i, j | 0 <= i < KERNDIR && 0 <= j < NENTRIES ensures Lookup(mem, d, i, j) == Lookup(mem0, d, i, j) {
      assert Lookup(mem2, d, i, j) == Lookup(mem1, d, i, j);
    }
    forall f | f in own0 && (own0[f].User? || own[f].User?)
      ensures own[f] == own0[f] && f in mem0 && f in mem && mem[f] == mem0[f]
    {
      assert FrameOk(mem0, own0, f) && FrameOk(mem1, own1, f);
      assert own0[f].User? ==> Lookup(mem0, own0[f].d, own0[f].i, own0[f].j).Present?;
    }
  }

  // Frame f has been entered for user page (i, j) of d; the rest of the user part is as before.
  ghost predicate Entered(mem: Memory, own: Owners, mem': Memory, own': Owners, d: nat, i: nat, j: nat, f: nat, perm: nat) {
    && (forall x, y :: 0 <= x < NENTRIES && 0 <= y < NENTRIES ==>
          Lookup(mem', d, x, y) == if x == i && y == j then Present(f, perm) else Lookup(mem, d, x, y))
    && (forall g :: g in own && g != f && !own[g].Free? ==> g in own' && own'[g] == own[g])
    && (forall g :: g in own && own[g].User? ==> g in mem && g in mem' && mem'[g] == mem[g])
    && f in own' && own'[f] == User(d, i, j) && f in mem && f in mem' && mem'[f] == mem[f]
    && (forall g :: g in own' && g != f && own'[g].User? ==> g in own && own[g] == own'[g])
  }

  ghost predicate Between(i: nat, j: nat, lo: nat, hi: nat) {
    lo <= i * NENTRIES + j < hi
  }

  // No user page of d from lo to hi is mapped.
  ghost predicate AbsentBetween(mem: Memory, d: nat, lo: nat, hi: nat) {
    forall i, j :: 0 <= i < KERNDIR && 0 <= j < NENTRIES && Between(i, j, lo, hi) ==> Lookup(mem, d, i, j).Absent?
  }

  // Exactly the user pages of d below page n are mapped.
  ghost predicate Sized(mem: Memory, d: nat, n: nat) {
    forall i, j :: 0 <= i < KERNDIR && 0 <= j < NENTRIES ==> (Lookup(mem, d, i, j).Present? <==> Between(i, j, 0, n))
  }

  // mappages never meets a mapped page when it grows such a process: its panic is unreachable.
  lemma SizedAbsent(mem: Memory, d: nat, n: nat, hi: nat)
    requires Sized(mem, d, n)
    ensures AbsentBetween(mem, d, n, hi)
  {
  }

  // copyuvm finds every page it looks for.
  lemma SizedPresent(mem: Memory, d: nat, n: nat)
    requires Sized(mem, d, n)
    ensures AllPresent(mem, d, n)
  {
  }

  lemma SizedCopied(mem: Memory, own: Owners, mem': Memory, src: nat, d: nat, n: nat)
    requires Copied(mem, own, mem', src, d, n) && Sized(mem, src, n)
    ensures Sized(mem', d, n)
  {
  }

  lemma SizedDropped(mem: Memory, own: Owners, mem': Memory, own': Owners, d: nat, lo: nat, hi: nat)
    requires Sized(mem, d, hi) && lo <= hi && Dropped(mem, own, mem', own', d, lo, hi)
    ensures Sized(mem', d, lo)
  {
  }

  lemma AllocSized(mem: Memory, own: Owners, mem': Memory, own': Owners, d: nat, sz: nat, newsz: nat, ok: bool)
    requires Sized(mem, d, NPages(sz)) && sz <= newsz
    requires if ok then Grown(mem, own, mem', own', d, NPages(sz), NPages(newsz)) else UserKept(mem, own, mem', own', d)
    ensures Sized(mem', d, NPages(if ok then newsz else sz))
  {
  }

  // Deallocating everything makes growproc fail and keep the old size.
  lemma EmptySize(mem: Memory, d: nat, sz: nat, left: int)
    requires left < sz && Sized(mem, d, NPages(if left < 0 then sz else left))
    ensures left == 0 ==> !Sized(mem, d, NPages(sz))
  {
    assert !Between(0, 0, 0, NPages(0)) && (sz > 0 ==> Between(0, 0, 0, NPages(sz)));
  }

  ghost function DroppedOwner(o: Owner, d: nat, lo: nat, hi: nat): Owner {
    if o.User? && o.d == d && Between(o.i, o.j, lo, hi) then Free else o
  }

  // The user pages of d from lo to hi are gone, their frames are free, and nothing else has changed.
  ghost predicate Dropped(mem: Memory, own: Owners, mem': Memory, own': Owners, d: nat, lo: nat, hi: nat) {
    && own'.Keys == own.Keys
    && (forall f :: f in own ==> own'[f] == DroppedOwner(own[f], d, lo, hi))
    && (forall f :: f in own && !own'[f].Free? && !(own[f].Tab? && own[f].d == d) ==>
          (f in mem <==> f in mem') && (f in mem ==> mem'[f] == mem[f]))
    && (forall i, j :: 0 <= i < KERNDIR && 0 <= j < NENTRIES ==>
          Lookup(mem', d, i, j) == if Between(i, j, lo, hi) then Absent else Lookup(mem, d, i, j))
  }

  function Min(a: nat, b: nat): nat {
    if a < b then a else b
  }

  lemma SkipTable(mem: Memory, own: Owners, d: nat, a: nat, i: nat, next: nat)
    requires AllOk(mem, own) && d in own && own[d].Dir?
    requires i < KERNDIR && i * NENTRIES <= a < next <= (i + 1) * NENTRIES
    requires forall y :: 0 <= y < NENTRIES ==> Lookup(mem, d, i, y).Absent?
    ensures Dropped(mem, own, mem, own, d, a, next)
  {
    forall f | f in own ensures own[f] == DroppedOwner(own[f], d, a, next) {
      assert FrameOk(mem, own, f);
      assert own[f].User? ==> Lookup(mem, own[f].d, own[f].i, own[f].j).Present?;
    }
  }

  lemma AbsentDropped(mem: Memory, own: Owners, d: nat, i: nat, j: nat)
    requires AllOk(mem, own) && i < KERNDIR && j < NENTRIES && Lookup(mem, d, i, j).Absent?
    ensures Dropped(mem, own, mem, own, d, i * NENTRIES + j, i * NENTRIES + j + 1)
  {
  }

  lemma DropUserEffect(mem: Memory, own: Owners, d: nat, i: nat, j: nat, t: nat, f: nat)
    requires AllOk(mem, own) && t in own && own[t] == Tab(d, i) && i < KERNDIR && j < NENTRIES && d in own && own[d].Dir?
    requires IsTable(mem, t) && mem[t].e[j].Present? && mem[t].e[j].frame == f && f in own && own[f] == User(d, i, j)
    ensures Dropped(mem, own, mem[f := Junk][t := Put(mem[t], j, Absent)], own[f := Free], d, i * NENTRIES + j, i * NENTRIES + j + 1)
  {
  }

  lemma NothingDropped(mem: Memory, own: Owners, d: nat, lo: nat, hi: nat)
    ensures Dropped(mem, own, mem, own, d, lo, lo)
    ensures hi < lo ==> Dropped(mem, own, mem, own, d, lo, hi)
  {
  }

  lemma DroppedTwice(mem0: Memory, own0: Owners, mem1: Memory, own1: Owners, mem: Memory, own: Owners,
                     d: nat, lo: nat, a: nat, b: nat)
    requires lo <= a <= b && Dropped(mem0, own0, mem1, own1, d, lo, a) && Dropped(mem1, own1, mem, own, d, a, b)
    ensures Dropped(mem0, own0, mem, own, d, lo, b)
  {
  }

  // --- tearing an address space down ---------------------------------------------------------

  // What d had is free, and nobody else has lost or gained anything.
  ghost predicate Released(mem: Memory, own: Owners, mem': Memory, own': Owners, d: nat) {
    && own'.Keys == own.Keys
    && (forall f :: f in own ==> own'[f] == if Mine(own[f], f, d) then Free else own[f])
    && (forall f :: f in own && !own'[f].Free? ==> (f in mem <==> f in mem') && (f in mem ==> mem'[f] == mem[f]))
  }

  // The directory and its tables have no owner any more; those of the first i entries are free.
  ghost function Disowned(own: Owners, d: nat, i: nat): Owners {
    map f | f in own :: if own[f].Tab? && own[f].d == d && own[f].i < i then Free
                        else if Mine(own[f], f, d) then Other else own[f]
  }

  lemma AllDropped(mem0: Memory, own0: Owners, mem: Memory, own: Owners, d: nat)
    requires AllOk(mem0, own0) && Dropped(mem0, own0, mem, own, d, 0, KERNDIR * NENTRIES)
    ensures forall f :: f in own ==> !(own[f].User? && own[f].d == d)
  {
  }

  lemma DisownOk(mem: Memory, own: Owners, d: nat)
    requires AllOk(mem, own) && forall f :: f in own ==> !(own[f].User? && own[f].d == d)
    ensures AllOk(mem, Disowned(own, d, 0))
  {
  }

  lemma NextDisowned(mem: Memory, own: Owners, d: nat, i: nat, own': Owners)
    requires AllOk(mem, own) && d in own && own[d].Dir? && IsTable(mem, d) && i < NENTRIES
    requires own' == if mem[d].e[i].Present? then Disowned(own, d, i)[mem[d].e[i].frame := Free] else Disowned(own, d, i)
    ensures own' == Disowned(own, d, i + 1)
  {
  }
}
