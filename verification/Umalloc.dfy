/**
 The user-level allocator of Kernighan and Ritchie (section 8.7 of The C Programming
 Language, 2nd edition).  Addresses count Header-sized units; `mem` is the memory in
 such units, so a live block's user data are units of `mem` as well.
 */
module Umalloc {

  import opened Kernel

  datatype Header = Header(ptr: nat, size: nat)

  type Memory = map<nat, Header>

  // The memory, the nodes of the free list, the blocks handed out, and for every unit of
  // the heap the block it belongs to.
  datatype HeapState = HeapState(mem: Memory, free: set<nat>, live: set<nat>, own: map<nat, nat>)

  // --- the free list ---------------------------------------------------------------------

  // q follows a on a circular list in address order with one wrap, back to `base`.
  ghost predicate Follows(base: nat, free: set<nat>, a: nat, q: nat) {
    && q in free
    && if a < q then forall x :: x in free ==> !(a < x < q)
       else q == base && forall x :: x in free ==> x <= a
  }

  // Node a points to the node after it.
  ghost predicate Linked(base: nat, mem: Memory, free: set<nat>, a: nat) {
    a in mem && Follows(base, free, a, mem[a].ptr)
  }

  ghost predicate ListOk(base: nat, mem: Memory, free: set<nat>) {
    && base in free
    && (forall a :: a in free ==> a in mem && base <= a)
    && (forall a {:trigger Linked(base, mem, free, a)} :: a in free ==> Linked(base, mem, free, a))
    && (forall a, b :: a in free && b in free && a < b ==> a + mem[a].size <= b)
    && mem[base].size == 0
  }

  // Free block a does not touch the free block after it.
  ghost predicate Apart(mem: Memory, a: nat)
    requires a in mem
  {
    a < mem[a].ptr ==> a + mem[a].size < mem[a].ptr
  }

  // --- who owns which unit ------------------------------------------------------------------

  // A block other than the sentinel: handed out, or on the free list.
  ghost predicate IsBlock(base: nat, h: HeapState, a: nat) {
    a in h.live || (a in h.free && a != base)
  }

  ghost predicate In(mem: Memory, a: nat, u: nat) {
    a in mem && a <= u < a + mem[a].size
  }

  // Every unit of the heap belongs to exactly one block, free or live.
  ghost predicate OwnOk(base: nat, h: HeapState) {
    && (forall u :: u in h.own ==> base < u && u in h.mem && IsBlock(base, h, h.own[u]) && In(h.mem, h.own[u], u))
    && (forall a :: IsBlock(base, h, a) ==> base < a && a in h.mem && h.mem[a].size >= 1)
    && (forall a, u :: IsBlock(base, h, a) && In(h.mem, a, u) ==> u in h.own && h.own[u] == a)
    && (forall a :: a in h.live ==> a !in h.free)
  }

  ghost predicate Ok(base: nat, h: HeapState) {
    ListOk(base, h.mem, h.free) && OwnOk(base, h)
  }

  // --- what free does to the list ---------------------------------------------------------

  // Block b, live until now, is linked in after node p.
  ghost function Inserted(h: HeapState, p: nat, b: nat): HeapState
    requires p in h.mem && b in h.mem
  {
    h.(mem := h.mem[b := Header(h.mem[p].ptr, h.mem[b].size)][p := Header(b, h.mem[p].size)],
       free := h.free + {b},
       live := h.live - {b})
  }

  // p is the last free block below b.
  ghost predicate Before(h: HeapState, p: nat, b: nat) {
    p in h.free && p < b && forall x :: x in h.free && x < b ==> x <= p
  }

  // Blocks do not overlap.
  lemma Disjoint(base: nat, h: HeapState, a: nat, b: nat)
    requires Ok(base, h) && IsBlock(base, h, b) && (IsBlock(base, h, a) || a == base) && a < b
    ensures a + h.mem[a].size <= b
  {
  }

  lemma InsertList(base: nat, h: HeapState, p: nat, b: nat)
    requires Ok(base, h) && b in h.live && Before(h, p, b)
    ensures ListOk(base, Inserted(h, p, b).mem, Inserted(h, p, b).free)
  {
    var h' := Inserted(h, p, b);
    assert IsBlock(base, h, b);
    assert Linked(base, h.mem, h.free, p);
    forall x | x in h'.free ensures Linked(base, h'.mem, h'.free, x) {
      if x != b { assert Linked(base, h.mem, h.free, x); }
    }
    forall x, y | x in h'.free && y in h'.free && x < y ensures x + h'.mem[x].size <= y {
      Disjoint(base, h, x, y);
    }
  }

  lemma InsertOk(base: nat, h: HeapState, p: nat, b: nat)
    requires Ok(base, h) && b in h.live && Before(h, p, b)
    ensures Ok(base, Inserted(h, p, b))
    ensures forall a :: a in h.free && a != p && Apart(h.mem, a) ==> Apart(Inserted(h, p, b).mem, a)
  {
    InsertList(base, h, p, b);
    var h' := Inserted(h, p, b);
    assert forall a :: IsBlock(base, h', a) <==> IsBlock(base, h, a);
    assert forall a, u :: In(h'.mem, a, u) <==> In(h.mem, a, u);
  }

  // Node a absorbs the free block after it, which it touches.
  ghost function Merged(h: HeapState, a: nat): HeapState
    requires a in h.mem && h.mem[a].ptr in h.mem
  {
    var q := h.mem[a].ptr;
    h.(mem := h.mem[a := Header(h.mem[q].ptr, h.mem[a].size + h.mem[q].size)],
       free := h.free - {q},
       own := map u | u in h.own :: if h.own[u] == q then a else h.own[u])
  }

  ghost predicate Touching(base: nat, h: HeapState, a: nat) {
    a in h.free && a in h.mem && a != base && a < h.mem[a].ptr && a + h.mem[a].size == h.mem[a].ptr
  }

  lemma MergeOk(base: nat, h: HeapState, a: nat)
    requires Ok(base, h) && Touching(base, h, a)
    ensures h.mem[a].ptr in h.free && Ok(base, Merged(h, a))
    ensures forall x :: x in h.free && x != a && x != h.mem[a].ptr && Apart(h.mem, x) ==> Apart(Merged(h, a).mem, x)
    ensures Apart(h.mem, h.mem[a].ptr) ==> Apart(Merged(h, a).mem, a)
  {
    assert Linked(base, h.mem, h.free, a);
    var q := h.mem[a].ptr;
    var h' := Merged(h, a);
    MergeList(base, h.mem, h.free, a, q, h'.mem, h'.free);
    MergeOwn(base, h, a, q, h');
  }

  lemma MergeLinked(base: nat, mem: Memory, free: set<nat>, a: nat, q: nat, x: nat)
    requires base in free && a in free && q in free && a in mem && q in mem && x in mem && base < a < q == mem[a].ptr
    requires Follows(base, free, a, q) && Follows(base, free, q, mem[q].ptr) && Follows(base, free, x, mem[x].ptr)
    requires x in free && x != q
    ensures Follows(base, free - {q}, x, if x == a then mem[q].ptr else mem[x].ptr)
  {
  }

  lemma MergeList(base: nat, mem: Memory, free: set<nat>, a: nat, q: nat, mem': Memory, free': set<nat>)
    requires ListOk(base, mem, free) && a in free && q in free && base < a < q == mem[a].ptr && a + mem[a].size == q
    requires mem' == mem[a := Header(mem[q].ptr, mem[a].size + mem[q].size)] && free' == free - {q}
    ensures ListOk(base, mem', free')
    ensures Apart(mem, q) ==> Apart(mem', a)
  {
    assert Linked(base, mem, free, a) && Linked(base, mem, free, q);
    forall x | x in free' ensures Linked(base, mem', free', x) {
      assert Linked(base, mem, free, x);
      MergeLinked(base, mem, free, a, q, x);
    }
    forall x, y | x in free' && y in free' && x < y ensures x + mem'[x].size <= y {
      if x == a {
        assert q < y;
      }
    }
  }

  lemma MergeOwn(base: nat, h: HeapState, a: nat, q: nat, h': HeapState)
    requires OwnOk(base, h) && a in h.free && q in h.free && a in h.mem && q in h.mem
    requires base < a < q == h.mem[a].ptr && a + h.mem[a].size == q
    requires h' == Merged(h, a)
    ensures OwnOk(base, h')
  {
    assert IsBlock(base, h, a) && IsBlock(base, h, q);
    assert forall x :: IsBlock(base, h', x) <==> IsBlock(base, h, x) && x != q;
    assert forall u :: In(h'.mem, a, u) <==> In(h.mem, a, u) || In(h.mem, q, u);
    forall x, u | IsBlock(base, h', x) && In(h'.mem, x, u) ensures u in h'.own && h'.own[u] == x {
      if x != a {
        assert IsBlock(base, h, x) && In(h.mem, x, u);
      }
    }
  }

  // free as a whole: link in, then merge upwards, then downwards.
  ghost function Upper(h: HeapState, p: nat, b: nat): HeapState
    requires p in h.mem && b in h.mem
  {
    var h1 := Inserted(h, p, b);
    if b + h.mem[b].size == h.mem[p].ptr && h.mem[p].ptr in h1.mem && h1.mem[b].ptr in h1.mem then Merged(h1, b) else h1
  }

  lemma UpperOk(base: nat, h: HeapState, p: nat, b: nat)
    requires Ok(base, h) && AllApart(h) && b in h.live && Before(h, p, b)
    ensures var h2 := Upper(h, p, b);
            && Ok(base, h2) && b in h2.free && p in h2.free && h2.mem[p] == Header(b, h.mem[p].size)
            && h2.live == h.live - {b}
            && forall x :: x in h2.free && x != p ==> Apart(h2.mem, x)
  {
    assert IsBlock(base, h, b);
    assert Linked(base, h.mem, h.free, p);
    InsertOk(base, h, p, b);
    var h1, q := Inserted(h, p, b), h.mem[p].ptr;
    if b + h.mem[b].size == q {
      assert q != p && q != b && Apart(h.mem, q);
      MergeOk(base, h1, b);
    } else if b < q {
      Disjoint(base, h, b, q);
    }
  }

  ghost function Freed(h: HeapState, p: nat, b: nat): HeapState
    requires p in h.mem && b in h.mem
  {
    var h2 := Upper(h, p, b);
    if p + h.mem[p].size == b && p in h2.mem && h2.mem[p].ptr in h2.mem then Merged(h2, p) else h2
  }

  lemma FreedOk(base: nat, h: HeapState, p: nat, b: nat)
    requires Ok(base, h) && AllApart(h) && b in h.live && Before(h, p, b)
    ensures var h3 := Freed(h, p, b);
            Ok(base, h3) && AllApart(h3) && p in h3.free && h3.live == h.live - {b}
  {
    UpperOk(base, h, p, b);
    assert IsBlock(base, h, b);
    var h2 := Upper(h, p, b);
    Disjoint(base, h, p, b);
    if p + h.mem[p].size == b {
      assert Apart(h2.mem, b);
      MergeOk(base, h2, p);
    }
  }

  // --- what malloc does to the list -------------------------------------------------------

  // The node after prevp is unlinked and handed out whole.
  ghost function Removed(h: HeapState, prevp: nat): HeapState
    requires prevp in h.mem && h.mem[prevp].ptr in h.mem
  {
    var p := h.mem[prevp].ptr;
    h.(mem := h.mem[prevp := Header(h.mem[p].ptr, h.mem[prevp].size)], free := h.free - {p}, live := h.live + {p})
  }

  lemma RemoveLinked(base: nat, mem: Memory, free: set<nat>, prevp: nat, p: nat, x: nat)
    requires base in free && prevp in free && p in free && prevp in mem && p in mem && x in mem && p != base
    requires p == mem[prevp].ptr && base < p && base <= prevp && base <= x
    requires Follows(base, free, prevp, p) && Follows(base, free, p, mem[p].ptr) && Follows(base, free, x, mem[x].ptr)
    requires x in free && x != p
    ensures Follows(base, free - {p}, x, if x == prevp then mem[p].ptr else mem[x].ptr)
  {
  }

  lemma RemoveList(base: nat, mem: Memory, free: set<nat>, prevp: nat, p: nat, mem': Memory, free': set<nat>)
    requires ListOk(base, mem, free) && prevp in free && p in free && p == mem[prevp].ptr && p != base
    requires mem' == mem[prevp := Header(mem[p].ptr, mem[prevp].size)] && free' == free - {p}
    ensures ListOk(base, mem', free')
    ensures Apart(mem', prevp)
  {
    assert Linked(base, mem, free, prevp) && Linked(base, mem, free, p);
    forall x | x in free' ensures Linked(base, mem', free', x) {
      assert Linked(base, mem, free, x);
      RemoveLinked(base, mem, free, prevp, p, x);
    }
  }

  lemma RemoveOk(base: nat, h: HeapState, prevp: nat)
    requires Ok(base, h) && prevp in h.free && h.mem[prevp].ptr != base
    ensures h.mem[prevp].ptr in h.free && Ok(base, Removed(h, prevp))
    ensures forall x :: x in h.free && x != h.mem[prevp].ptr && Apart(h.mem, x) ==> Apart(Removed(h, prevp).mem, x)
  {
    assert Linked(base, h.mem, h.free, prevp);
    var h', p := Removed(h, prevp), h.mem[prevp].ptr;
    RemoveList(base, h.mem, h.free, prevp, p, h'.mem, h'.free);
    assert forall a :: IsBlock(base, h', a) <==> IsBlock(base, h, a);
    assert forall a, u :: In(h'.mem, a, u) <==> In(h.mem, a, u);
  }

  // The last n units of free block p are handed out.
  ghost function Split(h: HeapState, p: nat, n: nat, b: nat): HeapState
    requires p in h.mem && n < h.mem[p].size && b in h.mem
  {
    h.(mem := h.mem[p := Header(h.mem[p].ptr, h.mem[p].size - n)][b := Header(h.mem[b].ptr, n)],
       live := h.live + {b},
       own := map u | u in h.own :: if b <= u < b + n then b else h.own[u])
  }

  lemma SplitOk(base: nat, h: HeapState, p: nat, n: nat, b: nat)
    requires Ok(base, h) && p in h.free && p != base && 0 < n < h.mem[p].size && b == p + h.mem[p].size - n
    ensures b in h.own && h.own[b] == p && b in h.mem
    ensures Ok(base, Split(h, p, n, b))
    ensures forall x :: x in h.free && Apart(h.mem, x) ==> Apart(Split(h, p, n, b).mem, x)
  {
    assert IsBlock(base, h, p) && In(h.mem, p, b);
    assert IsBlock(base, h, b) ==> In(h.mem, b, b);
    var h' := Split(h, p, n, b);
    assert b !in h.free && b !in h.live;
    ShrinkList(base, h.mem, h.free, h'.mem);
    SplitOwn(base, h, p, n, b, h');
  }

  // Making free blocks smaller at their upper end keeps the list.
  lemma ShrinkList(base: nat, mem: Memory, free: set<nat>, mem': Memory)
    requires ListOk(base, mem, free)
    requires forall a :: a in free ==> a in mem' && mem'[a].ptr == mem[a].ptr && mem'[a].size <= mem[a].size
    ensures ListOk(base, mem', free)
  {
    forall x | x in free ensures Linked(base, mem', free, x) {
      assert Linked(base, mem, free, x);
    }
  }

  lemma SplitOwn(base: nat, h: HeapState, p: nat, n: nat, b: nat, h': HeapState)
    requires OwnOk(base, h) && p in h.free && p != base && p in h.mem && 0 < n < h.mem[p].size
    requires b == p + h.mem[p].size - n && b in h.mem && b !in h.free && b !in h.live && h' == Split(h, p, n, b)
    ensures OwnOk(base, h')
  {
    assert IsBlock(base, h, p);
    assert forall x :: IsBlock(base, h', x) <==> IsBlock(base, h, x) || x == b;
    assert forall u :: In(h.mem, p, u) <==> In(h'.mem, p, u) || In(h'.mem, b, u);
    forall x, u | IsBlock(base, h', x) && In(h'.mem, x, u) ensures u in h'.own && h'.own[u] == x {
      if x == b || x == p {
        assert In(h.mem, p, u);
      } else {
        assert IsBlock(base, h, x) && In(h.mem, x, u);
        assert !In(h'.mem, b, u);
      }
    }
  }

  // c, c+1, ..., c+n-1
  function Units(c: nat, n: nat): (r: set<nat>)
    ensures forall u :: u in r <==> c <= u < c + n
  {
    if n == 0 then {} else Units(c, n - 1) + {c + n - 1}
  }

  // sbrk has added n zeroed units at c and morecore writes the size into the first.
  function CoreMem(mem: Memory, c: nat, n: nat): Memory {
    mem + map u | u in Units(c, n) :: if u == c then Header(0, n) else Header(0, 0)
  }

  // The added units are one live block.
  ghost function WithCore(h: HeapState, c: nat, n: nat): HeapState {
    h.(mem := CoreMem(h.mem, c, n),
       live := h.live + {c},
       own := h.own + (map u | u in Units(c, n) :: c))
  }

  lemma CoreOk(base: nat, h: HeapState, c: nat, n: nat)
    requires Ok(base, h) && base < c && n > 0 && forall u :: u in h.own ==> u < c
    ensures Ok(base, WithCore(h, c, n))
    ensures forall x :: x in h.free && Apart(h.mem, x) ==> Apart(WithCore(h, c, n).mem, x)
  {
    var h' := WithCore(h, c, n);
    forall a: nat | IsBlock(base, h, a) ensures a + h.mem[a].size <= c {
      assert In(h.mem, a, a + h.mem[a].size - 1);
    }
    assert forall a :: a in h.free ==> a in h'.mem && h'.mem[a] == h.mem[a];
    ShrinkList(base, h.mem, h.free, h'.mem);
    CoreOwn(base, h, c, n, h');
  }

  lemma CoreOwn(base: nat, h: HeapState, c: nat, n: nat, h': HeapState)
    requires OwnOk(base, h) && base < c && n > 0 && base !in h.own
    requires forall a: nat :: IsBlock(base, h, a) ==> a in h.mem && a + h.mem[a].size <= c
    requires h' == WithCore(h, c, n) && c !in h.free
    ensures OwnOk(base, h')
  {
    assert forall x :: IsBlock(base, h', x) <==> IsBlock(base, h, x) || x == c;
    assert forall x, u :: IsBlock(base, h, x) ==> (In(h'.mem, x, u) <==> In(h.mem, x, u));
    assert forall u: nat :: In(h'.mem, c, u) <==> u in Units(c, n);
    forall x, u | IsBlock(base, h', x) && In(h'.mem, x, u) ensures u in h'.own && h'.own[u] == x {
      if IsBlock(base, h, x) {
        assert In(h.mem, x, u);
      }
    }
  }

  // --- what callers see ----------------------------------------------------------------------

  // Live blocks other than `gone` keep their place, their size and their contents.
  ghost predicate LiveKept(h: HeapState, h': HeapState, gone: set<nat>) {
    forall u :: u in h.own && h.own[u] in h.live && h.own[u] !in gone ==>
      u in h'.own && h'.own[u] == h.own[u] && u in h.mem && u in h'.mem && h'.mem[u] == h.mem[u]
  }

  // The units that are not handed out.
  ghost function FreeUnits(h: HeapState): set<nat> {
    set u | u in h.own && h.own[u] !in h.live
  }

  ghost function UnitsOf(h: HeapState, b: nat): set<nat> {
    set u | u in h.own && h.own[u] == b
  }

  lemma InsertEffect(base: nat, h: HeapState, p: nat, b: nat)
    requires Ok(base, h) && b in h.live && p in h.free
    ensures var h' := Inserted(h, p, b);
            LiveKept(h, h', {b}) && FreeUnits(h') == FreeUnits(h) + UnitsOf(h, b)
  {
    var h' := Inserted(h, p, b);
    assert IsBlock(base, h, b);
    forall u | u in h.own && h.own[u] in h.live && h.own[u] != b ensures h'.mem[u] == h.mem[u] {
      NotAHeader(base, h, u, p);
      NotAHeader(base, h, u, b);
    }
  }

  lemma MergeEffect(base: nat, h: HeapState, a: nat)
    requires Ok(base, h) && Touching(base, h, a) && h.mem[a].ptr in h.free
    ensures var h' := Merged(h, a);
            h'.own.Keys == h.own.Keys && LiveKept(h, h', {}) && FreeUnits(h') == FreeUnits(h)
  {
    var h' := Merged(h, a);
    forall u | u in h.own && h.own[u] in h.live ensures h'.mem[u] == h.mem[u] {
      NotAHeader(base, h, u, a);
    }
  }

  lemma KeptTwice(h: HeapState, h1: HeapState, h2: HeapState, b: nat)
    requires LiveKept(h, h1, {b}) && LiveKept(h1, h2, {}) && h1.live == h.live - {b}
    ensures LiveKept(h, h2, {b})
  {
  }

  lemma UpperEffect(base: nat, h: HeapState, p: nat, b: nat)
    requires Ok(base, h) && AllApart(h) && b in h.live && Before(h, p, b)
    ensures var h2 := Upper(h, p, b);
            && h2.own.Keys == h.own.Keys && LiveKept(h, h2, {b}) && FreeUnits(h2) == FreeUnits(h) + UnitsOf(h, b)
            && b in h2.mem && h2.mem[b].size >= h.mem[b].size
  {
    InsertEffect(base, h, p, b);
    InsertOk(base, h, p, b);
    assert IsBlock(base, h, b);
    assert Linked(base, h.mem, h.free, p);
    var h1 := Inserted(h, p, b);
    if b + h.mem[b].size == h.mem[p].ptr {
      MergeEffect(base, h1, b);
      KeptTwice(h, h1, Merged(h1, b), b);
    }
  }

  // free gives back exactly the units of b and disturbs no other live block.
  lemma FreedEffect(base: nat, h: HeapState, p: nat, b: nat)
    requires Ok(base, h) && AllApart(h) && b in h.live && Before(h, p, b)
    ensures var h3 := Freed(h, p, b);
            && GivenBack(h, h3, b)
            && p in h3.mem && HasRoom(h3.mem, p, h.mem[b].size)
  {
    UpperEffect(base, h, p, b);
    UpperOk(base, h, p, b);
    assert IsBlock(base, h, b);
    var h2 := Upper(h, p, b);
    if p + h.mem[p].size == b {
      MergeEffect(base, h2, p);
      KeptTwice(h, h2, Merged(h2, p), b);
    }
  }

  lemma RemoveEffect(base: nat, h: HeapState, prevp: nat)
    requires Ok(base, h) && prevp in h.free && h.mem[prevp].ptr != base && h.mem[prevp].ptr in h.free
    ensures var h', p := Removed(h, prevp), h.mem[prevp].ptr;
            LiveKept(h, h', {}) && FreeUnits(h') + UnitsOf(h', p) == FreeUnits(h)
  {
    var h', p := Removed(h, prevp), h.mem[prevp].ptr;
    assert IsBlock(base, h, p);
    forall u | u in h.own && h.own[u] in h.live ensures h'.mem[u] == h.mem[u] {
      NotAHeader(base, h, u, prevp);
    }
  }

  lemma SplitEffect(base: nat, h: HeapState, p: nat, n: nat, b: nat)
    requires Ok(base, h) && p in h.free && p != base && 0 < n < h.mem[p].size && b == p + h.mem[p].size - n
    requires b in h.own && h.own[b] == p
    ensures var h' := Split(h, p, n, b);
            && h'.own.Keys == h.own.Keys && b !in h.live
            && LiveKept(h, h', {}) && FreeUnits(h') + UnitsOf(h', b) == FreeUnits(h)
  {
    var h' := Split(h, p, n, b);
    assert IsBlock(base, h, p);
    assert IsBlock(base, h, b) ==> In(h.mem, b, b);
    forall u | u in h.own && h.own[u] in h.live ensures h'.mem[u] == h.mem[u] && h'.own[u] == h.own[u] {
      if b <= u < b + n { assert In(h.mem, p, u); }
      NotAHeader(base, h, u, p);
    }
    forall u | u in h.own && b <= u < b + n ensures h.own[u] == p {
      assert In(h.mem, p, u);
    }
  }

  lemma CoreEffect(base: nat, h: HeapState, c: nat, n: nat)
    requires Ok(base, h) && base < c && n > 0 && forall u :: u in h.own ==> u < c
    ensures var h' := WithCore(h, c, n);
            && h'.own.Keys == h.own.Keys + Units(c, n) && c !in h.live && h'.mem[c].size == n
            && LiveKept(h, h', {}) && FreeUnits(h') == FreeUnits(h) && UnitsOf(h', c) == Units(c, n)
  {
    var h' := WithCore(h, c, n);
    assert c in h.live ==> IsBlock(base, h, c) && In(h.mem, c, c);
    forall u | u in h.own ensures h.own[u] < c {
      assert IsBlock(base, h, h.own[u]);
    }
  }

  // A block's units are the consecutive ones from its header on.
  lemma BlockUnits(base: nat, h: HeapState, a: nat)
    requires OwnOk(base, h) && IsBlock(base, h, a)
    ensures UnitsOf(h, a) == Units(a, h.mem[a].size)
  {
    assert forall u: nat :: In(h.mem, a, u) <==> u in Units(a, h.mem[a].size);
  }

  lemma CoreFreed(base: nat, h: HeapState, h1: HeapState, h2: HeapState, c: nat, n: nat)
    requires Ok(base, h) && base < c && n > 0 && (forall u :: u in h.own ==> u < c) && h1 == WithCore(h, c, n)
    requires GivenBack(h1, h2, c)
    ensures Gained(h, h2, Units(c, n))
  {
    CoreEffect(base, h, c, n);
    forall u | u in h.own && h.own[u] in h.live ensures h.own[u] != c && h1.own[u] == h.own[u] {
      assert IsBlock(base, h, h.own[u]);
    }
  }

  // Whatever its owner writes into a live block, below the header, is none of the allocator's business.
  lemma PayloadFree(base: nat, h: HeapState, u: nat, x: Header)
    requires Ok(base, h) && AllApart(h) && u in h.own && h.own[u] in h.live && u != h.own[u]
    ensures var h' := h.(mem := h.mem[u := x]);
            Ok(base, h') && AllApart(h') && FreeUnits(h') == FreeUnits(h)
  {
    var h' := h.(mem := h.mem[u := x]);
    forall a | a in h.free || IsBlock(base, h, a) ensures a != u {
      if a != h.own[u] { NotAHeader(base, h, u, a); }
    }
    ShrinkList(base, h.mem, h.free, h'.mem);
    assert forall a :: IsBlock(base, h', a) <==> IsBlock(base, h, a);
    assert forall a, v :: IsBlock(base, h, a) ==> (In(h'.mem, a, v) <==> In(h.mem, a, v));
  }

  // --- sizes -----------------------------------------------------------------------------------

  const HEADER := 8    // sizeof(Header)
  const INTMAX := 0x7fff_ffff

  // Units for nbytes of data and a header, in unsigned 32-bit arithmetic.
  function NUnits(nbytes: nat): (n: nat)
    ensures n > 0
  {
    (nbytes + HEADER - 1) % UINT / HEADER + 1
  }

  // The block is large enough unless rounding nbytes up wraps around.
  lemma NUnitsEnough(nbytes: nat)
    requires nbytes < UINT
    ensures (NUnits(nbytes) - 1) * HEADER >= nbytes <==> nbytes <= UINT - HEADER
    ensures nbytes <= UINT - HEADER ==> (NUnits(nbytes) - 2) * HEADER < nbytes
  {
  }

  lemma HugeRequestGetsOneUnit()
    ensures NUnits(UINT - 1) == 1
  {
  }

  // morecore asks for at least 4096 units.
  function CoreUnits(n: nat): (r: nat)
    ensures r >= n && r > 0
  {
    if n < 4096 then 4096 else n
  }

  ghost predicate NoFit(h: HeapState, n: nat) {
    forall x :: x in h.free && x in h.mem ==> h.mem[x].size < n
  }

  // The nodes malloc still looks at: from p on, cyclically, up to and including f.
  ghost function ToGo(free: set<nat>, p: nat, f: nat): set<nat> {
    set x | x in free && if p <= f then p <= x <= f else p <= x || x <= f
  }

  lemma ToGoStart(base: nat, mem: Memory, free: set<nat>, f: nat)
    requires ListOk(base, mem, free) && f in free
    ensures mem[f].ptr in free && ToGo(free, mem[f].ptr, f) == free
  {
    assert Linked(base, mem, free, f);
  }

  lemma ToGoStep(base: nat, mem: Memory, free: set<nat>, p: nat, f: nat)
    requires ListOk(base, mem, free) && f in free && p in free && p != f
    ensures mem[p].ptr in free && ToGo(free, mem[p].ptr, f) == ToGo(free, p, f) - {p}
  {
    assert Linked(base, mem, free, p);
  }

  datatype Core = NoCore | CoreAt(unit: nat)

  // The node p or the one after it has at least n units.
  ghost predicate HasRoom(mem: Memory, p: nat, n: nat)
    requires p in mem
  {
    mem[p].size >= n || (mem[p].ptr in mem && mem[mem[p].ptr].size >= n)
  }

  // A unit of a live block is the header of no other block.
  lemma NotAHeader(base: nat, h: HeapState, u: nat, a: nat)
    requires Ok(base, h) && u in h.own && (IsBlock(base, h, a) || a == base) && h.own[u] != a
    ensures u != a
  {
  }

  ghost predicate AllApart(h: HeapState) {
    forall a :: a in h.free && a in h.mem ==> Apart(h.mem, a)
  }

  // h' has `more` units beyond those of h, all of them free; live blocks are as they were.
  ghost predicate Gained(h: HeapState, h': HeapState, more: set<nat>) {
    && h'.live == h.live && LiveKept(h, h', {}) && more !! h.own.Keys
    && h'.own.Keys == h.own.Keys + more && FreeUnits(h') == FreeUnits(h) + more
  }

  // Live block b has become free, and nothing else changed hands.
  ghost predicate GivenBack(h: HeapState, h': HeapState, b: nat) {
    && h'.live == h.live - {b} && h'.own.Keys == h.own.Keys && LiveKept(h, h', {b})
    && FreeUnits(h') == FreeUnits(h) + UnitsOf(h, b)
  }

  // b is a new live block of exactly n units, all of them free before; nothing else changed hands.
  ghost predicate HandedOut(h: HeapState, h': HeapState, b: nat, n: nat) {
    && h'.live == h.live + {b} && b !in h.live && b in h'.mem && h'.mem[b].size == n
    && UnitsOf(h', b) == Units(b, n) && h'.own.Keys == h.own.Keys && LiveKept(h, h', {})
    && FreeUnits(h') + Units(b, n) == FreeUnits(h)
  }

  lemma TakeWhole(base: nat, h: HeapState, prevp: nat, p: nat)
    requires Ok(base, h) && AllApart(h) && prevp in h.free && p == h.mem[prevp].ptr && p != base && p in h.mem
    ensures var h' := Removed(h, prevp);
            Ok(base, h') && AllApart(h') && prevp in h'.free && HandedOut(h, h', p, h.mem[p].size)
  {
    var h' := Removed(h, prevp);
    RemoveOk(base, h, prevp);
    RemoveEffect(base, h, prevp);
    assert prevp != p by { assert Linked(base, h.mem, h.free, prevp); }
    assert IsBlock(base, h', p);
    BlockUnits(base, h', p);
  }

  lemma TakePart(base: nat, h: HeapState, p: nat, n: nat, b: nat)
    requires Ok(base, h) && AllApart(h) && p in h.free && p != base && 0 < n < h.mem[p].size && b == p + h.mem[p].size - n
    ensures b in h.mem
    ensures var h' := Split(h, p, n, b);
            Ok(base, h') && AllApart(h') && HandedOut(h, h', b, n)
  {
    SplitOk(base, h, p, n, b);
    SplitEffect(base, h, p, n, b);
    var h' := Split(h, p, n, b);
    assert IsBlock(base, h', b);
    BlockUnits(base, h', b);
  }

  lemma GainedFromNothing(h: HeapState, h1: HeapState, h2: HeapState, more: set<nat>)
    requires h.live == h1.live == {} && h.own == h1.own == map[] && Gained(h1, h2, more)
    ensures Gained(h, h2, more)
  {
  }

  class Heap {
    const base: nat
    var mem: Memory
    var freep: nat            // 0 before the first malloc
    ghost var brk: nat        // the next sbrk result lies here or above
    ghost var st: HeapState

    ghost predicate Valid()
      reads this
    {
      && 0 < base < brk && st.mem == mem
      && (forall u :: u in st.own ==> u < brk)
      && if freep == 0 then base in mem && st.free == {} && st.live == {} && st.own == map[]
         else Ok(base, st) && AllApart(st) && freep in st.free
    }

    // A program that has not allocated anything yet.
    constructor (b: nat, end: nat)
      requires 0 < b < end
      ensures Valid() && base == b && brk == end && st.live == {} && st.own == map[]
    {
      base, brk := b, end;
      mem := map[b := Header(0, 0)];
      freep := 0;
      st := HeapState(map[b := Header(0, 0)], {}, {}, map[]);
    }

    // free: the block goes back to the free list, merged with the blocks it touches.
    method Free(ap: nat)
      requires Valid() && ap > 0 && ap - 1 in st.live
      modifies this`mem, this`freep, this`st
      ensures Valid() && freep != 0 && GivenBack(old(st), st, ap - 1)
      ensures freep in mem && HasRoom(mem, freep, old(mem)[ap - 1].size)
    {
      var bp := ap - 1;
      assert IsBlock(base, st, bp);
      var p := FindPlace(bp);
      FreedOk(base, st, p, bp);
      FreedEffect(base, st, p, bp);
      assert Linked(base, mem, st.free, p);
      LinkIn(p, bp);
      st := Freed(st, p, bp);
      freep := p;
    }

    // The stores of free.
    method LinkIn(p: nat, bp: nat)
      requires st.mem == mem && p in mem && bp in mem && mem[p].ptr in mem && p < bp && mem[p].ptr != bp
      modifies this`mem
      ensures mem == Freed(st, p, bp).mem
    {
      var q := mem[p].ptr;
      if bp + mem[bp].size == q {
        mem := mem[bp := Header(mem[q].ptr, mem[bp].size + mem[q].size)];
      } else {
        mem := mem[bp := Header(q, mem[bp].size)];
      }
      if p + mem[p].size == bp {
        mem := mem[p := Header(mem[bp].ptr, mem[p].size + mem[bp].size)];
      } else {
        mem := mem[p := Header(bp, mem[p].size)];
      }
    }

    // The search loop of free: the last free block below bp.
    method FindPlace(bp: nat) returns (p: nat)
      requires ListOk(base, mem, st.free) && freep in st.free && base < bp && bp !in st.free
      ensures Before(st, p, bp)
    {
      p := freep;
      while !(bp > p && bp < mem[p].ptr)
        invariant p in st.free && p in mem && Linked(base, mem, st.free, p)
        decreases Ahead(st.free, p, bp), p
      {
        if p >= mem[p].ptr && (bp > p || bp < mem[p].ptr) {
          break;
        }
        AheadDecreases(base, mem, st.free, p, bp);
        p := mem[p].ptr;
        assert Linked(base, mem, st.free, p);
      }
    }

    // morecore: sbrk is asked for units; what it gives goes to the free list as if it had been freed.
    method Morecore(nunits: nat, core: Core) returns (r: nat)
      requires Valid() && freep != 0 && nunits > 0
      requires core.CoreAt? ==> brk <= core.unit
      modifies this
      ensures Valid() && freep != 0
      ensures core.NoCore? ==> r == 0 && st == old(st) && freep == old(freep)
      ensures core.CoreAt? ==>
                && r == freep && freep in mem && HasRoom(mem, freep, nunits)
                && Gained(old(st), st, Units(core.unit, CoreUnits(nunits)))
    {
      if core.NoCore? {
        return 0;
      }
      var c, nu := core.unit, CoreUnits(nunits);
      ghost var h := st;
      AddCore(c, nu);
      ghost var h1 := st;
      Free(c + 1);
      CoreFreed(base, h, h1, st, c, nu);
      r := freep;
    }

    // The block sbrk has added, as it is passed to free.
    method AddCore(c: nat, nu: nat)
      requires Valid() && freep != 0 && nu > 0 && brk <= c
      modifies this`mem, this`brk, this`st
      ensures Valid() && st == WithCore(old(st), c, nu) && c in st.live && mem[c].size == nu
    {
      CoreOk(base, st, c, nu);
      mem := CoreMem(mem, c, nu);
      st := WithCore(st, c, nu);
      brk := c + nu;
    }

    // The first malloc makes a list of the empty block base.
    method FirstCall()
      requires Valid()
      modifies this`mem, this`freep, this`st
      ensures Valid() && freep != 0
      ensures old(freep) != 0 ==> st == old(st)
      ensures old(freep) == 0 ==> NoFit(st, 1) && st.live == {} && st.own == map[]
    {
      if freep == 0 {
        mem := mem[base := Header(base, 0)];
        freep := base;
        st := st.(mem := mem, free := {base});
        assert Linked(base, mem, {base}, base);
      }
    }

    // The loop of malloc: a node whose successor is large enough, if need be after morecore.
    method Search(nunits: nat, core: Core) returns (prevp: nat)
      requires Valid() && freep != 0 && nunits > 0
      requires core.CoreAt? ==> brk <= core.unit
      modifies this
      ensures Valid() && freep != 0
      ensures !NoFit(old(st), nunits) ==> st == old(st)
      ensures NoFit(old(st), nunits) && core.CoreAt? ==> Gained(old(st), st, Units(core.unit, CoreUnits(nunits)))
      ensures NoFit(old(st), nunits) && core.NoCore? ==> prevp == 0 && st == old(st)
      ensures !(NoFit(old(st), nunits) && core.NoCore?) ==>
                prevp in st.free && mem[prevp].ptr in mem && mem[mem[prevp].ptr].size >= nunits
    {
      prevp := freep;
      var p := mem[prevp].ptr;
      ghost var grown := false;
      ToGoStart(base, mem, st.free, freep);
      while mem[p].size < nunits
        invariant Valid() && freep != 0 && prevp in st.free && p in st.free && p in mem && p == mem[prevp].ptr
        invariant !grown ==> st == old(st) && brk == old(brk)
        invariant !grown ==> forall x :: x in st.free && x !in ToGo(st.free, p, freep) ==> mem[x].size < nunits
        invariant grown ==> NoFit(old(st), nunits) && core.CoreAt?
        invariant grown ==> Gained(old(st), st, Units(core.unit, CoreUnits(nunits)))
        invariant grown ==> mem[freep].size >= nunits || (prevp == freep && mem[p].size >= nunits)
        decreases !grown, ToGo(st.free, p, freep)
      {
        if p == freep {
          assert !grown && NoFit(st, nunits);
          p := Morecore(nunits, core);
          if p == 0 {
            return 0;
          }
          grown := true;
          ToGoStart(base, mem, st.free, freep);
        } else {
          ToGoStep(base, mem, st.free, p, freep);
        }
        prevp, p := p, mem[p].ptr;
      }
    }

    // The block after prevp is large enough: hand out nunits of it, all of it or its upper end.
    method Take(prevp: nat, nunits: nat) returns (b: nat)
      requires Valid() && freep != 0 && prevp in st.free && nunits > 0
      requires mem[prevp].ptr in mem && mem[mem[prevp].ptr].size >= nunits
      modifies this`mem, this`freep, this`st
      ensures Valid() && freep != 0 && HandedOut(old(st), st, b, nunits)
    {
      assert Linked(base, mem, st.free, prevp);
      b := mem[prevp].ptr;
      if mem[b].size == nunits {
        TakeWhole(base, st, prevp, b);
        mem := mem[prevp := Header(mem[b].ptr, mem[prevp].size)];
        st := Removed(st, prevp);
      } else {
        ghost var p, b' := b, b + mem[b].size - nunits;
        TakePart(base, st, p, nunits, b');
        b := CutTail(b, nunits, b');
        st := Split(st, p, nunits, b');
      }
      freep := prevp;
    }

    method CutTail(p: nat, nunits: nat, ghost b': nat) returns (b: nat)
      requires st.mem == mem && p in mem && nunits < mem[p].size && b' == p + mem[p].size - nunits && b' in mem
      modifies this`mem
      ensures b == b' && mem == Split(st, p, nunits, b).mem
    {
      mem := mem[p := Header(mem[p].ptr, mem[p].size - nunits)];
      b := p + mem[p].size;
      assert b == b';
      mem := mem[b := Header(mem[b].ptr, nunits)];
    }

    // malloc in units: the header of the block, or 0.
    method Allocate(nunits: nat, core: Core) returns (b: nat, ghost grown: HeapState)
      requires Valid() && nunits > 0
      requires core.CoreAt? ==> brk <= core.unit
      modifies this
      ensures Valid() && freep != 0
      ensures b == 0 <==> core.NoCore? && NoFit(old(st), nunits)
      ensures b == 0 ==> st.live == old(st).live && st.own == old(st).own && LiveKept(old(st), st, {})
      ensures !NoFit(old(st), nunits) ==> grown == old(st)
      ensures b != 0 && NoFit(old(st), nunits) ==> Gained(old(st), grown, Units(core.unit, CoreUnits(nunits)))
      ensures b != 0 ==> HandedOut(grown, st, b, nunits)
    {
      FirstCall();
      ghost var h := st;
      assert NoFit(h, nunits) <==> NoFit(old(st), nunits);
      var prevp := Search(nunits, core);
      grown := st;
      if prevp == 0 {
        return 0, grown;
      }
      if old(freep) == 0 {
        GainedFromNothing(old(st), h, grown, Units(core.unit, CoreUnits(nunits)));
      }
      b := Take(prevp, nunits);
    }

    /** malloc.  `core` is what sbrk answers if it is asked; `grown` is the heap the block is taken from. */
    method Malloc(nbytes: nat, core: Core) returns (ap: nat, ghost grown: HeapState)
      requires Valid() && nbytes < UINT && CoreUnits(NUnits(nbytes)) * HEADER <= INTMAX
      requires core.CoreAt? ==> brk <= core.unit
      modifies this
      ensures Valid() && freep != 0
      ensures ap == 0 <==> core.NoCore? && NoFit(old(st), NUnits(nbytes))
      ensures ap == 0 ==> st.live == old(st).live && st.own == old(st).own && LiveKept(old(st), st, {})
      ensures !NoFit(old(st), NUnits(nbytes)) ==> grown == old(st)
      ensures ap != 0 && NoFit(old(st), NUnits(nbytes)) ==>
                Gained(old(st), grown, Units(core.unit, CoreUnits(NUnits(nbytes))))
      ensures ap != 0 ==> HandedOut(grown, st, ap - 1, NUnits(nbytes))
    {
      var b;
      b, grown := Allocate(NUnits(nbytes), core);
      ap := if b == 0 then 0 else b + 1;
    }

    // A program writes to a unit of a block it holds.
    method Store(u: nat, x: Header)
      requires Valid() && freep != 0 && u in st.own && st.own[u] in st.live && u != st.own[u]
      modifies this`mem, this`st
      ensures Valid() && st == old(st).(mem := old(st).mem[u := x])
    {
      PayloadFree(base, st, u, x);
      mem := mem[u := x];
      st := st.(mem := mem);
    }
  }

  // The nodes the search still has to pass: those from p on, cyclically, below bp.
  ghost function Ahead(free: set<nat>, p: nat, bp: nat): nat {
    if p < bp then |Within(free, p, bp)| else |free| + |Above(free, p)|
  }

  ghost function Within(free: set<nat>, p: nat, bp: nat): set<nat> {
    set x | x in free && p < x < bp
  }

  ghost function Above(free: set<nat>, p: nat): set<nat> {
    set x | x in free && p < x
  }

  lemma AheadDecreases(base: nat, mem: Memory, free: set<nat>, p: nat, bp: nat)
    requires ListOk(base, mem, free) && p in free && base < bp && bp !in free
    requires !(bp > p && bp < mem[p].ptr) && !(p >= mem[p].ptr && (bp > p || bp < mem[p].ptr))
    ensures mem[p].ptr in free && Ahead(free, mem[p].ptr, bp) < Ahead(free, p, bp)
  {
    assert Linked(base, mem, free, p);
    var q := mem[p].ptr;
    if p < bp {
      Smaller(Within(free, q, bp), Within(free, p, bp), q);
    } else if p < q {
      Smaller(Above(free, q), Above(free, p), q);
    } else {
      Smaller(Within(free, q, bp), free, q);
    }
  }

  lemma Smaller(a: set<nat>, b: set<nat>, e: nat)
    requires a <= b && e in b && e !in a
    ensures |a| < |b|
  {
    assert b == a + {e} + (b - a - {e});
  }
}
