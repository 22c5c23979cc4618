/** The user-level memory allocator: a circular free list searched next-fit, with merging on free. Units
    of 16 bytes, the size of a header, are numbered; header `u` describes the block that starts there. */
module HeapAllocator {
  import opened HeapLayout

  const UNIT: nat := 16
  const MINCORE: nat := 4096

  /** How much is asked of the system for a request of `nu` units: the larger of that and 4096. */
  function CoreUnits(nu: nat): (n: nat)
    ensures n >= nu && n >= 4096 && (n == nu || n == 4096)
  {
    if nu < MINCORE then MINCORE else nu
  }

  function Next(ring: seq<int>, k: int): int
    requires 0 <= k < |ring|
  {
    if k + 1 < |ring| then ring[k + 1] else ring[0]
  }

  predicate LinkOk(ring: seq<int>, ptr: map<int, int>, k: int) {
    0 <= k < |ring| ==> ring[k] in ptr && ptr[ring[k]] == Next(ring, k)
  }

  /** The headers of the free list point to each other, with the possible exception of one. */
  ghost predicate Links(ring: seq<int>, ptr: map<int, int>, but: int) {
    forall k :: 0 <= k < |ring| && k != but ==> LinkOk(ring, ptr, k)
  }

  /** The test that ends the search of `free` is passed exactly at the slot of the block. */
  lemma AtSlot(ring: seq<int>, size: Sizes, ptr: map<int, int>, bp: int, k: int)
    requires Sorted(ring, size) && Links(ring, ptr, -1) && 0 <= k < |ring| && bp > BASE && bp !in ring
    ensures ring[k] in ptr
    ensures var p, q := ring[k], ptr[ring[k]];
            (bp > p && bp < q) || (p >= q && (bp > p || bp < q)) <==> Slot(ring, k, bp)
  {
    assert LinkOk(ring, ptr, k);
    if k + 1 < |ring| {
      RingGrows(ring, size, k, k + 1);
    } else {
      RingGrows(ring, size, 0, k);
    }
  }

  lemma LinksAfterCut(ring: seq<int>, size: Sizes, ptr: map<int, int>, k: int, bp: int)
    requires Sorted(ring, size) && Links(ring, ptr, -1) && 1 <= k < |ring| && bp !in ring
    ensures ring[k] in ptr && ptr[ring[k]] == Next(Cut(ring, k), k - 1)
    ensures Links(Cut(ring, k), ptr[bp := ptr[ring[k]]], k - 1)
    ensures Links(Cut(ring, k), ptr[ring[k - 1] := ptr[ring[k]]], -1)
  {
    var ring' := Cut(ring, k);
    assert LinkOk(ring, ptr, k);
    var ptr1, ptr2 := ptr[bp := ptr[ring[k]]], ptr[ring[k - 1] := ptr[ring[k]]];
    forall i | 0 <= i < |ring'| && i != k - 1 ensures LinkOk(ring', ptr1, i) && LinkOk(ring', ptr2, i) {
      var j := if i < k then i else i + 1;
      assert LinkOk(ring, ptr, j);
      RingDiffers(ring, size, j, k - 1);
    }
    assert LinkOk(ring', ptr2, k - 1);
  }

  lemma LinksAfterInsert(ring: seq<int>, size: Sizes, ptr: map<int, int>, k: int, bp: int)
    requires Sorted(ring, size) && Links(ring, ptr, k) && 0 <= k < |ring| && bp !in ring
    requires bp in ptr && ptr[bp] == Next(ring, k)
    ensures Links(Insert(ring, k, bp), ptr[ring[k] := bp], -1)
  {
    var ring', ptr' := Insert(ring, k, bp), ptr[ring[k] := bp];
    forall i | 0 <= i < |ring'| ensures LinkOk(ring', ptr', i) {
      if i != k && i != k + 1 {
        var j := if i < k then i else i - 1;
        assert LinkOk(ring, ptr, j);
        RingDiffers(ring, size, j, k);
      }
    }
  }

  lemma LinksAfterMerge(ring: seq<int>, size: Sizes, ptr: map<int, int>, k: int)
    requires Sorted(ring, size) && Links(ring, ptr, k) && 0 <= k < |ring|
    ensures Links(ring, ptr[ring[k] := Next(ring, k)], -1)
  {
    var ptr' := ptr[ring[k] := Next(ring, k)];
    forall i | 0 <= i < |ring| ensures LinkOk(ring, ptr', i) {
      if i != k {
        assert LinkOk(ring, ptr, i);
        RingDiffers(ring, size, i, k);
      }
    }
  }

  lemma LinksSet(ring: seq<int>, ptr: map<int, int>, k: int, bp: int, q: int)
    requires Links(ring, ptr, -1) && bp !in ring
    ensures Links(ring, ptr[bp := q], k)
  {
    var ptr' := ptr[bp := q];
    forall i | 0 <= i < |ring| && i != k ensures LinkOk(ring, ptr', i) {
      assert LinkOk(ring, ptr, i);
    }
  }

  /** The free units are those of before and the units of block `bp`. */
  ghost predicate UnitsFreed(ring: seq<int>, size: Sizes, ring': seq<int>, size': Sizes, bp: int, n: int) {
    forall u :: FreeUnit(ring', size', u) <==> FreeUnit(ring, size, u) || bp <= u < bp + n
  }

  /** The free list is kept while block `bp` is floating between it and the live blocks. */
  ghost predicate Floating(ring0: seq<int>, size0: Sizes, live0: Sizes, bp: int,
                           ring: seq<int>, size: Sizes, live: Sizes, ptr: map<int, int>, start: int, brk: int, k: int)
  {
    && Layout(ring, size, live, start, brk) && bp in live && bp in live0 && live == live0[bp := live[bp]] && live0[bp] <= live[bp]
    && Slot(ring, k, bp) && Links(ring, ptr, k) && bp in ptr && ptr[bp] == Next(ring, k)
    && (k + 1 < |ring| ==> bp + live[bp] < ring[k + 1])
    && forall u :: FreeUnit(ring, size, u) || bp <= u < bp + live[bp] <==> FreeUnit(ring0, size0, u) || bp <= u < bp + live0[bp]
  }

  predicate HoldsAt(ring: seq<int>, size: Sizes, k: int, bp: int, n: int) {
    1 <= k < |ring| && ring[k] in size && ring[k] <= bp && bp + n <= ring[k] + size[ring[k]]
  }

  /** `p` is the last element of the free list below `bp`. */
  ghost predicate LastBelow(ring: seq<int>, p: int, bp: int) {
    exists k :: 0 <= k < |ring| && ring[k] == p && p < bp && (k + 1 < |ring| ==> bp <= ring[k + 1])
  }

  /** One free block holds all of the `n` units from `bp`. */
  ghost predicate Holds(ring: seq<int>, size: Sizes, bp: int, n: int) {
    exists k :: HoldsAt(ring, size, k, bp, n)
  }

  /** The units asked for: a header, and enough units for the bytes. */
  function NUnits(nbytes: nat): (n: nat)
    ensures (n - 1) * UNIT >= nbytes && n >= 1
    ensures n > 1 ==> (n - 2) * UNIT < nbytes
  {
    (nbytes + UNIT - 1) / UNIT + 1
  }

  /** What `sbrk` gets to see of a request for `nu` units: its argument is a 32-bit integer. */
  function SbrkArgument(nu: nat): int {
    var m := nu * UNIT % 0x1_0000_0000;
    if m < 0x8000_0000 then m else m - 0x1_0000_0000
  }

  /** The whole request gets through exactly when it is below 2^27 units. */
  lemma SbrkIsAskedForAll(nu: nat)
    requires nu <= NUnits(0xFFFF_FFFF)
    ensures SbrkArgument(nu) == nu * UNIT <==> nu < 0x800_0000
  {
  }

  /** The steps from element `k` of the ring forward to element `f`. */
  function Distance(k: int, f: int, n: int): int {
    if k <= f then f - k else f - k + n
  }

  predicate TooSmall(ring: seq<int>, size: Sizes, k: int, n: int) {
    0 <= k < |ring| && ring[k] in size && size[ring[k]] < n
  }

  /** The search has passed the elements behind `f` up to `k`, and none was large enough. */
  ghost predicate Searched(ring: seq<int>, size: Sizes, f: int, k: int, n: int) {
    forall i :: 0 <= i < |ring| && Distance(i, f, |ring|) > Distance(k, f, |ring|) ==> TooSmall(ring, size, i, n)
  }

  ghost predicate LargeEnough(ring: seq<int>, size: Sizes, n: int) {
    exists k :: 0 <= k < |ring| && !TooSmall(ring, size, k, n)
  }

  lemma NothingFree(ring: seq<int>, size: Sizes, n: int)
    ensures ring == [] ==> !LargeEnough(ring, size, n)
  {
  }

  lemma BaseTooSmall(size: Sizes, n: int)
    requires BASE in size && size[BASE] == 0 && n > 0
    ensures !LargeEnough([BASE], size, n)
  {
  }

  lemma FoundOne(ring: seq<int>, size: Sizes, k: int, n: int)
    requires 0 <= k < |ring| && !TooSmall(ring, size, k, n)
    ensures LargeEnough(ring, size, n)
  {
  }

  lemma SearchStarts(ring: seq<int>, size: Sizes, f: int, n: int)
    requires 0 <= f < |ring|
    ensures var k := if f + 1 < |ring| then f + 1 else 0;
            Searched(ring, size, f, k, n) && Distance(k, f, |ring|) == |ring| - 1
  {
  }

  lemma SearchGoesOn(ring: seq<int>, size: Sizes, f: int, k: int, n: int)
    requires 0 <= f < |ring| && 0 <= k < |ring| && k != f && Searched(ring, size, f, k, n) && TooSmall(ring, size, k, n)
    ensures var k' := if k + 1 < |ring| then k + 1 else 0;
            Searched(ring, size, f, k', n) && Distance(k', f, |ring|) == Distance(k, f, |ring|) - 1
  {
    var k' := if k + 1 < |ring| then k + 1 else 0;
    forall i | 0 <= i < |ring| && Distance(i, f, |ring|) > Distance(k', f, |ring|) ensures TooSmall(ring, size, i, n) {
      assert i != k ==> Distance(i, f, |ring|) > Distance(k, f, |ring|);
    }
  }

  /** Having come round to `f` in vain, the search has seen that no block is large enough. */
  lemma SearchInVain(ring: seq<int>, size: Sizes, f: int, n: int)
    requires 0 <= f < |ring| && Searched(ring, size, f, f, n) && TooSmall(ring, size, f, n)
    ensures !LargeEnough(ring, size, n)
  {
    forall i | 0 <= i < |ring| ensures TooSmall(ring, size, i, n) {
      assert i != f ==> Distance(i, f, |ring|) > Distance(f, f, |ring|);
    }
  }

  /** Element `i` is passed on the way round the ring that begins behind element `f` and ends at element `k`. */
  predicate Passed(i: int, f: int, k: int) {
    if f < k then f < i < k else i > f || i < k
  }

  ghost predicate FirstFit(ring: seq<int>, size: Sizes, f: int, k: int, n: int) {
    && 0 <= k < |ring| && ring[k] in size && size[ring[k]] >= n
    && forall i :: 0 <= i < |ring| && Passed(i, f, k) ==> ring[i] in size && size[ring[i]] < n
  }

  /** Next fit: going round from behind `from`, `h` is the top of the first block with room for `n` units, and
      `before` the element in front of that block. */
  ghost predicate NextFit(ring: seq<int>, size: Sizes, from: int, n: int, h: int, before: int) {
    exists f, k :: 0 <= f < |ring| && ring[f] == from && FirstFit(ring, size, f, k, n)
                   && h == ring[k] + size[ring[k]] - n && before == ring[if k > 0 then k - 1 else |ring| - 1]
  }

  lemma SearchedIsFirst(ring: seq<int>, size: Sizes, f: int, k: int, n: int)
    requires 0 <= f < |ring| && 0 <= k < |ring| && Searched(ring, size, f, k, n) && ring[k] in size && size[ring[k]] >= n
    ensures FirstFit(ring, size, f, k, n)
  {
    forall i | 0 <= i < |ring| && Passed(i, f, k) ensures TooSmall(ring, size, i, n) {
      assert Distance(i, f, |ring|) > Distance(k, f, |ring|);
    }
  }

  /** The blocks with room for `n` units end at the top of the heap. */
  ghost predicate OnlyAtTop(ring: seq<int>, size: Sizes, n: int, brk: int) {
    forall k :: 0 <= k < |ring| && ring[k] in size && size[ring[k]] >= n ==> ring[k] + size[ring[k]] == brk
  }

  /** What the search has found when it stops at element `k`. */
  lemma FoundHere(ring: seq<int>, size: Sizes, f: int, k: int, n: int, brk: int)
    requires 0 <= f < |ring| && 0 <= k < |ring| && Searched(ring, size, f, k, n) && ring[k] in size && size[ring[k]] >= n
    ensures NextFit(ring, size, ring[f], n, ring[k] + size[ring[k]] - n, ring[if k > 0 then k - 1 else |ring| - 1])
    ensures OnlyAtTop(ring, size, n, brk) ==> ring[k] + size[ring[k]] == brk
  {
    hide Searched;
    SearchedIsFirst(ring, size, f, k, n);
  }

  /** Units that are free and follow each other lie in one block. */
  lemma {:induction false} RunInOneBlock(ring: seq<int>, size: Sizes, a: int, n: nat) returns (k: int)
    requires Sorted(ring, size) && n > 0 && forall u :: a <= u < a + n ==> FreeUnit(ring, size, u)
    ensures HoldsAt(ring, size, k, a, n)
  {
    assert FreeUnit(ring, size, a + n - 1);
    var last :| FreeAt(ring, size, last, a + n - 1);
    k := last;
    if n > 1 {
      forall i | 0 <= i < |ring| && i != last ensures i < last ==> EndsBefore(ring, size, i, ring[last])
        ensures last < i ==> EndsBefore(ring, size, last, ring[i])
      {
      }
      k := RunInOneBlock(ring, size, a, n - 1);
    }
  }

  /** A block that lies outside the units added fits into a block of before. */
  lemma WasThereBefore(ring0: seq<int>, size0: Sizes, ring: seq<int>, size: Sizes, hp: int, n: int, k: int, nu: nat)
    requires Sorted(ring0, size0) && UnitsFreed(ring0, size0, ring, size, hp, n) && 0 < nu
    requires 1 <= k < |ring| && ring[k] in size && size[ring[k]] >= nu && Apart(ring[k], size[ring[k]], hp, n)
    ensures LargeEnough(ring0, size0, nu)
  {
    forall u | ring[k] <= u < ring[k] + nu ensures FreeUnit(ring0, size0, u) {
      assert FreeAt(ring, size, k, u);
    }
    var j := RunInOneBlock(ring0, size0, ring[k], nu);
    assert !TooSmall(ring0, size0, j, nu);
  }

  lemma OtherBlocksApart(ring: seq<int>, size: Sizes, hp: int, n: int, top: int, k: int)
    requires Sorted(ring, size) && HoldsAt(ring, size, top, hp, n) && 0 <= k < |ring| && k != top
    ensures ring[k] in size && Apart(ring[k], size[ring[k]], hp, n)
  {
    if k < top {
      assert EndsBefore(ring, size, k, ring[top]);
    } else {
      assert EndsBefore(ring, size, top, ring[k]);
    }
  }

  /** If nothing was large enough before the heap grew, only the block with the new units is now. */
  lemma GrownAtTop(ring0: seq<int>, size0: Sizes, ring: seq<int>, size: Sizes, live: Sizes, start: int, brk: int,
                   hp: int, n: int, nu: nat)
    requires Sorted(ring0, size0) && Layout(ring, size, live, start, brk) && 0 < nu && hp + n == brk && n > 0
    requires UnitsFreed(ring0, size0, ring, size, hp, n) && Holds(ring, size, hp, n) && !LargeEnough(ring0, size0, nu)
    ensures OnlyAtTop(ring, size, nu, brk)
  {
    hide UnitsFreed, LargeEnough;
    var top :| HoldsAt(ring, size, top, hp, n);
    forall k | 0 <= k < |ring| && ring[k] in size && size[ring[k]] >= nu ensures k == top {
      if k != top {
        OtherBlocksApart(ring, size, hp, n, top, k);
        WasThereBefore(ring0, size0, ring, size, hp, n, k, nu);
      }
    }
  }

  /** The size of a block that is not free does not matter. */
  lemma SizeElsewhere(ring: seq<int>, size: Sizes, hp: int, n: int, nu: int)
    requires hp !in ring
    ensures LargeEnough(ring, size[hp := n], nu) <==> LargeEnough(ring, size, nu)
  {
    var size' := size[hp := n];
    forall k | 0 <= k < |ring| ensures TooSmall(ring, size', k, nu) <==> TooSmall(ring, size, k, nu) {
    }
  }

  class Allocator {
    var ptr: map<int, int>
    var size: Sizes
    var freep: int
    /** End of the memory obtained so far, and how far the system would let it grow. */
    var brk: int
    var limit: int
    const start: int
    ghost var ring: seq<int>
    ghost var live: Sizes

    ghost predicate Valid()
      reads this
    {
      if freep == 0 then ring == [] && live == map[] && BASE < start == brk
      else Layout(ring, size, live, start, brk) && Links(ring, ptr, -1) && freep in ring
    }

    constructor (start: int, limit: int)
      requires BASE < start
      ensures Valid() && live == map[] && this.start == start && brk == start && this.limit == limit
    {
      ptr, size, freep, brk, this.limit, this.start, ring, live := map[], map[], 0, start, limit, start, [], map[];
    }

    /** Give a block back: it joins the free list at its place, merged with the neighbours it touches. */
    method Free(ap: int)
      requires Valid() && ap - 1 in live
      modifies this`ptr, this`size, this`freep, this`ring, this`live
      ensures Valid() && freep != 0 && live == old(live) - {ap - 1}
      ensures UnitsFreed(old(ring), old(size), ring, size, ap - 1, old(live)[ap - 1])
      ensures Holds(ring, size, ap - 1, old(live)[ap - 1]) && LastBelow(ring, freep, ap - 1)
    {
      hide Layout, Links, UnitsFreed, Slot;
      var bp := ap - 1;
      LiveNotInRing(ring, size, live, start, brk, bp);
      LayoutSorted(ring, size, live, start, brk);
      var p := FindSlot(bp);
      ghost var k: nat :| k < |ring| && Slot(ring, k, bp) && p == ring[k];
      JoinIn(bp, p, k);
    }

    /** Go round the free list from `freep` to the element that block `bp` belongs behind. */
    method FindSlot(bp: int) returns (p: int)
      requires Sorted(ring, size) && Links(ring, ptr, -1) && freep in ring && bp !in ring && bp > BASE
      ensures exists k: nat :: k < |ring| && Slot(ring, k, bp) && p == ring[k]
    {
      hide Sorted, Links;
      SortedNotEmpty(ring, size);
      ghost var k := SlotExists(ring, size, bp, |ring|);
      ghost var j: nat := IndexOf(ring, freep);
      p := freep;
      LinkAt(ring, ptr, j);
      AtSlot(ring, size, ptr, bp, j);
      while !(bp > p && bp < ptr[p])
        invariant 0 <= j < |ring| && p == ring[j] && p in ptr && ptr[p] == Next(ring, j)
        invariant (bp > p && bp < ptr[p]) || (p >= ptr[p] && (bp > p || bp < ptr[p])) <==> Slot(ring, j, bp)
        decreases if j <= k then k - j else |ring| - j + k
      {
        if p >= ptr[p] && (bp > p || bp < ptr[p]) {
          break;
        }
        p := ptr[p];
        j := if j + 1 < |ring| then j + 1 else 0;
        AtSlot(ring, size, ptr, bp, j);
        LinkAt(ring, ptr, j);
      }
    }

    /** Merge block `bp` with its neighbours and link it in behind `p`. */
    method JoinIn(bp: int, p: int, ghost k: nat)
      requires freep != 0 && Valid() && bp in live && Slot(ring, k, bp) && p == ring[k]
      modifies this`ptr, this`size, this`freep, this`ring, this`live
      ensures Valid() && freep != 0 && live == old(live) - {bp}
      ensures UnitsFreed(old(ring), old(size), ring, size, bp, old(live)[bp]) && Holds(ring, size, bp, old(live)[bp])
      ensures LastBelow(ring, freep, bp)
    {
      hide Layout, Links, Floating, UnitsFreed;
      JoinUpper(bp, p, k);
      JoinLower(old(ring), old(size), old(live), bp, p, k);
    }

    method JoinUpper(bp: int, p: int, ghost k: nat)
      requires Layout(ring, size, live, start, brk) && Links(ring, ptr, -1) && bp in live && Slot(ring, k, bp) && p == ring[k]
      modifies this`ptr, this`size, this`ring, this`live
      ensures Floating(old(ring), old(size), old(live), bp, ring, size, live, ptr, start, brk, k) && ring[k] == p
    {
      hide Layout, Links, FreeUnit;
      LiveNotInRing(ring, size, live, start, brk, bp);
      SlotGap(ring, size, live, start, brk, bp, k);
      LayoutSorted(ring, size, live, start, brk);
      LinkAt(ring, ptr, k);
      NotAtBase(ring, size, live, start, brk, bp, k);
      if bp + size[bp] == ptr[p] {
        MergeUp(ring, size, live, start, brk, bp, k);
        LinksAfterCut(ring, size, ptr, k + 1, bp);
        ghost var n := live[bp] + size[ring[k + 1]];
        ghost var ring1 := Cut(ring, k + 1);
        size := size[bp := size[bp] + size[ptr[p]]];
        ptr := ptr[bp := ptr[ptr[p]]];
        ring, live := ring1, live[bp := n];
      } else {
        LinksSet(ring, ptr, k, bp, ptr[p]);
        ptr := ptr[bp := ptr[p]];
        assert live == live[bp := live[bp]];
      }
    }

    method JoinLower(ghost ring0: seq<int>, ghost size0: Sizes, ghost live0: Sizes, bp: int, p: int, ghost k: nat)
      requires Floating(ring0, size0, live0, bp, ring, size, live, ptr, start, brk, k) && p == ring[k]
      modifies this`ptr, this`size, this`freep, this`ring, this`live
      ensures Valid() && freep != 0 && live == live0 - {bp}
      ensures UnitsFreed(ring0, size0, ring, size, bp, live0[bp]) && Holds(ring, size, bp, live0[bp])
      ensures LastBelow(ring, freep, bp)
    {
      hide Layout, Links, FreeUnit;
      LiveNotInRing(ring, size, live, start, brk, bp);
      SlotGap(ring, size, live, start, brk, bp, k);
      LayoutSorted(ring, size, live, start, brk);
      RingAboveBase(ring, size, live, start, brk, k);
      if p + size[p] == bp {
        MergeDown(ring, size, live, start, brk, bp, k);
        LinksAfterMerge(ring, size, ptr, k);
        size := size[p := size[p] + size[bp]];
        ptr := ptr[p := ptr[bp]];
        assert HoldsAt(ring, size, k, bp, live0[bp]);
      } else {
        LinkIn(ring, size, live, start, brk, bp, k);
        LinksAfterInsert(ring, size, ptr, k, bp);
        ptr := ptr[p := bp];
        ring := Insert(ring, k, bp);
        assert ring[k] == p;
        assert HoldsAt(ring, size, k + 1, bp, live0[bp]);
      }
      live := live - {bp};
      freep := p;
      assert ring[k] == p;
    }

    /** Memory from the system: the end of the heap moves up, or -1. */
    method Sbrk(units: nat) returns (p: int)
      requires brk > 0
      modifies this`brk
      ensures p == -1 <==> old(brk) + units > limit
      ensures p == -1 || p == old(brk)
      ensures p == -1 ==> brk == old(brk)
      ensures p != -1 ==> brk == old(brk) + units
    {
      if brk + units > limit {
        return -1;
      }
      p := brk;
      brk := brk + units;
    }

    /** Get at least `nu` units from the system and put them on the free list; 0 exactly when the system will
        not let the heap grow by as much. */
    method MoreCore(nu: nat) returns (p: int)
      requires Valid() && freep != 0 && nu > 0
      modifies this`ptr, this`size, this`freep, this`brk, this`ring, this`live
      ensures Valid() && freep != 0 && live == old(live)
      ensures p == 0 <==> old(brk) + CoreUnits(nu) > limit
      ensures p == 0 ==> ring == old(ring) && size == old(size) && ptr == old(ptr) && freep == old(freep) && brk == old(brk)
      ensures p != 0 ==> p == freep && brk == old(brk) + CoreUnits(nu) && LargeEnough(ring, size, nu)
      ensures p != 0 && !LargeEnough(old(ring), old(size), nu) ==> OnlyAtTop(ring, size, nu, brk)
    {
      hide Layout, Links, Holds, LargeEnough;
      LayoutSorted(ring, size, live, start, brk);
      var n := CoreUnits(nu);
      var hp := Sbrk(n);
      if hp == -1 {
        return 0;
      }
      GrowHeap(ring, size, live, start, hp, n);
      size := size[hp := n];
      live := live[hp := n];
      ghost var ring0, size0 := ring, size;
      LiveNotInRing(ring, size, live, start, brk, hp);
      LayoutSorted(ring, size, live, start, brk);
      SizeElsewhere(ring, old(size), hp, n, nu);
      Free(hp + 1);
      assert live == old(live);
      EnoughHeld(ring, size, hp, n, nu);
      if !LargeEnough(ring0, size0, nu) {
        GrownAtTop(ring0, size0, ring, size, live, start, brk, hp, n, nu);
      }
      return freep;
    }

    /** A block of at least `nbytes` bytes. It is 0 exactly when no free block is large enough and the system
        will not let the heap grow; the heap grows exactly when no free block is large enough and the system
        lets it. */
    method Malloc(nbytes: nat) returns (r: int)
      requires Valid() && NUnits(nbytes) < 0x800_0000
      modifies this`ptr, this`size, this`freep, this`brk, this`ring, this`live
      ensures Valid() && freep != 0
      ensures r == 0 <==> !LargeEnough(old(ring), old(size), NUnits(nbytes)) && old(brk) + CoreUnits(NUnits(nbytes)) > limit
      ensures r == 0 ==> live == old(live)
      ensures r != 0 ==> r - 1 !in old(live) && start <= r - 1 && live == old(live)[r - 1 := NUnits(nbytes)]
      ensures brk == if r == 0 || LargeEnough(old(ring), old(size), NUnits(nbytes)) then old(brk)
                     else old(brk) + CoreUnits(NUnits(nbytes))
      ensures LargeEnough(old(ring), old(size), NUnits(nbytes)) ==>
                NextFit(old(ring), old(size), old(freep), NUnits(nbytes), r - 1, freep)
      ensures r != 0 && !LargeEnough(old(ring), old(size), NUnits(nbytes)) ==> r - 1 + NUnits(nbytes) == brk
    {
      hide Layout, Links, Sorted, Searched, TooSmall, LargeEnough, Distance, NUnits, FirstFit, NextFit, OnlyAtTop;
      var nunits := NUnits(nbytes);
      ghost var had := LargeEnough(ring, size, nunits);
      if freep == 0 {
        NothingFree(ring, size, nunits);
        Init();
        BaseTooSmall(size, nunits);
      }
      LayoutSorted(ring, size, live, start, brk);
      ghost var f: nat := IndexOf(ring, freep);
      ghost var more := false;
      LinkAt(ring, ptr, f);
      SearchStarts(ring, size, f, nunits);
      var prevp := freep;
      var p := ptr[prevp];
      ghost var k: nat := if f + 1 < |ring| then f + 1 else 0;
      while true
        invariant Valid() && freep != 0 && live == old(live) && f < |ring| && freep == ring[f]
        invariant k < |ring| && p == ring[k] && prevp == ring[if k > 0 then k - 1 else |ring| - 1]
        invariant Searched(ring, size, f, k, nunits) && (more ==> LargeEnough(ring, size, nunits))
        invariant 0 <= Distance(k, f, |ring|)
        invariant more ==> !had && old(brk) + CoreUnits(nunits) <= limit && brk == old(brk) + CoreUnits(nunits)
        invariant !more ==> brk == old(brk) && (LargeEnough(ring, size, nunits) <==> had)
        invariant !more && had ==> ring == old(ring) && size == old(size) && freep == old(freep)
        invariant more ==> OnlyAtTop(ring, size, nunits, brk)
        decreases if more then 0 else 1, Distance(k, f, |ring|)
      {
        LayoutSorted(ring, size, live, start, brk);
        SizeAt(ring, size, k, nunits);
        if size[p] >= nunits {
          FoundOne(ring, size, k, nunits);
          FoundHere(ring, size, f, k, nunits, brk);
          r := Take(prevp, p, nunits, k);
          return;
        }
        if p == freep {
          SameIndex(ring, size, k, f);
          SearchInVain(ring, size, f, nunits);
          p := MoreCore(nunits);
          if p == 0 {
            return 0;
          }
          more := true;
          f := IndexOf(ring, freep);
          k := f;
          SearchStarts(ring, size, f, nunits);
        } else {
          SearchGoesOn(ring, size, f, k, nunits);
        }
        DistanceBounds(k, f, |ring|);
        LinkAt(ring, ptr, k);
        prevp := p;
        p := ptr[p];
        k := if k + 1 < |ring| then k + 1 else 0;
        DistanceBounds(k, f, |ring|);
      }
    }

    /** An empty free list: just `base`. */
    method Init()
      requires Valid() && freep == 0
      modifies this`ptr, this`size, this`freep, this`ring
      ensures Valid() && freep != 0 && ring == [BASE] && BASE in size && size[BASE] == 0
    {
      ptr := ptr[BASE := BASE];
      freep := BASE;
      size := size[BASE := 0];
      ring := [BASE];
      assert LinkOk(ring, ptr, 0);
    }

    /** Take `nunits` units from block `p`: all of it, or its tail. */
    method Take(prevp: int, p: int, nunits: nat, ghost k: nat) returns (r: int)
      requires Valid() && freep != 0 && k < |ring| && p == ring[k] && prevp == ring[if k > 0 then k - 1 else |ring| - 1]
      requires p in size && size[p] >= nunits > 0
      modifies this`ptr, this`size, this`freep, this`ring, this`live
      ensures Valid() && freep != 0
      ensures r != 0 && r - 1 !in old(live) && start <= r - 1 && live == old(live)[r - 1 := nunits]
      ensures r - 1 == p + old(size)[p] - nunits && freep == prevp
    {
      hide Layout, Links;
      BlockAt(ring, size, live, start, brk, k);
      LinkAt(ring, ptr, k);
      var h := p;
      if size[p] == nunits {
        TakeWhole(ring, size, live, start, brk, k);
        LinksAfterCut(ring, size, ptr, k, NotIn(ring, size));
        ptr := ptr[prevp := ptr[p]];
        ring := Cut(ring, k);
        assert ring[k - 1] == prevp;
      } else {
        TakeTail(ring, size, live, start, brk, k, nunits);
        size := size[p := size[p] - nunits];
        h := h + size[p];
        size := size[h := nunits];
      }
      live := live[h := nunits];
      freep := prevp;
      return h + 1;
    }
  }

  lemma LayoutSorted(ring: seq<int>, size: Sizes, live: Sizes, start: int, brk: int)
    requires Layout(ring, size, live, start, brk)
    ensures Sorted(ring, size) && BASE < start <= brk
  {
  }

  lemma SortedNotEmpty(ring: seq<int>, size: Sizes)
    requires Sorted(ring, size)
    ensures |ring| > 0
  {
  }

  lemma LinkAt(ring: seq<int>, ptr: map<int, int>, k: int)
    requires Links(ring, ptr, -1) && 0 <= k < |ring|
    ensures ring[k] in ptr && ptr[ring[k]] == Next(ring, k)
  {
    assert LinkOk(ring, ptr, k);
  }

  lemma RingAboveBase(ring: seq<int>, size: Sizes, live: Sizes, start: int, brk: int, k: int)
    requires Layout(ring, size, live, start, brk) && 0 <= k < |ring|
    ensures ring[k] >= BASE && ring[k] in size && ring[0] == BASE
  {
    RingGrows(ring, size, 0, k);
    NotNegative(ring, size, k);
  }

  /** A block never ends at `base`, so that the last free block is not taken for an upper neighbour. */
  lemma NotAtBase(ring: seq<int>, size: Sizes, live: Sizes, start: int, brk: int, bp: int, k: int)
    requires Layout(ring, size, live, start, brk) && bp in live && 0 <= k < |ring|
    ensures bp + live[bp] == Next(ring, k) ==> k + 1 < |ring|
    ensures k + 1 < |ring| ==> ring[k + 1] in size
  {
    LiveNotInRing(ring, size, live, start, brk, bp);
    if k + 1 < |ring| {
      NotNegative(ring, size, k + 1);
    }
  }

  ghost function IndexOf(s: seq<int>, x: int): (k: nat)
    requires x in s
    ensures k < |s| && s[k] == x
  {
    if s[0] == x then 0 else IndexOf(s[1..], x) + 1
  }

  lemma EnoughHeld(ring: seq<int>, size: Sizes, bp: int, n: int, nu: int)
    requires Holds(ring, size, bp, n) && nu <= n
    ensures LargeEnough(ring, size, nu)
  {
    var k :| HoldsAt(ring, size, k, bp, n);
    assert !TooSmall(ring, size, k, nu);
  }

  lemma SizeAt(ring: seq<int>, size: Sizes, k: int, n: int)
    requires Sorted(ring, size) && 0 <= k < |ring|
    ensures ring[k] in size && (TooSmall(ring, size, k, n) <==> size[ring[k]] < n)
  {
    NotNegative(ring, size, k);
  }

  lemma SameIndex(ring: seq<int>, size: Sizes, k: int, f: int)
    requires Sorted(ring, size) && 0 <= k < |ring| && 0 <= f < |ring| && ring[k] == ring[f]
    ensures k == f
  {
    if k != f {
      RingDiffers(ring, size, k, f);
    }
  }

  lemma DistanceBounds(k: int, f: int, n: int)
    requires 0 <= k < n && 0 <= f < n
    ensures 0 <= Distance(k, f, n) < n
  {
  }

  /** A block with room is not `base`; it lies in the heap, and so does its predecessor or it is `base`. */
  lemma BlockAt(ring: seq<int>, size: Sizes, live: Sizes, start: int, brk: int, k: nat)
    requires Layout(ring, size, live, start, brk) && k < |ring|
    ensures Sorted(ring, size) && ring[k] in size && (size[ring[k]] > 0 ==> k > 0 && start <= ring[k])
    ensures ring[k] != 0 && (k > 0 ==> ring[k - 1] >= BASE) && BASE < start
  {
    RingGrows(ring, size, 0, k);
    if k > 0 {
      RingGrows(ring, size, 0, k - 1);
    }
  }

  /** Some address that is not in the free list. */
  ghost function NotIn(ring: seq<int>, size: Sizes): (x: int)
    requires Sorted(ring, size)
    ensures x !in ring
  {
    BaseFirst(ring, size);
    BASE - 1
  }

  lemma BaseFirst(ring: seq<int>, size: Sizes)
    requires Sorted(ring, size)
    ensures BASE - 1 !in ring
  {
    forall k | 0 <= k < |ring| ensures ring[k] != BASE - 1 {
      RingGrows(ring, size, 0, k);
    }
  }
}
