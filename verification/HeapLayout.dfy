/** The heap of the user-level allocator, in units of one header: free blocks in address order, live
    blocks, and how freeing, merging and splitting blocks changes the picture. */
module HeapLayout {

  /** The address of the static header `base`, which lies below the heap and is never part of it. */
  const BASE: int := 1

  type Sizes = map<int, int>

  predicate Has(size: Sizes, ring: seq<int>, k: int) {
    0 <= k < |ring| && ring[k] in size
  }

  /** Block `k` of the free list ends before address `a`. */
  predicate EndsBefore(ring: seq<int>, size: Sizes, k: int, a: int) {
    Has(size, ring, k) && ring[k] + size[ring[k]] < a
  }

  /** The free list starts with `base`; its blocks are in address order, do not overlap, and no two of
      them touch. */
  ghost predicate Sorted(ring: seq<int>, size: Sizes) {
    && |ring| > 0 && ring[0] == BASE && BASE in size && size[BASE] == 0
    && (forall k :: 1 <= k < |ring| ==> ring[k] in size && size[ring[k]] > 0)
    && forall i, j :: 0 <= i < j < |ring| ==> EndsBefore(ring, size, i, ring[j])
  }

  predicate Apart(a: int, n: int, b: int, m: int) {
    a + n <= b || b + m <= a
  }

  predicate FreeAt(ring: seq<int>, size: Sizes, k: int, u: int) {
    1 <= k < |ring| && ring[k] in size && ring[k] <= u < ring[k] + size[ring[k]]
  }

  predicate LiveAt(live: Sizes, h: int, u: int) {
    h in live && h <= u < h + live[h]
  }

  ghost predicate FreeUnit(ring: seq<int>, size: Sizes, u: int) {
    exists k :: FreeAt(ring, size, k, u)
  }

  ghost predicate LiveUnit(live: Sizes, u: int) {
    exists h :: LiveAt(live, h, u)
  }

  /** Live blocks keep apart from each other and from the free ones, and lie within the heap. */
  ghost predicate Separate(ring: seq<int>, size: Sizes, live: Sizes, start: int, brk: int) {
    && BASE < start <= brk
    && (forall h :: h in live ==> live[h] > 0 && start <= h && h + live[h] <= brk && h in size && size[h] == live[h])
    && (forall h, g :: h in live && g in live && h != g ==> Apart(h, live[h], g, live[g]))
    && (forall k :: 1 <= k < |ring| ==> ring[k] in size && start <= ring[k] && ring[k] + size[ring[k]] <= brk)
    && (forall h, k :: h in live && 1 <= k < |ring| ==> Apart(h, live[h], ring[k], size[ring[k]]))
  }

  /** Every unit obtained from the system is free or live. */
  ghost predicate Covered(ring: seq<int>, size: Sizes, live: Sizes, start: int, brk: int) {
    forall u :: start <= u < brk ==> FreeUnit(ring, size, u) || LiveUnit(live, u)
  }

  ghost predicate Layout(ring: seq<int>, size: Sizes, live: Sizes, start: int, brk: int) {
    Sorted(ring, size) && Separate(ring, size, live, start, brk) && Covered(ring, size, live, start, brk)
  }

  /** No unit is both free and live. */
  lemma NeverBoth(ring: seq<int>, size: Sizes, live: Sizes, start: int, brk: int, u: int)
    requires Layout(ring, size, live, start, brk)
    ensures !(FreeUnit(ring, size, u) && LiveUnit(live, u))
    ensures FreeUnit(ring, size, u) || LiveUnit(live, u) <==> start <= u < brk
  {
    if k :| FreeAt(ring, size, k, u) {
      forall h ensures !LiveAt(live, h, u) {
        assert h in live ==> Apart(h, live[h], ring[k], size[ring[k]]);
      }
    }
  }

  // ---- Where a block belongs in the free list ----

  /** Block `bp` belongs behind element `k` of the free list. */
  predicate Slot(ring: seq<int>, k: int, bp: int) {
    0 <= k < |ring| && ring[k] < bp && (k + 1 < |ring| ==> bp < ring[k + 1])
  }

  lemma {:induction false} SlotExists(ring: seq<int>, size: Sizes, bp: int, n: nat) returns (k: nat)
    requires Sorted(ring, size) && bp > BASE && 1 <= n <= |ring| && forall j :: n <= j < |ring| ==> bp < ring[j]
    requires bp !in ring
    ensures Slot(ring, k, bp)
  {
    if ring[n - 1] < bp {
      k := n - 1;
    } else {
      k := SlotExists(ring, size, bp, n - 1);
    }
  }

  lemma RingGrows(ring: seq<int>, size: Sizes, i: int, j: int)
    requires Sorted(ring, size) && 0 <= i <= j < |ring|
    ensures ring[i] <= ring[j] && (i < j ==> ring[i] < ring[j])
  {
    NotNegative(ring, size, i);
    assert i < j ==> EndsBefore(ring, size, i, ring[j]);
  }

  lemma NotNegative(ring: seq<int>, size: Sizes, k: int)
    requires Sorted(ring, size) && 0 <= k < |ring|
    ensures ring[k] in size && size[ring[k]] >= 0
  {
  }

  lemma LiveNotInRing(ring: seq<int>, size: Sizes, live: Sizes, start: int, brk: int, bp: int)
    requires Layout(ring, size, live, start, brk) && bp in live
    ensures bp !in ring && bp > BASE && bp in size && size[bp] == live[bp] > 0
  {
    forall k | 0 <= k < |ring| ensures ring[k] != bp {
      assert k > 0 ==> Apart(bp, live[bp], ring[k], size[ring[k]]);
    }
  }

  /** In its slot, a live block touches neither neighbour from the wrong side. */
  lemma SlotGap(ring: seq<int>, size: Sizes, live: Sizes, start: int, brk: int, bp: int, k: int)
    requires Layout(ring, size, live, start, brk) && bp in live && Slot(ring, k, bp)
    ensures ring[k] in size && ring[k] + size[ring[k]] <= bp
    ensures k + 1 < |ring| ==> bp + live[bp] <= ring[k + 1]
  {
    if k > 0 {
      assert Apart(bp, live[bp], ring[k], size[ring[k]]);
    }
    if k + 1 < |ring| {
      assert Apart(bp, live[bp], ring[k + 1], size[ring[k + 1]]);
    }
  }

  // ---- Merging with the upper neighbour ----

  function Cut(ring: seq<int>, k: int): seq<int>
    requires 0 <= k < |ring|
  {
    ring[..k] + ring[k + 1..]
  }

  /** The free block behind slot `k` is taken into the live block `bp` that ends where it begins. */
  lemma MergeUp(ring: seq<int>, size: Sizes, live: Sizes, start: int, brk: int, bp: int, k: int)
    requires Layout(ring, size, live, start, brk) && bp in live && Slot(ring, k, bp) && k + 1 < |ring|
    requires bp + live[bp] == ring[k + 1]
    ensures ring[k + 1] in size && bp in size
    ensures var n := live[bp] + size[ring[k + 1]];
            var ring' := Cut(ring, k + 1);
            && Layout(ring', size[bp := n], live[bp := n], start, brk) && Slot(ring', k, bp)
            && (k + 1 < |ring'| ==> bp + n < ring'[k + 1])
            && forall u :: FreeUnit(ring', size[bp := n], u) || bp <= u < bp + n <==> FreeUnit(ring, size, u) || bp <= u < bp + live[bp]
  {
    LiveNotInRing(ring, size, live, start, brk, bp);
    var up := ring[k + 1];
    var n := live[bp] + size[up];
    var ring', size', live' := Cut(ring, k + 1), size[bp := n], live[bp := n];
    MergeUpSorted(ring, size, bp, n, k);
    MergeUpUnits(ring, size, bp, live[bp], k);
    MergeUpSeparate(ring, size, live, start, brk, bp, k);
    forall u | start <= u < brk ensures FreeUnit(ring', size', u) || LiveUnit(live', u) {
      if FreeUnit(ring, size, u) || bp <= u < bp + live[bp] {
        assert bp <= u < bp + n ==> LiveAt(live', bp, u);
      } else {
        var h :| LiveAt(live, h, u);
        assert LiveAt(live', h, u);
      }
    }
  }

  lemma MergeUpSorted(ring: seq<int>, size: Sizes, bp: int, n: int, k: int)
    requires Sorted(ring, size) && Slot(ring, k, bp) && k + 1 < |ring| && bp !in ring
    requires ring[k + 1] in size && bp + n == ring[k + 1] + size[ring[k + 1]]
    ensures Sorted(Cut(ring, k + 1), size[bp := n]) && Slot(Cut(ring, k + 1), k, bp)
    ensures k + 1 < |Cut(ring, k + 1)| ==> bp + n < Cut(ring, k + 1)[k + 1]
  {
    var ring', size' := Cut(ring, k + 1), size[bp := n];
    forall i, j | 0 <= i < j < |ring'| ensures EndsBefore(ring', size', i, ring'[j]) {
      var a, b := if i <= k then i else i + 1, if j <= k then j else j + 1;
      assert EndsBefore(ring, size, a, ring[b]);
    }
    if k + 1 < |ring'| {
      assert EndsBefore(ring, size, k + 1, ring[k + 2]);
    }
  }

  lemma MergeUpUnits(ring: seq<int>, size: Sizes, bp: int, m: int, k: int)
    requires Sorted(ring, size) && Slot(ring, k, bp) && k + 1 < |ring| && bp !in ring && m > 0
    requires ring[k + 1] in size && bp + m == ring[k + 1]
    ensures var n := m + size[ring[k + 1]];
            forall u :: FreeUnit(Cut(ring, k + 1), size[bp := n], u) || bp <= u < bp + n <==> FreeUnit(ring, size, u) || bp <= u < bp + m
  {
    var n := m + size[ring[k + 1]];
    var ring', size' := Cut(ring, k + 1), size[bp := n];
    forall u ensures FreeUnit(ring', size', u) || bp <= u < bp + n <==> FreeUnit(ring, size, u) || bp <= u < bp + m {
      if i :| FreeAt(ring', size', i, u) {
        assert FreeAt(ring, size, if i <= k then i else i + 1, u);
      }
      if bp + m <= u < bp + n {
        assert FreeAt(ring, size, k + 1, u);
      }
      if i :| FreeAt(ring, size, i, u) {
        if i != k + 1 {
          assert FreeAt(ring', size', if i <= k then i else i - 1, u);
        }
      }
    }
  }

  lemma MergeUpSeparate(ring: seq<int>, size: Sizes, live: Sizes, start: int, brk: int, bp: int, k: int)
    requires Layout(ring, size, live, start, brk) && bp in live && Slot(ring, k, bp) && k + 1 < |ring| && bp !in ring
    requires ring[k + 1] in size && bp + live[bp] == ring[k + 1]
    ensures var n := live[bp] + size[ring[k + 1]];
            Separate(Cut(ring, k + 1), size[bp := n], live[bp := n], start, brk)
  {
    MergeUpLive(ring, size, live, start, brk, bp, k);
    MergeUpApart(ring, size, live, start, brk, bp, k);
  }

  /** The grown live block stays apart from the other live blocks. */
  lemma MergeUpLive(ring: seq<int>, size: Sizes, live: Sizes, start: int, brk: int, bp: int, k: int)
    requires Layout(ring, size, live, start, brk) && bp in live && Slot(ring, k, bp) && k + 1 < |ring|
    requires ring[k + 1] in size && bp + live[bp] == ring[k + 1]
    ensures var live' := live[bp := live[bp] + size[ring[k + 1]]];
            forall h, g :: h in live' && g in live' && h != g ==> Apart(h, live'[h], g, live'[g])
  {
    var up := ring[k + 1];
    var live' := live[bp := live[bp] + size[up]];
    forall h, g | h in live' && g in live' && h != g ensures Apart(h, live'[h], g, live'[g]) {
      assert Apart(h, live[h], g, live[g]);
      assert h == bp ==> Apart(g, live[g], up, size[up]);
      assert g == bp ==> Apart(h, live[h], up, size[up]);
    }
  }

  /** And from the remaining free blocks. */
  lemma MergeUpApart(ring: seq<int>, size: Sizes, live: Sizes, start: int, brk: int, bp: int, k: int)
    requires Layout(ring, size, live, start, brk) && bp in live && Slot(ring, k, bp) && k + 1 < |ring|
    requires ring[k + 1] in size && bp + live[bp] == ring[k + 1]
    ensures var ring', live' := Cut(ring, k + 1), live[bp := live[bp] + size[ring[k + 1]]];
            && (forall i :: 1 <= i < |ring'| ==> ring'[i] in size)
            && forall h, i :: h in live' && 1 <= i < |ring'| ==> Apart(h, live'[h], ring'[i], size[ring'[i]])
  {
    var up := ring[k + 1];
    var ring', live' := Cut(ring, k + 1), live[bp := live[bp] + size[up]];
    forall h, i | h in live' && 1 <= i < |ring'| ensures Apart(h, live'[h], ring'[i], size[ring'[i]]) {
      var j := if i <= k then i else i + 1;
      assert Apart(h, live[h], ring[j], size[ring[j]]);
      if h == bp {
        assert j < k + 1 ==> EndsBefore(ring, size, j, up);
        assert k + 1 < j ==> EndsBefore(ring, size, k + 1, ring[j]);
      }
    }
  }

  // ---- Linking a block in, or merging it with the lower neighbour ----

  function Insert(ring: seq<int>, k: int, bp: int): seq<int>
    requires 0 <= k < |ring|
  {
    ring[..k + 1] + [bp] + ring[k + 1..]
  }

  /** A live block that touches neither neighbour becomes a free block of its own. */
  lemma LinkIn(ring: seq<int>, size: Sizes, live: Sizes, start: int, brk: int, bp: int, k: int)
    requires Layout(ring, size, live, start, brk) && bp in live && Slot(ring, k, bp)
    requires ring[k] in size && ring[k] + size[ring[k]] != bp && (k + 1 < |ring| ==> bp + live[bp] < ring[k + 1])
    ensures Layout(Insert(ring, k, bp), size, live - {bp}, start, brk)
    ensures forall u :: FreeUnit(Insert(ring, k, bp), size, u) <==> FreeUnit(ring, size, u) || bp <= u < bp + live[bp]
  {
    LiveNotInRing(ring, size, live, start, brk, bp);
    SlotGap(ring, size, live, start, brk, bp, k);
    var ring', live' := Insert(ring, k, bp), live - {bp};
    forall i, j | 0 <= i < j < |ring'| ensures EndsBefore(ring', size, i, ring'[j]) {
      var a, b := if i <= k then i else i - 1, if j <= k then j else j - 1;
      if i == k + 1 {
        RingGrows(ring, size, k + 1, b);
      } else if j == k + 1 {
        assert a < k ==> EndsBefore(ring, size, a, ring[k]);
      } else {
        assert EndsBefore(ring, size, a, ring[b]);
      }
    }
    LinkInUnits(ring, size, live, bp, k);
    LinkInSeparate(ring, size, live, start, brk, bp, k);
    forall u | start <= u < brk ensures FreeUnit(ring', size, u) || LiveUnit(live', u) {
      assert FreeUnit(ring, size, u) || LiveUnit(live, u);
      if h :| LiveAt(live, h, u) {
        assert h != bp ==> LiveAt(live', h, u);
      }
    }
  }

  lemma LinkInSeparate(ring: seq<int>, size: Sizes, live: Sizes, start: int, brk: int, bp: int, k: int)
    requires Layout(ring, size, live, start, brk) && bp in live && Slot(ring, k, bp)
    ensures Separate(Insert(ring, k, bp), size, live - {bp}, start, brk)
  {
    var ring', live' := Insert(ring, k, bp), live - {bp};
    forall h, i | h in live' && 1 <= i < |ring'| ensures Apart(h, live'[h], ring'[i], size[ring'[i]]) {
      if i == k + 1 {
        assert Apart(h, live[h], bp, live[bp]);
      } else {
        var j := if i <= k then i else i - 1;
        assert Apart(h, live[h], ring[j], size[ring[j]]);
      }
    }
  }

  lemma LinkInUnits(ring: seq<int>, size: Sizes, live: Sizes, bp: int, k: int)
    requires 0 <= k < |ring| && bp in live && bp in size && size[bp] == live[bp]
    ensures forall u :: FreeUnit(Insert(ring, k, bp), size, u) <==> FreeUnit(ring, size, u) || bp <= u < bp + live[bp]
  {
    var ring' := Insert(ring, k, bp);
    forall u ensures FreeUnit(ring', size, u) <==> FreeUnit(ring, size, u) || bp <= u < bp + live[bp] {
      if i :| FreeAt(ring', size, i, u) {
        assert i != k + 1 ==> FreeAt(ring, size, if i <= k then i else i - 1, u);
      }
      if i :| FreeAt(ring, size, i, u) {
        assert FreeAt(ring', size, if i <= k then i else i + 1, u);
      }
      if bp <= u < bp + live[bp] {
        assert FreeAt(ring', size, k + 1, u);
      }
    }
  }

  /** A live block is taken into the free block that ends where it begins. */
  lemma MergeDown(ring: seq<int>, size: Sizes, live: Sizes, start: int, brk: int, bp: int, k: int)
    requires Layout(ring, size, live, start, brk) && bp in live && Slot(ring, k, bp)
    requires ring[k] in size && ring[k] + size[ring[k]] == bp && (k + 1 < |ring| ==> bp + live[bp] < ring[k + 1])
    ensures k > 0
    ensures var size' := size[ring[k] := size[ring[k]] + live[bp]];
            && Layout(ring, size', live - {bp}, start, brk)
            && forall u :: FreeUnit(ring, size', u) <==> FreeUnit(ring, size, u) || bp <= u < bp + live[bp]
  {
    LiveNotInRing(ring, size, live, start, brk, bp);
    var size', live' := size[ring[k] := size[ring[k]] + live[bp]], live - {bp};
    forall i, j | 0 <= i < j < |ring| ensures EndsBefore(ring, size', i, ring[j]) {
      assert EndsBefore(ring, size, i, ring[j]);
      RingGrows(ring, size, i, j);
      if i == k {
        RingGrows(ring, size, k + 1, j);
      } else {
        assert ring[i] != ring[k] by { RingDiffers(ring, size, i, k); }
      }
    }
    MergeDownUnits(ring, size, bp, live[bp], k);
    MergeDownSeparate(ring, size, live, start, brk, bp, k);
    forall u | start <= u < brk ensures FreeUnit(ring, size', u) || LiveUnit(live', u) {
      assert FreeUnit(ring, size, u) || LiveUnit(live, u);
      if h :| LiveAt(live, h, u) {
        assert h != bp ==> LiveAt(live', h, u);
      }
    }
  }

  lemma RingDiffers(ring: seq<int>, size: Sizes, i: int, k: int)
    requires Sorted(ring, size) && 0 <= i < |ring| && 0 <= k < |ring| && i != k
    ensures ring[i] != ring[k]
  {
    if i < k {
      RingGrows(ring, size, i, k);
    } else {
      RingGrows(ring, size, k, i);
    }
  }

  lemma MergeDownUnits(ring: seq<int>, size: Sizes, bp: int, m: int, k: int)
    requires Sorted(ring, size) && 1 <= k < |ring| && m > 0 && ring[k] in size && ring[k] + size[ring[k]] == bp
    ensures var size' := size[ring[k] := size[ring[k]] + m];
            forall u :: FreeUnit(ring, size', u) <==> FreeUnit(ring, size, u) || bp <= u < bp + m
  {
    var size' := size[ring[k] := size[ring[k]] + m];
    forall u ensures FreeUnit(ring, size', u) <==> FreeUnit(ring, size, u) || bp <= u < bp + m {
      if i :| FreeAt(ring, size', i, u) {
        if i != k {
          RingDiffers(ring, size, i, k);
          assert FreeAt(ring, size, i, u);
        } else {
          assert u < bp ==> FreeAt(ring, size, k, u);
        }
      }
      if i :| FreeAt(ring, size, i, u) {
        assert FreeAt(ring, size', i, u);
      }
      if bp <= u < bp + m {
        NotNegative(ring, size, k);
        assert FreeAt(ring, size', k, u);
      }
    }
  }

  lemma MergeDownSeparate(ring: seq<int>, size: Sizes, live: Sizes, start: int, brk: int, bp: int, k: int)
    requires Layout(ring, size, live, start, brk) && bp in live && 1 <= k < |ring|
    requires ring[k] in size && ring[k] + size[ring[k]] == bp
    ensures Separate(ring, size[ring[k] := size[ring[k]] + live[bp]], live - {bp}, start, brk)
  {
    var size', live' := size[ring[k] := size[ring[k]] + live[bp]], live - {bp};
    forall h | h in live' ensures h != ring[k] {
      LiveNotInRing(ring, size, live, start, brk, h);
    }
    forall i | 1 <= i < |ring| ensures i != k ==> ring[i] != ring[k] {
      if i != k {
        RingDiffers(ring, size, i, k);
      }
    }
    forall h, i | h in live' && 1 <= i < |ring| ensures Apart(h, live'[h], ring[i], size'[ring[i]]) {
      assert Apart(h, live[h], ring[i], size[ring[i]]);
      assert i == k ==> Apart(h, live[h], bp, live[bp]);
    }
  }

  // ---- Taking blocks from the free list ----

  /** A free block of just the right size becomes live. */
  lemma TakeWhole(ring: seq<int>, size: Sizes, live: Sizes, start: int, brk: int, k: int)
    requires Layout(ring, size, live, start, brk) && 1 <= k < |ring|
    ensures ring[k] in size && ring[k] !in live
    ensures Layout(Cut(ring, k), size, live[ring[k] := size[ring[k]]], start, brk)
  {
    var p := ring[k];
    var ring', live' := Cut(ring, k), live[p := size[p]];
    forall h | h in live ensures h != p {
      assert Apart(h, live[h], p, size[p]);
    }
    forall i, j | 0 <= i < j < |ring'| ensures EndsBefore(ring', size, i, ring'[j]) {
      var a, b := if i < k then i else i + 1, if j < k then j else j + 1;
      assert EndsBefore(ring, size, a, ring[b]);
    }
    forall h, g | h in live' && g in live' && h != g ensures Apart(h, live'[h], g, live'[g]) {
      assert h != p && g != p ==> Apart(h, live[h], g, live[g]);
      assert h != p ==> Apart(h, live[h], p, size[p]);
      assert g != p ==> Apart(g, live[g], p, size[p]);
    }
    forall h, i | h in live' && 1 <= i < |ring'| ensures Apart(h, live'[h], ring'[i], size[ring'[i]]) {
      var j := if i < k then i else i + 1;
      assert h != p ==> Apart(h, live[h], ring[j], size[ring[j]]);
      assert j < k ==> EndsBefore(ring, size, j, p);
      assert k < j ==> EndsBefore(ring, size, k, ring[j]);
    }
    forall u | start <= u < brk ensures FreeUnit(ring', size, u) || LiveUnit(live', u) {
      assert FreeUnit(ring, size, u) || LiveUnit(live, u);
      if i :| FreeAt(ring, size, i, u) {
        if i == k {
          assert LiveAt(live', p, u);
        } else {
          assert FreeAt(ring', size, if i < k then i else i - 1, u);
        }
      }
      if h :| LiveAt(live, h, u) {
        assert LiveAt(live', h, u);
      }
    }
  }

  /** The tail of a larger free block becomes live. */
  lemma TakeTail(ring: seq<int>, size: Sizes, live: Sizes, start: int, brk: int, k: int, n: int)
    requires Layout(ring, size, live, start, brk) && 1 <= k < |ring| && ring[k] in size && 0 < n < size[ring[k]]
    ensures var rest := size[ring[k]] - n;
            var q := ring[k] + rest;
            q !in live && q !in ring && Layout(ring, size[ring[k] := rest][q := n], live[q := n], start, brk)
  {
    var p, rest := ring[k], size[ring[k]] - n;
    var q := p + rest;
    var size', live' := size[p := rest][q := n], live[q := n];
    forall i | 0 <= i < |ring| ensures ring[i] != q && (i != k ==> ring[i] != p) {
      NotNegative(ring, size, i);
      if i != k {
        RingDiffers(ring, size, i, k);
        assert i < k ==> EndsBefore(ring, size, i, p);
        assert k < i ==> EndsBefore(ring, size, k, ring[i]);
      }
    }
    forall h | h in live ensures h != p && h != q {
      assert Apart(h, live[h], p, size[p]);
    }
    forall i, j | 0 <= i < j < |ring| ensures EndsBefore(ring, size', i, ring[j]) {
      assert EndsBefore(ring, size, i, ring[j]);
    }
    TakeTailSeparate(ring, size, live, start, brk, k, n);
    forall u | start <= u < brk ensures FreeUnit(ring, size', u) || LiveUnit(live', u) {
      assert FreeUnit(ring, size, u) || LiveUnit(live, u);
      if i :| FreeAt(ring, size, i, u) {
        if i == k && u >= q {
          assert LiveAt(live', q, u);
        } else {
          assert FreeAt(ring, size', i, u);
        }
      }
      if h :| LiveAt(live, h, u) {
        assert LiveAt(live', h, u);
      }
    }
  }

  lemma TakeTailSeparate(ring: seq<int>, size: Sizes, live: Sizes, start: int, brk: int, k: int, n: int)
    requires Layout(ring, size, live, start, brk) && 1 <= k < |ring| && ring[k] in size && 0 < n < size[ring[k]]
    requires var q := ring[k] + size[ring[k]] - n; q !in live && q !in ring
    requires forall i :: 0 <= i < |ring| && i != k ==> ring[i] != ring[k]
    requires forall h :: h in live ==> h != ring[k]
    ensures var rest := size[ring[k]] - n;
            Separate(ring, size[ring[k] := rest][ring[k] + rest := n], live[ring[k] + rest := n], start, brk)
  {
    var p, rest := ring[k], size[ring[k]] - n;
    var q := p + rest;
    var size', live' := size[p := rest][q := n], live[q := n];
    forall h, g | h in live' && g in live' && h != g ensures Apart(h, live'[h], g, live'[g]) {
      assert h != q && g != q ==> Apart(h, live[h], g, live[g]);
      assert h != q ==> Apart(h, live[h], p, size[p]);
      assert g != q ==> Apart(g, live[g], p, size[p]);
    }
    forall h, i | h in live' && 1 <= i < |ring| ensures Apart(h, live'[h], ring[i], size'[ring[i]]) {
      TailApart(ring, size, live, start, brk, k, n, h, i);
    }
  }

  lemma TailApart(ring: seq<int>, size: Sizes, live: Sizes, start: int, brk: int, k: int, n: int, h: int, i: int)
    requires Layout(ring, size, live, start, brk) && 1 <= k < |ring| && ring[k] in size && 0 < n < size[ring[k]]
    requires var q := ring[k] + size[ring[k]] - n; q !in live && q !in ring && (h in live || h == q)
    requires 1 <= i < |ring| && (i != k ==> ring[i] != ring[k])
    ensures var rest := size[ring[k]] - n;
            var q := ring[k] + rest;
            ring[i] in size && Apart(h, live[q := n][h], ring[i], size[ring[k] := rest][q := n][ring[i]])
  {
    var p := ring[k];
    var q := p + size[p] - n;
    if h != q {
      assert Apart(h, live[h], ring[i], size[ring[i]]);
    } else {
      assert i < k ==> EndsBefore(ring, size, i, p);
      assert k < i ==> EndsBefore(ring, size, k, ring[i]);
    }
  }

  // ---- More memory ----

  /** A block obtained from the system, at the end of the heap, is live until it is freed. */
  lemma GrowHeap(ring: seq<int>, size: Sizes, live: Sizes, start: int, brk: int, n: int)
    requires Layout(ring, size, live, start, brk) && n > 0
    ensures brk !in live && brk !in ring
    ensures Layout(ring, size[brk := n], live[brk := n], start, brk + n)
  {
    var size', live' := size[brk := n], live[brk := n];
    forall i | 0 <= i < |ring| ensures ring[i] != brk {
      NotNegative(ring, size, i);
    }
    forall i, j | 0 <= i < j < |ring| ensures EndsBefore(ring, size', i, ring[j]) {
      assert EndsBefore(ring, size, i, ring[j]);
    }
    forall h, g | h in live' && g in live' && h != g ensures Apart(h, live'[h], g, live'[g]) {
      assert h != brk && g != brk ==> Apart(h, live[h], g, live[g]);
    }
    forall h, i | h in live' && 1 <= i < |ring| ensures Apart(h, live'[h], ring[i], size'[ring[i]]) {
      assert h != brk ==> Apart(h, live[h], ring[i], size[ring[i]]);
    }
    forall u | start <= u < brk + n ensures FreeUnit(ring, size', u) || LiveUnit(live', u) {
      if u >= brk {
        assert LiveAt(live', brk, u);
      } else {
        assert FreeUnit(ring, size, u) || LiveUnit(live, u);
        if i :| FreeAt(ring, size, i, u) {
          assert FreeAt(ring, size', i, u);
        }
        if h :| LiveAt(live, h, u) {
          assert LiveAt(live', h, u);
        }
      }
    }
  }
}
