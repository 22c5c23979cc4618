/** Growing, shrinking, copying and tearing down address spaces, and what happens when memory runs
    out half-way. */
module PageSpaces {
  import opened PageMemory
  import opened PageTable
  import opened PageOps

  /** Sizes in bytes become page counts by rounding up. */
  function PageCount(size: nat): (n: nat) {
    (size + PGSIZE - 1) / PGSIZE
  }

  /** What a new user page is to look like: flags of its entry and contents. */
  datatype Want = Want(flags: nat, data: seq<int>)

  /** Compared with tree `t0` in memory `m0` with free pages `free0`: the `n` pages from `lo` have
      been added as wanted, on pages taken from the free list, and nothing else has changed. */
  ghost predicate Extended(m0: Memory, free0: set<nat>, t0: Table, lo: nat, n: nat, want: map<nat, Want>,
                           m: Memory, free: set<nat>, t: Table)
    requires Represents(m0, t0) && Represents(m, t)
  {
    var l := Leaves(m, t);
    && Grown(t0, t)
    && OwnsRange(m, free, t, l, lo, n)
    && Without(l, lo, n) == Leaves(m0, t0)
    && AsWanted(m, l, lo, n, want)
    && Frames(l, lo, n) <= free0
    && Pages(t) + free + Frames(l, lo, n) == Pages(t0) + free0
    && Keeps(m0, m, Pages(t) + free + Frames(l, lo, n))
  }

  ghost predicate AsWanted(m: Memory, l: map<nat, int>, lo: nat, n: nat, want: map<nat, Want>) {
    forall v :: lo <= v < lo + n ==>
      v in l && v in want && Flags(l[v]) == want[v].flags && Ppn(l[v]) in m && m[Ppn(l[v])] == want[v].data
  }

  /** The mappings and the user pages are those of before; only table pages may have been added. */
  ghost predicate Restored(km: KernelMemory, m0: Memory, free0: set<nat>, t0: Table, t: Table)
    requires Represents(m0, t0)
    reads km
  {
    && Space(km, t) && Grown(t0, t)
    && Leaves(km.mem, t) == Leaves(m0, t0)
    && Pages(t) + km.FreeSet() == Pages(t0) + free0
    && Keeps(m0, km.mem, Pages(t) + km.FreeSet())
  }

  /** Allocate a page and fill it. */
  method NewPage(km: KernelMemory, ghost t: Table, data: seq<int>) returns (p: nat)
    requires Space(km, t) && |data| == WORDS
    modifies km
    ensures Space(km, t) && Leaves(km.mem, t) == old(Leaves(km.mem, t))
    ensures p == 0 <==> old(km.free) == []
    ensures |km.free| == |old(km.free)| - if p == 0 then 0 else 1
    ensures p == 0 ==> km.mem == old(km.mem) && km.FreeSet() == old(km.FreeSet())
    ensures p != 0 ==>
              && p in old(km.FreeSet()) && km.FreeSet() == old(km.FreeSet()) - {p}
              && p !in Pages(t) && p in km.mem && km.mem[p] == data
              && Keeps(old(km.mem), km.mem, {p})
  {
    hide Represents, Leaves;
    p := km.Kalloc();
    if p != 0 {
      FillPage(km, p, data);
      TreeKept(old(km.mem), km.mem, t);
    }
  }

  method FillPage(km: KernelMemory, p: nat, data: seq<int>)
    requires km.Valid() && p in km.mem && p !in km.free && |data| == WORDS
    modifies km`mem
    ensures km.Valid() && km.mem == old(km.mem)[p := data]
  {
    km.mem := km.mem[p := data];
  }

  /** Allocate a page, fill it, and map it. */
  method AddPage(km: KernelMemory, ghost t: Table, root: nat, a: nat, data: seq<int>, perm: nat)
    returns (ok: bool, ghost p: nat, ghost t': Table)
    requires Space(km, t) && root == t[[]] && a < MAXVPN && a !in Leaves(km.mem, t)
    requires |data| == WORDS && perm < FLAGS && perm / 2 % 8 != 0
    modifies km
    ensures Space(km, t') && Grown(t, t') && WithV(perm) < FLAGS
    ensures ok <==> 1 + Needed(t.Keys, a) <= |old(km.free)|
    ensures ok ==> t'.Keys == t.Keys + TablesFor(a) && |km.free| == |old(km.free)| - 1 - Needed(t.Keys, a)
    ensures !ok ==> Restored(km, old(km.mem), old(km.FreeSet()), t, t')
    ensures ok ==>
              && p in old(km.FreeSet()) && p !in km.FreeSet() && p !in Pages(t') && p in km.mem && km.mem[p] == data
              && Leaves(km.mem, t') == old(Leaves(km.mem, t))[a := MakePte(p, WithV(perm))]
              && Pages(t') + km.FreeSet() + {p} == Pages(t) + old(km.FreeSet())
              && Keeps(old(km.mem), km.mem, Pages(t') + km.FreeSet() + {p})
  {
    hide Represents, Leaves, Maps, IsValid, MakePte, WithV, Entry, PathOf, Without, Pages, Keeps, Grown, Needed, TablesFor,
      KernelMemory.FreeSet, KernelMemory.Valid;
    PteFields(0, perm);
    GrownSelf(t);
    t' := t;
    ghost var m0 := km.mem;
    KeepsSelf(m0, Pages(t) + km.FreeSet());
    var mem := NewPage(km, t, data);
    p := mem;
    if mem == 0 {
      ok := false;
      return;
    }
    ghost var m1 := km.mem;
    ok, t' := MapOne(km, t, root, a, mem, perm);
    assert mem !in Pages(t') && mem !in km.FreeSet();
    KeepsAt(m1, km.mem, Pages(t'), mem);
    ghost var m2 := km.mem;
    if !ok {
      FreeFrame(km, t', mem);
      KeepsVia(m1, m2, km.mem, Pages(t'), {mem}, Pages(t') + km.FreeSet());
      KeepsVia(m0, m1, km.mem, {mem}, Pages(t') + km.FreeSet(), Pages(t') + km.FreeSet());
    } else {
      KeepsVia(m0, m1, m2, {mem}, Pages(t'), Pages(t') + km.FreeSet() + {mem});
    }
  }

  /** One page more. */
  lemma ExtendedByOne(m0: Memory, free0: set<nat>, t0: Table, lo: nat, n: nat, want: map<nat, Want>,
                      m1: Memory, free1: set<nat>, t1: Table, p: nat, pte: int,
                      m2: Memory, free2: set<nat>, t2: Table)
    requires Represents(m0, t0) && Represents(m1, t1) && Represents(m2, t2)
    requires Extended(m0, free0, t0, lo, n, want, m1, free1, t1)
    requires lo + n !in Leaves(m0, t0) && lo + n in want
    requires Ppn(pte) == p && Flags(pte) == want[lo + n].flags
    requires Grown(t1, t2) && p in free1 && p !in free2 && p !in Pages(t2) && p in m2 && m2[p] == want[lo + n].data
    requires free1 !! Pages(t1)
    requires Leaves(m2, t2) == Leaves(m1, t1)[lo + n := pte]
    requires Pages(t2) + free2 + {p} == Pages(t1) + free1
    requires Keeps(m1, m2, Pages(t2) + free2 + {p})
    ensures lo + n !in Leaves(m1, t1)
    ensures Extended(m0, free0, t0, lo, n + 1, want, m2, free2, t2)
  {
    hide Represents, Leaves, Pages, Ppn, Flags, Keeps, Grown, Frames, Without;
    var a := lo + n;
    var l1, l2 := Leaves(m1, t1), Leaves(m2, t2);
    WithoutAt(l1, lo, n, a);
    GrownTrans(t0, t1, t2);
    GrownPages(t0, t1);
    FramesOfUpdate(l1, lo, n, pte);
    forall v | lo <= v < a
      ensures Ppn(l1[v]) !in free2 && Ppn(l1[v]) !in Pages(t2) && Ppn(l1[v]) != p
      ensures Ppn(l1[v]) in m2 && m2[Ppn(l1[v])] == m1[Ppn(l1[v])]
    {
      assert Ppn(l1[v]) in m1 && Ppn(l1[v]) !in free1 && Ppn(l1[v]) !in Pages(t1);
      assert Ppn(l1[v]) !in Pages(t2) + free2 + {p};
      KeepsAt(m1, m2, Pages(t2) + free2 + {p}, Ppn(l1[v]));
    }
    var touched := Pages(t2) + free2 + Frames(l2, lo, n + 1);
    assert Pages(t1) + free1 + Frames(l1, lo, n) <= touched;
    KeepsVia(m0, m1, m2, Pages(t1) + free1 + Frames(l1, lo, n), Pages(t2) + free2 + {p}, touched);
    assert DistinctFrames(l2, lo, n + 1);
    assert OwnsRange(m2, free2, t2, l2, lo, n + 1);
    assert AsWanted(m2, l2, lo, n + 1, want);
    assert Pages(t2) + free2 + Frames(l2, lo, n + 1) == Pages(t0) + free0;
  }

  lemma FramesOfUpdate(l: map<nat, int>, lo: nat, n: nat, pte: int)
    requires lo + n !in l
    ensures Frames(l[lo + n := pte], lo, n + 1) == Frames(l, lo, n) + {Ppn(pte)}
    ensures Without(l[lo + n := pte], lo, n + 1) == Without(l, lo, n)
  {
    var l2 := l[lo + n := pte];
    assert forall v :: lo <= v < lo + n ==> (v in l2 <==> v in l);
    assert l2[lo + n] == pte;
    forall q | q in Frames(l, lo, n) + {Ppn(pte)} ensures q in Frames(l2, lo, n + 1) {
      if q != Ppn(pte) {
        var v :| lo <= v < lo + n && v in l && Ppn(l[v]) == q;
        assert l2[v] == l[v];
      }
    }
  }

  lemma ExtendedStarts(m: Memory, free: set<nat>, t: Table, lo: nat, want: map<nat, Want>)
    requires Represents(m, t)
    ensures Extended(m, free, t, lo, 0, want, m, free, t)
  {
    WithoutNone(Leaves(m, t), lo);
    GrownSelf(t);
  }

  lemma PteIsAsMade(p: nat, perm: nat)
    requires perm < FLAGS
    ensures WithV(perm) < FLAGS
    ensures Ppn(MakePte(p, WithV(perm))) == p && Flags(MakePte(p, WithV(perm))) == WithV(perm)
  {
    PteFields(p, perm);
  }

  /** One turn of a loop that adds pages. */
  method ExtendOne(km: KernelMemory, ghost m0: Memory, ghost free0: set<nat>, ghost t0: Table, ghost lo: nat, ghost n: nat,
                   ghost want: map<nat, Want>, ghost t: Table, root: nat, a: nat, data: seq<int>, perm: nat,
                   ghost f0: nat, ghost total: nat)
    returns (ok: bool, ghost t': Table)
    requires Represents(m0, t0) && Space(km, t) && root == t0[[]] && a == lo + n < MAXVPN
    requires Extended(m0, free0, t0, lo, n, want, km.mem, km.FreeSet(), t)
    requires |data| == WORDS && perm < FLAGS && perm / 2 % 8 != 0
    requires a !in Leaves(m0, t0) && a in want && want[a] == Want(WithV(perm), data)
    requires Counted(t0.Keys, f0, lo, n, n, t.Keys, |km.free|) && n < total
    modifies km
    ensures Space(km, t') && Extended(m0, free0, t0, lo, if ok then n + 1 else n, want, km.mem, km.FreeSet(), t')
    ensures ok ==> Counted(t0.Keys, f0, lo, n + 1, n + 1, t'.Keys, |km.free|)
    ensures !ok ==> f0 < total + |Tables(lo, total) - t0.Keys|
  {
    hide Needed, TablesFor, Tables, Counted, Represents, Leaves, Pages, Ppn, Flags, Keeps, Frames, Without, MakePte,
      WithV, PathOf, Entry,
      KernelMemory.Valid, KernelMemory.FreeSet;
    ghost var m1, free1 := km.mem, km.FreeSet();
    WithoutAt(Leaves(m1, t), lo, n, a);
    RootIn(m0, t0);
    ghost var p;
    ghost var f1 := |km.free|;
    ok, p, t' := AddPage(km, t, root, a, data, perm);
    CountedNext(t0.Keys, f0, lo, n, total, n, 1, t.Keys, f1, ok, t'.Keys, |km.free|);
    PteIsAsMade(p, perm);
    if ok {
      ExtendedByOne(m0, free0, t0, lo, n, want, m1, free1, t, p, MakePte(p, WithV(perm)), km.mem, km.FreeSet(), t');
    } else {
      ExtendedSame(m0, free0, t0, lo, n, want, m1, free1, t, km.mem, km.FreeSet(), t');
    }
  }

  lemma ExtendedSame(m0: Memory, free0: set<nat>, t0: Table, lo: nat, n: nat, want: map<nat, Want>,
                     m1: Memory, free1: set<nat>, t1: Table, m2: Memory, free2: set<nat>, t2: Table)
    requires Represents(m0, t0) && Represents(m1, t1) && Represents(m2, t2)
    requires Extended(m0, free0, t0, lo, n, want, m1, free1, t1)
    requires Grown(t1, t2) && Leaves(m2, t2) == Leaves(m1, t1)
    requires Pages(t2) + free2 == Pages(t1) + free1 && Keeps(m1, m2, Pages(t2) + free2)
    ensures Extended(m0, free0, t0, lo, n, want, m2, free2, t2)
  {
    hide Represents, Leaves, Pages, Ppn, Flags, Keeps, Grown, Frames, Without, OwnsRange, AsWanted;
    var l := Leaves(m1, t1);
    GrownTrans(t0, t1, t2);
    RangeSame(m1, free1, t1, m2, free2, t2, l, lo, n, want);
    KeepsVia(m0, m1, m2, Pages(t1) + free1 + Frames(l, lo, n), Pages(t2) + free2, Pages(t2) + free2 + Frames(l, lo, n));
  }

  /** Mapped pages stay as they are while pages move between the tree and the free list. */
  lemma RangeSame(m1: Memory, free1: set<nat>, t1: Table, m2: Memory, free2: set<nat>, t2: Table,
                  l: map<nat, int>, lo: nat, n: nat, want: map<nat, Want>)
    requires OwnsRange(m1, free1, t1, l, lo, n) && AsWanted(m1, l, lo, n, want)
    requires Pages(t2) + free2 == Pages(t1) + free1 && Keeps(m1, m2, Pages(t2) + free2)
    ensures OwnsRange(m2, free2, t2, l, lo, n) && AsWanted(m2, l, lo, n, want)
  {
    hide Pages, Ppn, Flags, Keeps, Frames;
    forall v | lo <= v < lo + n
      ensures Ppn(l[v]) !in free2 && Ppn(l[v]) !in Pages(t2) && Ppn(l[v]) in m2 && m2[Ppn(l[v])] == m1[Ppn(l[v])]
    {
      assert Ppn(l[v]) !in Pages(t2) + free2;
      KeepsAt(m1, m2, Pages(t2) + free2, Ppn(l[v]));
    }
  }

  // ---- Growing and shrinking ----

  ghost function ZeroPages(lo: nat, hi: nat, perm: nat): map<nat, Want> {
    map v: nat | lo <= v < hi :: ZeroPage(v, perm)
  }

  /** Every new page is wanted alike, whatever its number. */
  ghost function ZeroPage(v: nat, perm: nat): Want {
    Want(WithV(perm), Filled(0))
  }

  lemma AllUnmapped(l: map<nat, int>, lo: nat, n: nat, v: nat)
    requires Unmapped(l, lo, n) && lo <= v < lo + n
    ensures v !in l
  {
  }

  /** Undoing what was added leaves the mappings and the user pages of before. */
  lemma UndoExtended(m0: Memory, free0: set<nat>, t0: Table, lo: nat, n: nat, want: map<nat, Want>,
                     m1: Memory, free1: set<nat>, km: KernelMemory, t: Table)
    requires Represents(m0, t0) && Represents(m1, t) && Extended(m0, free0, t0, lo, n, want, m1, free1, t)
    requires Space(km, t) && Leaves(km.mem, t) == Without(Leaves(m1, t), lo, n)
    requires km.FreeSet() == free1 + Frames(Leaves(m1, t), lo, n)
    requires Keeps(m1, km.mem, Pages(t) + km.FreeSet())
    ensures Restored(km, m0, free0, t0, t)
  {
    hide Represents, Leaves, Frames, Without, Pages, Keeps, Grown, OwnsRange, AsWanted, KernelMemory.FreeSet;
    KeepsVia(m0, m1, km.mem, Pages(t) + free1 + Frames(Leaves(m1, t), lo, n), Pages(t) + km.FreeSet(), Pages(t) + km.FreeSet());
    assert Pages(t) + km.FreeSet() == Pages(t) + free1 + Frames(Leaves(m1, t), lo, n);
  }

  /** Shrink an address space, giving back the pages. */
  method UvmDealloc(km: KernelMemory, ghost t: Table, root: nat, oldsz: nat, newsz: nat) returns (r: nat)
    requires Space(km, t) && root == t[[]] && PageCount(oldsz) <= MAXVPN
    requires newsz < oldsz ==>
               OwnsRange(km.mem, km.FreeSet(), t, Leaves(km.mem, t), PageCount(newsz), PageCount(oldsz) - PageCount(newsz))
    modifies km
    ensures r == if newsz < oldsz then newsz else oldsz
    ensures Space(km, t) && Keeps(old(km.mem), km.mem, Pages(t) + km.FreeSet())
    ensures var n := if newsz < oldsz then PageCount(oldsz) - PageCount(newsz) else 0;
            && Leaves(km.mem, t) == Without(old(Leaves(km.mem, t)), PageCount(newsz), n)
            && km.FreeSet() == old(km.FreeSet()) + Frames(old(Leaves(km.mem, t)), PageCount(newsz), n)
  {
    hide Represents, Leaves, Frames, Without, Pages, Keeps, KernelMemory.FreeSet, KernelMemory.Valid;
    WithoutNone(Leaves(km.mem, t), PageCount(newsz));
    KeepsSelf(km.mem, Pages(t) + km.FreeSet());
    if newsz >= oldsz {
      return oldsz;
    }
    if PageCount(newsz) < PageCount(oldsz) {
      var npages := PageCount(oldsz) - PageCount(newsz);
      UvmUnmap(km, t, root, PageCount(newsz), npages, true);
    }
    return newsz;
  }

  /** Take back the `n` pages added from `lo`. */
  method TakeBack(km: KernelMemory, ghost m0: Memory, ghost free0: set<nat>, ghost t0: Table, lo: nat, n: nat,
                  ghost want: map<nat, Want>, ghost t: Table, root: nat)
    requires Represents(m0, t0) && Space(km, t) && root == t0[[]] && lo + n <= MAXVPN
    requires Extended(m0, free0, t0, lo, n, want, km.mem, km.FreeSet(), t)
    modifies km
    ensures Restored(km, m0, free0, t0, t)
  {
    hide Represents, Leaves, Pages, Keeps, Frames, Without, AsWanted, Restored, KernelMemory.Valid, KernelMemory.FreeSet;
    RootIn(m0, t0);
    ghost var m1, free1 := km.mem, km.FreeSet();
    Rounded(lo);
    Rounded(lo + n);
    var _ := UvmDealloc(km, t, root, PGSIZE * (lo + n), PGSIZE * lo);
    if n == 0 {
      WithoutNone(Leaves(m1, t), lo);
    }
    UndoExtended(m0, free0, t0, lo, n, want, m1, free1, km, t);
  }

  lemma Rounded(n: nat)
    ensures PageCount(PGSIZE * n) == n
  {
  }

  /** There are free pages for `n` new pages from `lo` and for the tables that these lack. */
  ghost predicate Enough(keys: set<Path>, lo: nat, n: nat, free: nat) {
    n + |Tables(lo, n) - keys| <= free
  }

  /** Grow an address space with zeroed pages, or leave it as it was. It grows exactly when there is a free page
      for every new page and for every table that these lack. */
  method UvmAlloc(km: KernelMemory, ghost t: Table, root: nat, oldsz: nat, newsz: nat, xperm: nat)
    returns (r: nat, ghost ok: bool, ghost t': Table)
    requires Space(km, t) && root == t[[]] && newsz <= PGSIZE * MAXVPN && xperm in {0, PTE_W, PTE_X, PTE_W + PTE_X}
    requires oldsz <= newsz ==> Unmapped(Leaves(km.mem, t), PageCount(oldsz), PageCount(newsz) - PageCount(oldsz))
    modifies km
    ensures Space(km, t')
    ensures newsz < oldsz ==> ok && r == oldsz && t' == t && km.mem == old(km.mem) && km.free == old(km.free)
    ensures newsz >= oldsz && ok ==> r == newsz
    ensures newsz >= oldsz && ok ==>
              Extended(old(km.mem), old(km.FreeSet()), t, PageCount(oldsz), PageCount(newsz) - PageCount(oldsz),
                       ZeroPages(PageCount(oldsz), PageCount(newsz), PTE_R + PTE_U + xperm), km.mem, km.FreeSet(), t')
    ensures !ok ==> r == 0 && Restored(km, old(km.mem), old(km.FreeSet()), t, t')
    ensures newsz >= oldsz ==>
              (ok <==> Enough(t.Keys, PageCount(oldsz), PageCount(newsz) - PageCount(oldsz), |old(km.free)|))
  {
    hide Represents, Leaves, Extended, Restored, Unmapped, WithV, Counted, Tables, Pages, Keeps, Grown, PageCount,
      KernelMemory.Valid, KernelMemory.FreeSet;
    t', ok := t, true;
    PageCounts(oldsz, newsz);
    if newsz < oldsz {
      return oldsz, ok, t';
    }
    var grown;
    grown, t' := AllocPages(km, t, root, PageCount(oldsz), newsz, PTE_R + PTE_U + xperm);
    ok := grown;
    r := if grown then newsz else 0;
  }

  /** The loop that grows an address space page by page, up to `newsz` bytes. */
  method AllocPages(km: KernelMemory, ghost t: Table, root: nat, lo: nat, newsz: nat, perm: nat)
    returns (ok: bool, ghost t': Table)
    requires Space(km, t) && root == t[[]] && lo <= PageCount(newsz) <= MAXVPN && perm < FLAGS && perm / 2 % 8 != 0
    requires Unmapped(Leaves(km.mem, t), lo, PageCount(newsz) - lo)
    modifies km
    ensures Space(km, t')
    ensures ok ==> Extended(old(km.mem), old(km.FreeSet()), t, lo, PageCount(newsz) - lo, ZeroPages(lo, PageCount(newsz), perm),
                            km.mem, km.FreeSet(), t')
    ensures !ok ==> Restored(km, old(km.mem), old(km.FreeSet()), t, t')
    ensures ok <==> Enough(t.Keys, lo, PageCount(newsz) - lo, |old(km.free)|)
  {
    hide Represents, Leaves, Extended, Restored, Unmapped, WithV, Counted, Tables, Pages, Keeps, Grown, PageCount,
      KernelMemory.Valid, KernelMemory.FreeSet;
    t' := t;
    var a := lo;
    ghost var m0, free0 := km.mem, km.FreeSet();
    ghost var want := ZeroPages(lo, PageCount(newsz), perm);
    ghost var f0, total := |km.free|, PageCount(newsz) - lo;
    ExtendedStarts(m0, free0, t, lo, want);
    CountedStarts(t.Keys, f0, lo);
    while PGSIZE * a < newsz
      invariant lo <= a <= lo + total
      invariant Space(km, t') && Extended(m0, free0, t, lo, a - lo, want, km.mem, km.FreeSet(), t')
      invariant Counted(t.Keys, f0, lo, a - lo, a - lo, t'.Keys, |km.free|)
      decreases lo + total - a
    {
      PagesLeft(a, newsz);
      ok, t' := AllocNext(km, m0, free0, t, lo, a, total, want, t', root, perm, f0);
      if !ok {
        return;
      }
      a := a + 1;
    }
    PagesLeft(a, newsz);
    assert a - lo == total;
    CountedEnds(t.Keys, f0, lo, total, total, t'.Keys, |km.free|);
    ok := true;
  }

  lemma PagesLeft(a: nat, size: nat)
    ensures PGSIZE * a < size <==> a < PageCount(size)
  {
  }

  lemma PageCounts(oldsz: nat, newsz: nat)
    ensures oldsz <= newsz ==> PageCount(oldsz) <= PageCount(newsz)
    ensures newsz <= PGSIZE * MAXVPN ==> PageCount(newsz) <= MAXVPN
  {
  }

  /** One turn of the loop: a zeroed page more, or everything taken back. */
  method AllocNext(km: KernelMemory, ghost m0: Memory, ghost free0: set<nat>, ghost t0: Table, lo: nat, a: nat, ghost total: nat,
                   ghost want: map<nat, Want>, ghost t: Table, root: nat, perm: nat, ghost f0: nat)
    returns (mapped: bool, ghost t': Table)
    requires Represents(m0, t0) && Space(km, t) && root == t0[[]] && lo <= a < lo + total <= MAXVPN
    requires Unmapped(Leaves(m0, t0), lo, total) && a in want && want[a] == Want(WithV(perm), Filled(0))
    requires perm < FLAGS && perm / 2 % 8 != 0
    requires Extended(m0, free0, t0, lo, a - lo, want, km.mem, km.FreeSet(), t)
    requires Counted(t0.Keys, f0, lo, a - lo, a - lo, t.Keys, |km.free|)
    modifies km
    ensures Space(km, t')
    ensures mapped ==> Extended(m0, free0, t0, lo, a - lo + 1, want, km.mem, km.FreeSet(), t')
    ensures mapped ==> Counted(t0.Keys, f0, lo, a - lo + 1, a - lo + 1, t'.Keys, |km.free|)
    ensures !mapped ==> Restored(km, m0, free0, t0, t') && !Enough(t0.Keys, lo, total, f0)
  {
    hide Represents, Leaves, Extended, Restored, Unmapped, WithV, Counted, Tables, Pages, Keeps, Grown,
      KernelMemory.Valid, KernelMemory.FreeSet;
    AllUnmapped(Leaves(m0, t0), lo, total, a);
    mapped, t' := ExtendOne(km, m0, free0, t0, lo, a - lo, want, t, root, a, Filled(0), perm, f0, total);
    if !mapped {
      TakeBack(km, m0, free0, t0, lo, a - lo, want, t', root);
      RestoredSpace(km, m0, free0, t0, t');
    }
  }

  lemma RestoredSpace(km: KernelMemory, m0: Memory, free0: set<nat>, t0: Table, t: Table)
    requires Represents(m0, t0) && Restored(km, m0, free0, t0, t)
    ensures Space(km, t)
  {
  }

  // ---- Copying ----

  /** What a copy of the first `n` pages is to look like. */
  ghost function CopyOf(m: Memory, l: map<nat, int>, n: nat): map<nat, Want> {
    map v: nat | v < n && v in l && Ppn(l[v]) in m && 0 <= Flags(l[v]) :: Want(Flags(l[v]), m[Ppn(l[v])])
  }

  /** The pages of `[0, n)` of an address space, and of the space itself, lie outside `other`. */
  ghost predicate Apart(m: Memory, t: Table, n: nat, other: set<nat>)
    requires Represents(m, t)
  {
    && Pages(t) !! other
    && forall v :: 0 <= v < n ==>
         v in Leaves(m, t) && Ppn(Leaves(m, t)[v]) in m && |m[Ppn(Leaves(m, t)[v])]| == WORDS && Ppn(Leaves(m, t)[v]) !in other
  }

  lemma ApartAt(m: Memory, t: Table, n: nat, other: set<nat>, v: nat)
    requires Represents(m, t) && Apart(m, t, n, other) && v < n
    ensures v in Leaves(m, t)
    ensures var p := Ppn(Leaves(m, t)[v]); p in m && |m[p]| == WORDS && p !in other
  {
  }

  /** Extending one address space does not touch another. */
  lemma OtherKept(m0: Memory, free0: set<nat>, t0: Table, lo: nat, n: nat, want: map<nat, Want>,
                  m: Memory, free: set<nat>, t: Table, other: Table, k: nat)
    requires Represents(m0, t0) && Represents(m, t) && Represents(m0, other)
    requires Extended(m0, free0, t0, lo, n, want, m, free, t)
    requires Apart(m0, other, k, Pages(t0) + free0)
    ensures Represents(m, other) && Leaves(m, other) == Leaves(m0, other) && Pages(other) !! free
    ensures Apart(m, other, k, Pages(t0) + free0)
    ensures forall v :: 0 <= v < k ==> var p := Ppn(Leaves(m0, other)[v]); p in m0 && p in m && m[p] == m0[p]
  {
    hide Represents, Leaves, Pages, Ppn, Frames, Without, Grown, OwnsRange, AsWanted, Keeps;
    var touched := Pages(t) + free + Frames(Leaves(m, t), lo, n);
    assert touched == Pages(t0) + free0;
    forall q | q in m0 && q !in touched ensures q in m && m[q] == m0[q] {
      KeepsAt(m0, m, touched, q);
    }
    TreeKept(m0, m, other);
  }

  lemma CopyOfAt(m: Memory, l: map<nat, int>, n: nat, a: nat)
    requires a < n && a in l && Ppn(l[a]) in m && IsValid(l[a]) && Maps(l[a])
    ensures 0 <= Flags(l[a]) < FLAGS && Flags(l[a]) / 2 % 8 != 0 && WithV(Flags(l[a])) == Flags(l[a])
    ensures a in CopyOf(m, l, n) && CopyOf(m, l, n)[a] == Want(WithV(Flags(l[a])), m[Ppn(l[a])])
  {
    var w := l[a];
    var q, f := w / 1024, w % 1024;
    assert w == q * 1024 + f;
    assert w / 2 == q * 512 + f / 2 && w % 2 == f % 2;
    assert (q * 512 + f / 2) % 8 == f / 2 % 8 by { HighBits(q, f / 2); }
  }

  lemma HighBits(q: int, h: nat)
    ensures (q * 512 + h) % 8 == h % 8
  {
    MultipleOfEight(q * 64 + h / 8, h % 8);
    assert q * 512 + h == (q * 64 + h / 8) * 8 + h % 8;
  }

  lemma MultipleOfEight(x: int, r: nat)
    requires r < 8
    ensures (x * 8 + r) % 8 == r
  {
  }

  /** One turn of the copying loop. */
  method CopyOne(km: KernelMemory, ghost m0: Memory, ghost free0: set<nat>, ghost t0: Table, ghost t: Table, root: nat,
                 ghost parent: Table, parentRoot: nat, a: nat, ghost n: nat, ghost f0: nat)
    returns (ok: bool, ghost t': Table)
    requires Represents(m0, t0) && Represents(m0, parent) && Space(km, t) && root == t0[[]] && parentRoot == parent[[]]
    requires a < n <= MAXVPN && Apart(m0, parent, n, Pages(t0) + free0) && Unmapped(Leaves(m0, t0), 0, n)
    requires Extended(m0, free0, t0, 0, a, CopyOf(m0, Leaves(m0, parent), n), km.mem, km.FreeSet(), t)
    requires Counted(t0.Keys, f0, 0, a, a, t.Keys, |km.free|)
    modifies km
    ensures Space(km, t')
    ensures ok ==> Counted(t0.Keys, f0, 0, a + 1, a + 1, t'.Keys, |km.free|)
    ensures !ok ==> f0 < n + |Tables(0, n) - t0.Keys|
    ensures Extended(m0, free0, t0, 0, if ok then a + 1 else a, CopyOf(m0, Leaves(m0, parent), n), km.mem, km.FreeSet(), t')
  {
    hide Needed, TablesFor, Tables, Counted, Represents, Leaves, Entry, PathOf, Px, Extended, Unmapped, WithV, Apart,
      CopyOf, Pages, Ppn, Flags, Maps, IsValid,
      KernelMemory.FreeSet, KernelMemory.Valid, Grown, Keeps;
    ghost var l := Leaves(m0, parent);
    ghost var want, free1 := CopyOf(m0, l, n), km.free;
    OtherKept(m0, free0, t0, 0, a, want, km.mem, km.FreeSet(), t, parent, n);
    ApartAt(m0, parent, n, Pages(t0) + free0, a);
    ApartAt(km.mem, parent, n, Pages(t0) + free0, a);
    RootIn(km.mem, parent);
    LeafAt(km.mem, parent, a);
    LeafMaps(km.mem, parent, a);
    CopyOfAt(m0, l, n, a);
    AllUnmapped(Leaves(m0, t0), 0, n, a);
    var present, page, _ := Walk(km, parentRoot, parent, a, false);
    var pte := km.mem[page][Px(0, a)];
    assert present && pte == l[a] && km.free == free1;
    var data := km.mem[Ppn(pte)];
    ok, t' := ExtendOne(km, m0, free0, t0, 0, a, want, t, root, a, data, Flags(pte), f0, n);
  }

  /** Tree and user pages of another address space are untouched. */
  ghost predicate Intact(m0: Memory, m: Memory, t: Table, n: nat)
    requires Represents(m0, t)
  {
    && Represents(m, t) && Leaves(m, t) == Leaves(m0, t)
    && forall v :: 0 <= v < n && v in Leaves(m0, t) ==> var p := Ppn(Leaves(m0, t)[v]); p in m0 && p in m && m[p] == m0[p]
  }

  lemma KeptIntact(m0: Memory, m: Memory, touched: set<nat>, t: Table, n: nat, other: set<nat>)
    requires Represents(m0, t) && Apart(m0, t, n, other) && Keeps(m0, m, touched) && touched <= other
    ensures Intact(m0, m, t, n)
  {
    hide Represents, Leaves, Pages, Ppn, Keeps;
    forall q | q in m0 && q !in touched ensures q in m && m[q] == m0[q] {
      KeepsAt(m0, m, touched, q);
    }
    TreeKept(m0, m, t);
  }

  lemma ExtendedKeeps(m0: Memory, free0: set<nat>, t0: Table, lo: nat, n: nat, want: map<nat, Want>,
                      m: Memory, free: set<nat>, t: Table)
    requires Represents(m0, t0) && Represents(m, t) && Extended(m0, free0, t0, lo, n, want, m, free, t)
    ensures Keeps(m0, m, Pages(t0) + free0)
  {
    hide Keeps;
    assert Pages(t) + free + Frames(Leaves(m, t), lo, n) == Pages(t0) + free0;
  }

  lemma RestoredKeeps(km: KernelMemory, m0: Memory, free0: set<nat>, t0: Table, t: Table)
    requires Represents(m0, t0) && Restored(km, m0, free0, t0, t)
    ensures Keeps(m0, km.mem, Pages(t0) + free0)
  {
    hide Keeps;
    assert Pages(t) + km.FreeSet() == Pages(t0) + free0;
  }

  /** Copy the first pages of a parent's address space into a child's: all of them or none. It copies exactly
      when there is a free page for every page of the copy and for every table that these lack. */
  method UvmCopy(km: KernelMemory, ghost parent: Table, parentRoot: nat, ghost t: Table, root: nat, size: nat)
    returns (ok: bool, ghost t': Table)
    requires Space(km, parent) && parentRoot == parent[[]] && Space(km, t) && root == t[[]]
    requires PageCount(size) <= MAXVPN && Unmapped(Leaves(km.mem, t), 0, PageCount(size))
    requires Apart(km.mem, parent, PageCount(size), Pages(t) + km.FreeSet())
    modifies km
    ensures Space(km, t')
    ensures ok ==> Extended(old(km.mem), old(km.FreeSet()), t, 0, PageCount(size),
                            CopyOf(old(km.mem), old(Leaves(km.mem, parent)), PageCount(size)), km.mem, km.FreeSet(), t')
    ensures !ok ==> Restored(km, old(km.mem), old(km.FreeSet()), t, t')
    ensures ok <==> Enough(t.Keys, 0, PageCount(size), |old(km.free)|)
    ensures Intact(old(km.mem), km.mem, parent, PageCount(size))
  {
    hide Represents, Leaves, Extended, Restored, Unmapped, Apart, CopyOf, Pages, Keeps, Intact, Counted, Tables,
      KernelMemory.FreeSet, KernelMemory.Valid;
    ghost var m0, free0, n := km.mem, km.FreeSet(), PageCount(size);
    ghost var want := CopyOf(m0, Leaves(m0, parent), n);
    t' := t;
    ExtendedStarts(m0, free0, t, 0, want);
    ghost var f0 := |km.free|;
    CountedStarts(t.Keys, f0, 0);
    var i := 0;
    while PGSIZE * i < size
      invariant 0 <= i <= n
      invariant Space(km, t') && Extended(m0, free0, t, 0, i, want, km.mem, km.FreeSet(), t')
      invariant Counted(t.Keys, f0, 0, i, i, t'.Keys, |km.free|)
      decreases n - i
    {
      ok, t' := CopyOne(km, m0, free0, t, t', root, parent, parentRoot, i, n, f0);
      if !ok {
        TakeBack(km, m0, free0, t, 0, i, want, t', root);
        RestoredSpace(km, m0, free0, t, t');
        RestoredKeeps(km, m0, free0, t, t');
        KeptIntact(m0, km.mem, Pages(t) + free0, parent, n, Pages(t) + free0);
        return;
      }
      i := i + 1;
    }
    ExtendedKeeps(m0, free0, t, 0, n, want, km.mem, km.FreeSet(), t');
    KeptIntact(m0, km.mem, Pages(t) + free0, parent, n, Pages(t) + free0);
    CountedEnds(t.Keys, f0, 0, n, n, t'.Keys, |km.free|);
    ok := true;
  }

  // ---- Teardown ----

  /** The pages of the tree at and below a path. */
  ghost function Under(t: Table, path: Path): set<nat> {
    set p | p in t && path <= p :: t[p]
  }

  /** The pages below the first `i` entries of the table at a path. */
  ghost function UnderFirst(t: Table, path: Path, i: nat): set<nat> {
    set p | p in t && |path| < |p| && path <= p && p[|path|] < i :: t[p]
  }

  /** The part of the tree at and below a path is intact, allocated, and maps nothing. */
  ghost predicate Bare(m: Memory, t: Table, path: Path) {
    forall p :: p in t && path <= p ==> BareNode(m, t, p)
  }

  ghost predicate BareNode(m: Memory, t: Table, p: Path)
    requires p in t
  {
    NodeOk(m, t, p) && (|p| == 2 ==> forall i :: 0 <= i < WORDS ==> !IsValid(m[t[p]][i]))
  }

  /** What is left to free in the table at `path` after its first `i` entries. */
  ghost predicate BareFrom(m: Memory, t: Table, path: Path, i: nat)
    requires path in t
  {
    && t[path] in m && |m[t[path]]| == WORDS
    && (forall j: nat {:trigger Child(path, j)} :: i <= j < WORDS ==>
          && (Child(path, j) in t ==> m[t[path]][j] == MakePte(t[Child(path, j)], PTE_V) && |path| < 2)
          && (Child(path, j) !in t ==> !IsValid(m[t[path]][j])))
    && (forall p :: p in t && |path| < |p| && path <= p && p[|path|] >= i ==> BareNode(m, t, p))
  }

  lemma BareStarts(m: Memory, t: Table, path: Path)
    requires Shape(t) && path in t && Bare(m, t, path)
    ensures BareFrom(m, t, path, 0)
  {
    hide MakePte, IsValid, Maps;
    assert BareNode(m, t, path);
    forall j: nat | j < WORDS && |path| == 2 ensures Child(path, j) !in t {
      assert |Child(path, j)| == 3;
    }
  }

  lemma BareBelow(m: Memory, t: Table, path: Path, i: nat)
    requires Shape(t) && path in t && i < WORDS && BareFrom(m, t, path, i) && Child(path, i) in t
    ensures Bare(m, t, Child(path, i)) && |path| < 2
    ensures var w := m[t[path]][i]; IsValid(w) && !Maps(w) && Ppn(w) == t[Child(path, i)]
  {
    hide MakePte, NodeOk;
    PointerFields(t[Child(path, i)]);
    var c := Child(path, i);
    forall p | p in t && c <= p ensures BareNode(m, t, p) {
      assert p[|path|] == c[|path|] == i;
      assert path == c[..|path|] == p[..|path|];
    }
  }

  lemma UnderSplit(t: Table, path: Path, i: nat)
    requires Shape(t)
    ensures UnderFirst(t, path, 0) == {}
    ensures UnderFirst(t, path, i + 1) == UnderFirst(t, path, i) + Under(t, Child(path, i))
    ensures UnderFirst(t, path, i) !! Under(t, Child(path, i))
  {
    var c := Child(path, i);
    forall p | p in t ensures c <= p <==> |path| < |p| && path <= p && p[|path|] == i {
      if c <= p {
        assert p[|path|] == c[|path|] == i && path == c[..|path|] == p[..|path|];
      }
      if |path| < |p| && path <= p && p[|path|] == i {
        assert p[..|path| + 1] == c;
      }
    }
  }

  lemma UnderNone(t: Table, path: Path, i: nat)
    requires Shape(t) && Child(path, i) !in t
    ensures Under(t, Child(path, i)) == {}
  {
    forall p | p in t ensures Child(path, i) <= p ==> Child(path, i) in t {
      if Child(path, i) <= p {
        AncestorIn(t, Child(path, i), p);
      }
    }
  }

  lemma AncestorIn(t: Table, c: Path, p: Path)
    requires Shape(t) && p in t && c <= p
    ensures c in t
    decreases |p|
  {
    if c != p {
      var q := p[..|p| - 1];
      assert Child(q, p[|p| - 1]) == p;
      assert c == p[..|c|] == q[..|c|];
      AncestorIn(t, c, q);
    }
  }

  lemma UnderAll(t: Table, path: Path)
    requires Shape(t) && path in t
    ensures Under(t, path) == UnderFirst(t, path, WORDS) + {t[path]}
    ensures t[path] !in UnderFirst(t, path, WORDS)
  {
    forall p | p in t && path <= p && p != path ensures |path| < |p| && p[|path|] < WORDS {
      assert |p| == |path| ==> p == path;
    }
  }

  /** Freeing the pages below one entry and clearing it leaves the rest to be freed. */
  lemma BareNext(m: Memory, t: Table, path: Path, i: nat, m': Memory)
    requires Shape(t) && path in t && i < WORDS && BareFrom(m, t, path, i)
    requires m'.Keys == m.Keys
    requires forall q :: q in m && q !in Under(t, Child(path, i)) && q != t[path] ==> m'[q] == m[q]
    requires |m'[t[path]]| == WORDS && forall j :: i < j < WORDS ==> m'[t[path]][j] == m[t[path]][j]
    ensures BareFrom(m', t, path, i + 1)
  {
    hide MakePte, IsValid, Maps, NodeOk, Under;
    ParentNotUnder(t, path, i);
    forall p | p in t && |path| < |p| && path <= p && p[|path|] >= i + 1 ensures BareNode(m', t, p) {
      assert BareNode(m, t, p);
      OtherBranch(t, path, i, p);
      BareNodeKept(m, t, p, m');
    }
  }

  lemma BareNodeKept(m: Memory, t: Table, p: Path, m': Memory)
    requires p in t && BareNode(m, t, p) && m'.Keys == m.Keys && (t[p] in m ==> m'[t[p]] == m[t[p]])
    ensures BareNode(m', t, p)
  {
  }

  lemma OtherBranch(t: Table, path: Path, i: nat, p: Path)
    requires Shape(t) && path in t && p in t && |path| < |p| && path <= p && p[|path|] != i
    ensures t[p] !in Under(t, Child(path, i)) && t[p] != t[path]
  {
    forall q | q in t && Child(path, i) <= q ensures q != p {
      assert q[|path|] == Child(path, i)[|path|] == i;
    }
  }

  lemma ParentNotUnder(t: Table, path: Path, i: nat)
    requires Shape(t) && path in t
    ensures t[path] !in Under(t, Child(path, i))
    ensures Under(t, Child(path, i)) + {t[path]} <= Under(t, path)
  {
    forall q | q in t && Child(path, i) <= q ensures q != path && path <= q {
      assert path == Child(path, i)[..|path|] == q[..|path|];
    }
  }

  lemma BareEntry(m: Memory, t: Table, path: Path, i: nat)
    requires Shape(t) && path in t && i < WORDS && BareFrom(m, t, path, i)
    ensures t[path] in m && |m[t[path]]| == WORDS
    ensures IsValid(m[t[path]][i]) <==> Child(path, i) in t
  {
    if Child(path, i) in t {
      BareBelow(m, t, path, i);
    }
  }

  /** One turn of the loop over the entries of a table. */
  method FreeEntry(km: KernelMemory, ghost t: Table, ghost path: Path, page: nat, i: nat)
    requires km.Valid() && Shape(t) && path in t && page == t[path] && page !in km.FreeSet() && i < WORDS
    requires BareFrom(km.mem, t, path, i) && Under(t, Child(path, i)) !! km.FreeSet()
    modifies km
    ensures km.Valid() && BareFrom(km.mem, t, path, i + 1)
    ensures km.FreeSet() == old(km.FreeSet()) + Under(t, Child(path, i))
    ensures Keeps(old(km.mem), km.mem, Under(t, Child(path, i)) + {page})
    decreases 2 - |path|, 0
  {
    hide Shape, Bare, BareFrom, Under, MakePte, NodeOk, IsValid, Maps, Ppn, KernelMemory.Valid;
    ghost var m0 := km.mem;
    BareEntry(m0, t, path, i);
    ParentNotUnder(t, path, i);
    var pte := km.mem[page][i];
    if IsValid(pte) {
      BareBelow(m0, t, path, i);
      if Maps(pte) {
        assert false;
      }
      FreeWalk(km, t, Child(path, i), Ppn(pte));
      assert page in km.mem && km.mem[page] == m0[page];
      StorePte(km, page, i, 0);
    } else {
      UnderNone(t, path, i);
    }
    BareNext(m0, t, path, i, km.mem);
  }

  /** Free the table at `path` and all the tables below it, each once. */
  method FreeWalk(km: KernelMemory, ghost t: Table, ghost path: Path, page: nat)
    requires km.Valid() && Shape(t) && path in t && page == t[path]
    requires Bare(km.mem, t, path) && Under(t, path) !! km.FreeSet()
    modifies km
    ensures km.Valid() && km.FreeSet() == old(km.FreeSet()) + Under(t, path)
    ensures Keeps(old(km.mem), km.mem, Under(t, path))
    decreases 2 - |path|, 1
  {
    hide Shape, Bare, BareFrom, Under, UnderFirst, MakePte, NodeOk, KernelMemory.Valid, KernelMemory.FreeSet, Keeps;
    ghost var m0, free0 := km.mem, km.FreeSet();
    BareStarts(m0, t, path);
    UnderAll(t, path);
    UnderSplit(t, path, 0);
    KeepsSelf(m0, Under(t, path));
    BareEntry(m0, t, path, 0);
    var i := 0;
    while i < WORDS
      invariant 0 <= i <= WORDS
      invariant km.Valid() && BareFrom(km.mem, t, path, i)
      invariant km.FreeSet() == free0 + UnderFirst(t, path, i) && page !in km.FreeSet()
      invariant Keeps(m0, km.mem, Under(t, path))
    {
      ghost var m1 := km.mem;
      UnderSplit(t, path, i);
      ParentNotUnder(t, path, i);
      FreeEntry(km, t, path, page, i);
      KeepsVia(m0, m1, km.mem, Under(t, path), Under(t, Child(path, i)) + {page}, Under(t, path));
      i := i + 1;
    }
    ghost var m1 := km.mem;
    KeepsKeys(m0, m1, Under(t, path));
    FreeOne(km, page);
    KeepsVia(m0, m1, km.mem, Under(t, path), {page}, Under(t, path));
  }

  method FreeOne(km: KernelMemory, page: nat)
    requires km.Valid() && page in km.mem && page !in km.FreeSet()
    modifies km
    ensures km.Valid() && km.FreeSet() == old(km.FreeSet()) + {page} && Keeps(old(km.mem), km.mem, {page})
  {
    km.Kfree(page);
  }

  // ---- Whole address spaces ----

  function SlotOf(i: nat, j: nat, k: nat): nat {
    i * (WORDS * WORDS) + j * WORDS + k
  }

  lemma SlotFields(i: nat, j: nat, k: nat)
    requires i < WORDS && j < WORDS && k < WORDS
    ensures i < WORDS / 2 ==> SlotOf(i, j, k) < MAXVPN
    ensures PathOf(SlotOf(i, j, k)) == [i, j] && Px(0, SlotOf(i, j, k)) == k
  {
    var v := SlotOf(i, j, k);
    assert v / WORDS == i * WORDS + j && v % WORDS == k;
    assert v / (WORDS * WORDS) == v / WORDS / WORDS;
  }

  /** A tree that maps nothing can be taken down. */
  lemma EmptyIsBare(m: Memory, t: Table)
    requires Represents(m, t) && Leaves(m, t) == map[]
    ensures Bare(m, t, []) && Under(t, []) == Pages(t)
  {
    hide Px, PathOf, Leaves, MakePte, Maps;
    forall p | p in t ensures BareNode(m, t, p) {
      NodePage(m, t, p);
      if |p| == 2 {
        forall k: nat | k < WORDS ensures !IsValid(m[t[p]][k]) {
          NoLeafAt(m, t, p, k);
        }
      }
    }
  }

  lemma NoLeafAt(m: Memory, t: Table, p: Path, k: nat)
    requires Represents(m, t) && Leaves(m, t) == map[] && p in t && |p| == 2 && k < WORDS
    ensures t[p] in m && |m[t[p]]| == WORDS && !IsValid(m[t[p]][k])
  {
    hide Px, PathOf, Maps, IsValid, MakePte, SlotOf;
    NodePage(m, t, p);
    SlotFields(p[0], p[1], k);
    var v := SlotOf(p[0], p[1], k);
    assert p == [p[0], p[1]];
    assert Entry(m, t, v) == m[t[p]][k];
    assert v !in Leaves(m, t);
  }

  /** Free the mapped pages `[0, PageCount(size))` and every page of the tree. */
  method UvmFree(km: KernelMemory, ghost t: Table, root: nat, size: nat)
    requires Space(km, t) && root == t[[]] && PageCount(size) <= MAXVPN
    requires OwnsRange(km.mem, km.FreeSet(), t, Leaves(km.mem, t), 0, PageCount(size))
    requires Without(Leaves(km.mem, t), 0, PageCount(size)) == map[]
    modifies km
    ensures km.Valid()
    ensures km.FreeSet() == old(km.FreeSet()) + Frames(old(Leaves(km.mem, t)), 0, PageCount(size)) + Pages(t)
    ensures Keeps(old(km.mem), km.mem, km.FreeSet())
  {
    hide Represents, Leaves, Frames, Without, Pages, Keeps, Bare, Under, KernelMemory.FreeSet, KernelMemory.Valid;
    ghost var m0, l := km.mem, Leaves(km.mem, t);
    WithoutNone(l, 0);
    KeepsSelf(m0, Pages(t) + km.FreeSet());
    if size > 0 {
      UvmUnmap(km, t, root, 0, PageCount(size), true);
    }
    ghost var m1, free1 := km.mem, km.FreeSet();
    SpaceShape(km, t);
    EmptyIsBare(m1, t);
    FreeWalk(km, t, [], root);
    KeepsVia(m0, m1, km.mem, Pages(t) + free1, Pages(t), km.FreeSet());
  }

  lemma SpaceShape(km: KernelMemory, t: Table)
    requires Space(km, t)
    ensures Shape(t) && km.Valid()
  {
  }

  const TRAMPOLINE: nat := MAXVPN - 1
  const TRAPFRAME: nat := MAXVPN - 2

  /** An empty address space, or 0 when no page is free. */
  method UvmCreate(km: KernelMemory) returns (root: nat, ghost t: Table)
    requires km.Valid()
    modifies km
    ensures km.Valid()
    ensures root == 0 <==> old(km.free) == []
    ensures root == 0 ==> km.mem == old(km.mem) && km.FreeSet() == old(km.FreeSet())
    ensures root != 0 ==> km.free == old(km.free)[1..]
    ensures root != 0 ==>
              && t == map[[] := root] && Space(km, t) && Leaves(km.mem, t) == map[] && Pages(t) == {root}
              && Pages(t) + km.FreeSet() == old(km.FreeSet()) && Keeps(old(km.mem), km.mem, Pages(t))
  {
    hide Leaves, Entry, NodeOk, Represents;
    root := km.Kalloc();
    t := map[[] := root];
    if root != 0 {
      km.Zero(root);
      EmptyTree(km.mem, root);
    }
  }

  lemma EmptyTree(m: Memory, root: nat)
    requires root in m && m[root] == Filled(0)
    ensures var t: Table := map[[] := root]; Represents(m, t) && Leaves(m, t) == map[] && Pages(t) == {root}
  {
    var t: Table := map[[] := root];
    assert t[[]] == root;
    forall p: Path, i ensures Child(p, i) !in t {
      assert |Child(p, i)| > 0;
    }
    assert NodeOk(m, t, []);
    assert forall v: nat :: Entry(m, t, v) == 0;
  }

  /** The two kernel mappings of every user address space. */
  ghost function KernelLeaves(trampoline: nat, trapframe: nat): map<nat, int> {
    map[TRAMPOLINE := MakePte(trampoline, PTE_R + PTE_X + PTE_V), TRAPFRAME := MakePte(trapframe, PTE_R + PTE_W + PTE_V)]
  }

  /** Nothing has changed but the contents of free pages. */
  ghost predicate Unchanged(km: KernelMemory, m0: Memory, free0: set<nat>)
    reads km
  {
    km.Valid() && km.FreeSet() == free0 && Keeps(m0, km.mem, free0)
  }

  lemma TablesOne(keys: set<Path>, vpn: nat)
    ensures |Tables(vpn, 1) - keys| == Needed(keys, vpn) && keys + Tables(vpn, 1) == keys + TablesFor(vpn)
  {
    TablesNone(keys, vpn);
    TablesStep(keys, vpn, 0);
    KeysStep(keys, vpn, 0);
  }

  /** Both kernel pages use the same tables: the first to be mapped lacks two, the second none. */
  lemma KernelTables()
    ensures Needed({[]}, TRAMPOLINE) == 2 && Needed({[]} + TablesFor(TRAMPOLINE), TRAPFRAME) == 0
  {
    assert Px(2, TRAMPOLINE) == Px(2, TRAPFRAME) && Px(1, TRAMPOLINE) == Px(1, TRAPFRAME);
    assert |Child([], Px(2, TRAMPOLINE))| == 1 && |PathOf(TRAMPOLINE)| == 2;
  }

  /** Map one page into a space all of whose memory came from `free0`. */
  method MapKernelPage(km: KernelMemory, ghost m0: Memory, ghost free0: set<nat>, ghost t: Table, root: nat,
                       vpn: nat, ppn: nat, perm: nat)
    returns (ok: bool, ghost t': Table)
    requires Space(km, t) && root == t[[]] && vpn < MAXVPN && perm < FLAGS && perm / 2 % 8 != 0
    requires vpn !in Leaves(km.mem, t)
    requires Pages(t) + km.FreeSet() == free0 && Keeps(m0, km.mem, free0)
    modifies km
    ensures Space(km, t') && [] in t' && root == t'[[]] && WithV(perm) < FLAGS
    ensures Pages(t') + km.FreeSet() == free0 && Keeps(m0, km.mem, free0)
    ensures Leaves(km.mem, t')
            == if ok then old(Leaves(km.mem, t))[vpn := MakePte(ppn, WithV(perm))] else old(Leaves(km.mem, t))
    ensures ok <==> Needed(t.Keys, vpn) <= |old(km.free)|
    ensures ok ==> t'.Keys == t.Keys + TablesFor(vpn) && |km.free| == |old(km.free)| - Needed(t.Keys, vpn)
  {
    hide Needed, TablesFor, Tables, Represents, Leaves, Pages, Keeps, MakePte, WithV, MapRange, PteFor, Grown,
      KernelMemory.FreeSet, KernelMemory.Valid;
    ghost var m1 := km.mem;
    ghost var mapped;
    RootIn(m1, t);
    TablesOne(t.Keys, vpn);
    ok, mapped, t' := MapPages(km, t, root, vpn, 1, ppn, perm);
    MapRangeStep(Leaves(m1, t), vpn, 0, ppn, perm);
    PteForAt(vpn, ppn, perm, vpn, ppn);
    GrownSelf(t);
    GrownTrans(t, t, t');
    KeepsVia(m0, m1, km.mem, free0, Pages(t'), free0);
  }

  /** A user address space with no memory of its own, or 0 with everything given back when fewer than three
      pages are free. Mapping the trapframe never fails: the trampoline has brought the tables it needs. */
  method ProcPagetable(km: KernelMemory, trampoline: nat, trapframe: nat) returns (root: nat, ghost t: Table)
    requires km.Valid()
    modifies km
    ensures root == 0 <==> |old(km.free)| < 3
    ensures root == 0 ==> Unchanged(km, old(km.mem), old(km.FreeSet()))
    ensures root != 0 ==>
              && Space(km, t) && [] in t && t[[]] == root && Leaves(km.mem, t) == KernelLeaves(trampoline, trapframe)
              && Pages(t) + km.FreeSet() == old(km.FreeSet()) && Keeps(old(km.mem), km.mem, old(km.FreeSet()))
  {
    hide Represents, Leaves, Pages, Keeps, MakePte, Without, Frames, Needed, TablesFor, KernelMemory.FreeSet, KernelMemory.Valid;
    KernelTables();
    ghost var m0, free0 := km.mem, km.FreeSet();
    KeepsSelf(m0, free0);
    root, t := UvmCreate(km);
    if root == 0 {
      return;
    }
    KeepsVia(m0, m0, km.mem, {}, Pages(t), free0);
    assert t.Keys == {[]};
    var ok;
    ok, t := MapKernelPage(km, m0, free0, t, root, TRAMPOLINE, trampoline, PTE_R + PTE_X);
    if !ok {
      DropSpace(km, m0, free0, t, root);
      return 0, t;
    }
    ok, t := MapKernelPage(km, m0, free0, t, root, TRAPFRAME, trapframe, PTE_R + PTE_W);
    if !ok {
      assert false;
    }
  }

  /** Free a space that maps nothing. */
  method DropSpace(km: KernelMemory, ghost m0: Memory, ghost free0: set<nat>, ghost t: Table, root: nat)
    requires Space(km, t) && root == t[[]] && Leaves(km.mem, t) == map[]
    requires Pages(t) + km.FreeSet() == free0 && Keeps(m0, km.mem, free0)
    modifies km
    ensures Unchanged(km, m0, free0)
  {
    hide Represents, Leaves, Pages, Keeps, Without, Frames, KernelMemory.FreeSet, KernelMemory.Valid;
    ghost var m1 := km.mem;
    WithoutNone(Leaves(m1, t), 0);
    UvmFree(km, t, root, 0);
    KeepsVia(m0, m1, km.mem, free0, km.FreeSet(), free0);
  }

  /** Give back every page of a process: its memory `[0, PageCount(size))` and its tables, but not
      the trampoline and the trapframe. */
  method ProcFreePagetable(km: KernelMemory, ghost t: Table, root: nat, size: nat)
    requires Space(km, t) && root == t[[]] && PageCount(size) <= TRAPFRAME
    requires var l := Leaves(km.mem, t);
             && Without(l, 0, PageCount(size)).Keys == {TRAMPOLINE, TRAPFRAME}
             && OwnsRange(km.mem, km.FreeSet(), t, l, 0, PageCount(size))
    modifies km
    ensures km.Valid()
    ensures km.FreeSet() == old(km.FreeSet()) + Frames(old(Leaves(km.mem, t)), 0, PageCount(size)) + Pages(t)
    ensures Keeps(old(km.mem), km.mem, km.FreeSet())
  {
    hide Represents, Leaves, Pages, Keeps, Frames, Without, Ppn, KernelMemory.FreeSet, KernelMemory.Valid;
    ghost var m0, l, n, free0 := km.mem, Leaves(km.mem, t), PageCount(size), km.FreeSet();
    WithoutAt(l, 0, n, TRAMPOLINE);
    WithoutAt(l, 0, n, TRAPFRAME);
    WithoutOther(l, n);
    UvmUnmap(km, t, root, TRAMPOLINE, 1, false);
    ghost var m1 := km.mem;
    UvmUnmap(km, t, root, TRAPFRAME, 1, false);
    ghost var m2 := km.mem;
    KeepsVia(m0, m1, m2, Pages(t) + free0, Pages(t) + free0, Pages(t) + free0);
    OwnsKept(m0, m2, free0, t, l, Leaves(m2, t), n);
    UvmFree(km, t, root, size);
    KeepsVia(m0, m2, km.mem, Pages(t) + free0, km.FreeSet(), km.FreeSet());
  }

  lemma WithoutOther(l: map<nat, int>, n: nat)
    requires n <= TRAPFRAME && Without(l, 0, n).Keys == {TRAMPOLINE, TRAPFRAME}
    ensures var l2 := Without(Without(l, TRAMPOLINE, 1), TRAPFRAME, 1);
            && TRAPFRAME in Without(l, TRAMPOLINE, 1)
            && Without(l2, 0, n) == map[] && Frames(l2, 0, n) == Frames(l, 0, n)
            && forall v :: 0 <= v < n ==> (v in l2 <==> v in l) && (v in l ==> l2[v] == l[v])
  {
    var l2 := Without(Without(l, TRAMPOLINE, 1), TRAPFRAME, 1);
    forall v | v in l && n <= v ensures v == TRAMPOLINE || v == TRAPFRAME {
      assert v in Without(l, 0, n).Keys;
    }
    assert TRAPFRAME in Without(l, 0, n).Keys;
    assert forall v :: 0 <= v < n ==> (v in l2 <==> v in l) && (v in l ==> l2[v] == l[v]);
    SameFrames(l, l2, n);
  }

  lemma SameFrames(l: map<nat, int>, l2: map<nat, int>, n: nat)
    requires forall v :: 0 <= v < n ==> (v in l2 <==> v in l) && (v in l ==> l2[v] == l[v])
    ensures Frames(l2, 0, n) == Frames(l, 0, n)
  {
    forall q | q in Frames(l, 0, n) ensures q in Frames(l2, 0, n) {
      var v :| 0 <= v < n && v in l && Ppn(l[v]) == q;
      assert v in l2 && l2[v] == l[v];
    }
    forall q | q in Frames(l2, 0, n) ensures q in Frames(l, 0, n) {
      var v :| 0 <= v < n && v in l2 && Ppn(l2[v]) == q;
      assert v in l && l2[v] == l[v];
    }
  }

  lemma OwnsKept(m0: Memory, m: Memory, free: set<nat>, t: Table, l0: map<nat, int>, l: map<nat, int>, n: nat)
    requires OwnsRange(m0, free, t, l0, 0, n) && m.Keys == m0.Keys
    requires forall v :: 0 <= v < n ==> (v in l <==> v in l0) && (v in l0 ==> l[v] == l0[v])
    ensures OwnsRange(m, free, t, l, 0, n)
  {
  }
}
