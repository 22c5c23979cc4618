/** Operations on page tables: the tree walk, mapping and unmapping ranges, growing, shrinking,
    copying and tearing down an address space. Aligned addresses are given as page numbers. */
module PageOps {
  import PageMemory
  import opened PageTable

  /** `t` is the tree of an address space whose pages are all allocated. */
  ghost predicate Space(km: PageMemory.KernelMemory, t: Table)
    reads km
  {
    km.Valid() && Represents(km.mem, t) && Pages(t) !! km.FreeSet()
  }

  /** `t'` extends `t` with pages taken from the free list. */
  ghost predicate Grown(t: Table, t': Table) {
    forall p :: p in t ==> p in t' && t'[p] == t[p]
  }

  lemma GrownSelf(t: Table)
    ensures Grown(t, t)
  {
  }

  lemma GrownTrans(t0: Table, t1: Table, t2: Table)
    requires Grown(t0, t1) && Grown(t1, t2)
    ensures Grown(t0, t2) && Pages(t1) <= Pages(t2)
    ensures [] in t0 ==> [] in t2 && t2[[]] == t0[[]]
  {
    GrownPages(t1, t2);
  }

  lemma GrownPages(t: Table, t': Table)
    requires Grown(t, t')
    ensures Pages(t) <= Pages(t')
  {
    forall q | q in Pages(t) ensures q in Pages(t') {
      var p :| p in t && t[p] == q;
      assert t'[p] == q;
    }
  }

  lemma RootIn(m: Memory, t: Table)
    requires Represents(m, t)
    ensures [] in t
  {
  }

  lemma NodePage(m: Memory, t: Table, p: Path)
    requires Represents(m, t) && p in t
    ensures NodeOk(m, t, p) && t[p] in Pages(t) && t[p] in m && |m[t[p]]| == PageMemory.WORDS
  {
    assert NodeOk(m, t, p);
  }

  /** Same pages, and the contents changed only in the pages of `touched`. */
  ghost predicate Keeps(m: Memory, m': Memory, touched: set<nat>) {
    m'.Keys == m.Keys && forall q :: q in m && q !in touched ==> m'[q] == m[q]
  }

  lemma KeepsTrans(m0: Memory, m1: Memory, m2: Memory, s: set<nat>, touched: set<nat>)
    requires Keeps(m0, m1, s) && Keeps(m1, m2, touched) && s <= touched
    ensures Keeps(m0, m2, touched)
  {
  }

  lemma KeepsVia(m0: Memory, m1: Memory, m2: Memory, s0: set<nat>, s1: set<nat>, touched: set<nat>)
    requires Keeps(m0, m1, s0) && Keeps(m1, m2, s1) && (m0 == m1 || s0 <= touched) && s1 <= touched
    ensures Keeps(m0, m2, touched)
  {
  }

  lemma KeepsAt(m: Memory, m': Memory, touched: set<nat>, q: nat)
    requires Keeps(m, m', touched) && q in m && q !in touched
    ensures q in m' && m'[q] == m[q]
  {
  }

  lemma KeepsKeys(m: Memory, m': Memory, touched: set<nat>)
    requires Keeps(m, m', touched)
    ensures m'.Keys == m.Keys
  {
  }

  lemma KeepsSelf(m: Memory, touched: set<nat>)
    ensures Keeps(m, m, touched)
  {
  }

  // ---- walk ----

  lemma TreeKept(m0: Memory, m1: Memory, t: Table)
    requires Represents(m0, t) && forall q :: q in Pages(t) && q in m0 ==> q in m1 && m1[q] == m0[q]
    ensures Represents(m1, t) && Leaves(m1, t) == Leaves(m0, t)
  {
    forall q | q in Pages(t) ensures q in m0 {
      var p :| p in t && t[p] == q;
      NodePage(m0, t, p);
    }
    TreeFrame(m0, m1, t);
  }

  lemma EntryBelow(m: Memory, t: Table, p: Path, i: nat)
    requires Represents(m, t) && p in t && |p| < 2 && i < PageMemory.WORDS
    ensures t[p] in m && |m[t[p]]| == PageMemory.WORDS
    ensures IsValid(m[t[p]][i]) <==> Child(p, i) in t
    ensures Child(p, i) in t ==> Ppn(m[t[p]][i]) == t[Child(p, i)]
  {
    NodePage(m, t, p);
    if Child(p, i) in t {
      PointerFields(t[Child(p, i)]);
    }
  }

  lemma PxInUse(level: nat, vpn: nat)
    requires level <= 2 && vpn < MAXVPN
    ensures Px(level, vpn) < Indices(2 - level)
  {
  }

  // ---- How many pages a walk takes ----

  /** The tables that must be there for a virtual page, besides the root. */
  function TablesFor(vpn: nat): set<Path> {
    {Child([], Px(2, vpn)), PathOf(vpn)}
  }

  /** How many tables a tree with tables at `keys` lacks for a virtual page. */
  function Needed(keys: set<Path>, vpn: nat): nat {
    (if Child([], Px(2, vpn)) in keys then 0 else 1) + (if PathOf(vpn) in keys then 0 else 1)
  }

  /** The tables that must be there for a range. */
  ghost function Tables(vpn: nat, n: nat): set<Path>
    decreases n
  {
    if n == 0 then {} else Tables(vpn, n - 1) + TablesFor(vpn + n - 1)
  }

  lemma NeededIs(keys: set<Path>, vpn: nat)
    ensures |TablesFor(vpn) - keys| == Needed(keys, vpn)
  {
    var a, b := Child([], Px(2, vpn)), PathOf(vpn);
    assert |a| == 1 && |b| == 2;
    assert TablesFor(vpn) - keys == (if a in keys then {} else {a}) + (if b in keys then {} else {b});
  }

  /** A range takes the tables its first pages take, and those the next one then still lacks. */
  lemma TablesStep(keys: set<Path>, vpn: nat, n: nat)
    ensures Tables(vpn, n + 1) == Tables(vpn, n) + TablesFor(vpn + n)
    ensures |Tables(vpn, n + 1) - keys| == |Tables(vpn, n) - keys| + Needed(keys + Tables(vpn, n), vpn + n)
  {
    hide TablesFor, Needed;
    var first, next := Tables(vpn, n) - keys, TablesFor(vpn + n) - (keys + Tables(vpn, n));
    NeededIs(keys + Tables(vpn, n), vpn + n);
    assert Tables(vpn, n + 1) - keys == first + next;
  }

  lemma {:induction false} TablesGrow(keys: set<Path>, vpn: nat, k: nat, n: nat)
    requires k <= n
    ensures |Tables(vpn, k) - keys| <= |Tables(vpn, n) - keys|
    decreases n
  {
    hide Tables, Needed;
    if k < n {
      TablesGrow(keys, vpn, k, n - 1);
      TablesStep(keys, vpn, n - 1);
    }
  }

  lemma TablesNone(keys: set<Path>, vpn: nat)
    ensures keys + Tables(vpn, 0) == keys && |Tables(vpn, 0) - keys| == 0
  {
    assert Tables(vpn, 0) - keys == {};
  }

  lemma KeysStep(keys: set<Path>, vpn: nat, n: nat)
    ensures keys + Tables(vpn, n) + TablesFor(vpn + n) == keys + Tables(vpn, n + 1)
  {
  }

  /** Of `f0` free pages, `f` are left after the first `k` pages of a range have been mapped: the tables
      they lacked have been created, and `extra` pages have gone elsewhere. */
  ghost predicate Counted(keys: set<Path>, f0: nat, vpn: nat, k: nat, extra: nat, keys': set<Path>, f: nat) {
    keys' == keys + Tables(vpn, k) && f + extra + |Tables(vpn, k) - keys| == f0
  }

  lemma CountedStarts(keys: set<Path>, f0: nat, vpn: nat)
    ensures Counted(keys, f0, vpn, 0, 0, keys, f0)
  {
    TablesNone(keys, vpn);
  }

  /** The next page, which takes `more` pages besides its tables, is mapped, or there are too few pages. */
  lemma CountedNext(keys: set<Path>, f0: nat, vpn: nat, k: nat, n: nat, extra: nat, more: nat,
                    keys1: set<Path>, f1: nat, ok: bool, keys2: set<Path>, f2: nat)
    requires Counted(keys, f0, vpn, k, extra, keys1, f1) && k < n
    requires ok <==> more + Needed(keys1, vpn + k) <= f1
    requires ok ==> keys2 == keys1 + TablesFor(vpn + k) && f2 == f1 - more - Needed(keys1, vpn + k)
    ensures ok ==> Counted(keys, f0, vpn, k + 1, extra + more, keys2, f2)
    ensures !ok ==> f0 < extra + more + |Tables(vpn, n) - keys|
  {
    hide Needed, Tables, TablesFor;
    TablesStep(keys, vpn, k);
    TablesGrow(keys, vpn, k + 1, n);
    KeysStep(keys, vpn, k);
  }

  lemma CountedEnds(keys: set<Path>, f0: nat, vpn: nat, n: nat, extra: nat, keys': set<Path>, f: nat)
    requires Counted(keys, f0, vpn, n, extra, keys', f)
    ensures keys' == keys + Tables(vpn, n) && f == f0 - extra - |Tables(vpn, n) - keys|
  {
  }

  /** One level of the walk: follow the entry `i` of the table at path `p`, or create a zeroed
      table there if asked to and if a page is left. */
  method WalkDown(km: PageMemory.KernelMemory, ghost t: Table, ghost p: Path, page: nat, i: nat, alloc: bool)
    returns (ok: bool, next: nat, ghost t': Table)
    requires Space(km, t) && p in t && |p| < 2 && page == t[p] && i < Indices(|p|)
    modifies km
    ensures Space(km, t') && Grown(t, t') && Leaves(km.mem, t') == old(Leaves(km.mem, t))
    ensures Pages(t') + km.FreeSet() == Pages(t) + old(km.FreeSet())
    ensures Keeps(old(km.mem), km.mem, Pages(t'))
    ensures !alloc ==> t' == t && km.mem == old(km.mem) && km.free == old(km.free)
    ensures ok <==> Child(p, i) in t'
    ensures ok ==> next == t'[Child(p, i)]
    ensures !ok ==> t' == t && (alloc ==> km.free == [])
    ensures t'.Keys == if ok then t.Keys + {Child(p, i)} else t.Keys
    ensures |km.free| == |old(km.free)| - if ok && Child(p, i) !in t then 1 else 0
  {
    hide Represents, Leaves, NodeOk, MakePte, IsValid, Ppn, Maps, Px, PathOf, Entry;
    t' := t;
    NodePage(km.mem, t, p);
    EntryBelow(km.mem, t, p, i);
    var pte := km.mem[page][i];
    if IsValid(pte) {
      ok, next := true, Ppn(pte);
      return;
    }
    if !alloc {
      ok, next := false, 0;
      return;
    }
    next := km.Kalloc();
    if next == 0 {
      ok := false;
      return;
    }
    km.Zero(next);
    ghost var m := km.mem;
    TreeKept(old(km.mem), m, t);
    AddTable(m, t, p, i, next);
    assert m[page] == old(km.mem)[page];
    StorePte(km, page, i, MakePte(next, PTE_V));
    t' := t[Child(p, i) := next];
    ok := true;
  }

  method StorePte(km: PageMemory.KernelMemory, page: nat, i: nat, w: int)
    requires km.Valid() && page in km.mem && page !in km.free && i < PageMemory.WORDS
    modifies km`mem
    ensures km.Valid() && km.mem == old(km.mem)[page := old(km.mem)[page][i := w]]
  {
    km.mem := km.mem[page := km.mem[page][i := w]];
  }

  /** Find the lowest-level table for a virtual page, creating tables on the way if asked to. */
  method Walk(km: PageMemory.KernelMemory, root: nat, ghost t: Table, vpn: nat, alloc: bool)
    returns (ok: bool, page: nat, ghost t': Table)
    requires Space(km, t) && root == t[[]] && vpn < MAXVPN
    modifies km
    ensures Space(km, t') && Grown(t, t') && Leaves(km.mem, t') == old(Leaves(km.mem, t))
    ensures Pages(t') + km.FreeSet() == Pages(t) + old(km.FreeSet())
    ensures Keeps(old(km.mem), km.mem, Pages(t'))
    ensures !alloc ==> t' == t && km.mem == old(km.mem) && km.free == old(km.free)
    ensures ok <==> PathOf(vpn) in t'
    ensures ok ==> page == t'[PathOf(vpn)] && page in km.mem && |km.mem[page]| == PageMemory.WORDS
    ensures !ok && alloc ==> km.free == []
    ensures alloc ==> (ok <==> Needed(t.Keys, vpn) <= |old(km.free)|)
    ensures ok ==> t'.Keys == t.Keys + TablesFor(vpn) && |km.free| == |old(km.free)| - if alloc then Needed(t.Keys, vpn) else 0
  {
    hide Represents, Leaves, Px, Indices, PageMemory.KernelMemory.Valid;
    if Child([], Px(2, vpn)) !in t {
      PathBelow(km.mem, t, vpn);
    }
    RootIn(km.mem, t);
    GrownSelf(t);
    KeepsSelf(km.mem, Pages(t));
    t', page, ok := t, root, true;
    ghost var path: Path := [];
    var level := 2;
    while level > 0
      invariant 0 <= level <= 2
      invariant path == if level == 2 then [] else if level == 1 then Child([], Px(2, vpn)) else PathOf(vpn)
      invariant Space(km, t') && Grown(t, t') && Leaves(km.mem, t') == old(Leaves(km.mem, t))
      invariant Pages(t') + km.FreeSet() == Pages(t) + old(km.FreeSet())
      invariant Keeps(old(km.mem), km.mem, Pages(t'))
      invariant !alloc ==> t' == t && km.mem == old(km.mem) && km.free == old(km.free)
      invariant path in t' && page == t'[path]
      invariant t'.Keys == if level == 2 then t.Keys else if level == 1 then t.Keys + {Child([], Px(2, vpn))} else t.Keys + TablesFor(vpn)
      invariant |km.free| == |old(km.free)| - Spent(t.Keys, vpn, level)
    {
      ghost var t1 := t';
      PxInUse(level, vpn);
      ok, page, t' := WalkDown(km, t', path, page, Px(level, vpn), alloc);
      GrownPages(t1, t');
      path := Child(path, Px(level, vpn));
      level := level - 1;
      if !ok {
        if level > 0 {
          PathBelow(km.mem, t', vpn);
        }
        return;
      }
    }
    NodePage(km.mem, t', path);
  }

  /** The tables created on the way down to a level. */
  function Spent(keys: set<Path>, vpn: nat, level: int): nat {
    if level == 2 then 0
    else if level == 1 then (if Child([], Px(2, vpn)) in keys then 0 else 1)
    else Needed(keys, vpn)
  }

  lemma PathBelow(m: Memory, t: Table, vpn: nat)
    requires Represents(m, t) && Child([], Px(2, vpn)) !in t
    ensures PathOf(vpn) !in t
  {
  }

  // ---- Mapping and unmapping a range ----

  function PteFor(vpn: nat, ppn: nat, perm: nat, v: nat): int
    requires vpn <= v && WithV(perm) < FLAGS
  {
    MakePte(ppn + (v - vpn), WithV(perm))
  }

  lemma PteForAt(vpn: nat, ppn: nat, perm: nat, v: nat, p: nat)
    requires vpn <= v && WithV(perm) < FLAGS && p == ppn + (v - vpn)
    ensures PteFor(vpn, ppn, perm, v) == MakePte(p, WithV(perm))
  {
  }

  /** `l` with `n` consecutive pages from `vpn` mapped to consecutive pages from `ppn`. */
  ghost function MapRange(l: map<nat, int>, vpn: nat, n: nat, ppn: nat, perm: nat): (r: map<nat, int>)
    requires WithV(perm) < FLAGS
  {
    l + map v: nat | vpn <= v < vpn + n :: PteFor(vpn, ppn, perm, v)
  }

  lemma MapRangeStep(l: map<nat, int>, vpn: nat, n: nat, ppn: nat, perm: nat)
    requires WithV(perm) < FLAGS
    ensures MapRange(l, vpn, 0, ppn, perm) == l
    ensures MapRange(l, vpn, n + 1, ppn, perm) == MapRange(l, vpn, n, ppn, perm)[vpn + n := PteFor(vpn, ppn, perm, vpn + n)]
  {
  }

  ghost predicate Unmapped(l: map<nat, int>, vpn: nat, n: nat) {
    forall v :: vpn <= v < vpn + n ==> v !in l
  }

  /** Store the lowest-level entry of a virtual page. */
  method WriteLeaf(km: PageMemory.KernelMemory, ghost t: Table, page: nat, a: nat, w: int)
    requires Space(km, t) && a < MAXVPN && PathOf(a) in t && page == t[PathOf(a)]
    requires IsValid(w) ==> Maps(w)
    modifies km`mem
    ensures Space(km, t) && Keeps(old(km.mem), km.mem, Pages(t))
    ensures Leaves(km.mem, t)
            == if IsValid(w) then old(Leaves(km.mem, t))[a := w] else Without(old(Leaves(km.mem, t)), a, 1)
  {
    hide Represents, Leaves, Entry, PathOf, Child, IsValid, Maps, Px, Without;
    NodePage(km.mem, t, PathOf(a));
    LeafWrite(km.mem, t, a, w);
    WithoutOne(Leaves(km.mem, t), a);
    StorePte(km, page, Px(0, a), w);
  }

  lemma WithoutOne(l: map<nat, int>, a: nat)
    ensures Without(l, a, 1) == l - {a}
  {
  }

  /** One turn of the mapping loop. */
  method MapOne(km: PageMemory.KernelMemory, ghost t: Table, root: nat, a: nat, pa: nat, perm: nat)
    returns (ok: bool, ghost t': Table)
    requires Space(km, t) && root == t[[]] && a < MAXVPN && perm < FLAGS && perm / 2 % 8 != 0
    requires a !in Leaves(km.mem, t)
    modifies km
    ensures Space(km, t') && Grown(t, t')
    ensures Pages(t') + km.FreeSet() == Pages(t) + old(km.FreeSet())
    ensures Keeps(old(km.mem), km.mem, Pages(t'))
    ensures WithV(perm) < FLAGS
    ensures ok ==> Leaves(km.mem, t') == old(Leaves(km.mem, t))[a := MakePte(pa, WithV(perm))]
    ensures !ok ==> Leaves(km.mem, t') == old(Leaves(km.mem, t)) && km.free == []
    ensures ok <==> Needed(t.Keys, a) <= |old(km.free)|
    ensures ok ==> t'.Keys == t.Keys + TablesFor(a) && |km.free| == |old(km.free)| - Needed(t.Keys, a)
  {
    hide Needed, TablesFor, Maps, IsValid, WithV, MakePte, Px, PathOf, Child, Entry, Represents, Leaves, Without, Pages;
    PteFields(pa, perm);
    var page;
    ok, page, t' := Walk(km, root, t, a, true);
    if ok {
      WriteLeaf(km, t', page, a, MakePte(pa, WithV(perm)));
    }
  }

  /** The state of the mapping loop: of tree `t0` in memory `m0` with free pages `free0`, the
      first `done` pages of the range have been mapped, and the tree has become `t`. */
  ghost predicate Mapping(km: PageMemory.KernelMemory, m0: Memory, free0: set<nat>, t0: Table,
                          vpn: nat, ppn: nat, perm: nat, done: nat, t: Table)
    requires Represents(m0, t0) && WithV(perm) < FLAGS
    reads km
  {
    && Space(km, t) && Grown(t0, t)
    && Pages(t) + km.FreeSet() == Pages(t0) + free0
    && Keeps(m0, km.mem, Pages(t))
    && Leaves(km.mem, t) == MapRange(Leaves(m0, t0), vpn, done, ppn, perm)
  }

  lemma MappingStarts(km: PageMemory.KernelMemory, t: Table, vpn: nat, ppn: nat, perm: nat)
    requires Space(km, t) && WithV(perm) < FLAGS
    ensures Mapping(km, km.mem, km.FreeSet(), t, vpn, ppn, perm, 0, t)
  {
    MapRangeStep(Leaves(km.mem, t), vpn, 0, ppn, perm);
  }

  /** One turn of the mapping loop. */
  method MapNext(km: PageMemory.KernelMemory, ghost m0: Memory, ghost free0: set<nat>, ghost t0: Table, ghost t: Table,
                 root: nat, a: nat, pa: nat, perm: nat, ghost vpn: nat, ghost ppn: nat, ghost n: nat, ghost f0: nat)
    returns (ok: bool, ghost t': Table)
    requires perm < FLAGS && perm / 2 % 8 != 0 && WithV(perm) < FLAGS
    requires Represents(m0, t0) && root == t0[[]] && Unmapped(Leaves(m0, t0), vpn, n)
    requires vpn <= a < vpn + n <= MAXVPN && pa == ppn + (a - vpn)
    requires Mapping(km, m0, free0, t0, vpn, ppn, perm, a - vpn, t)
    requires Counted(t0.Keys, f0, vpn, a - vpn, 0, t.Keys, |km.free|)
    modifies km
    ensures Mapping(km, m0, free0, t0, vpn, ppn, perm, if ok then a - vpn + 1 else a - vpn, t')
    ensures ok ==> Counted(t0.Keys, f0, vpn, a - vpn + 1, 0, t'.Keys, |km.free|)
    ensures !ok ==> km.free == [] && f0 < |Tables(vpn, n) - t0.Keys|
  {
    hide Needed, TablesFor, Tables, Counted, Represents, Leaves, MapRange, Pages, Keeps, Grown, Unmapped, PteFor,
      MakePte, WithV, PageMemory.KernelMemory.FreeSet;
    NotYetMapped(Leaves(m0, t0), vpn, n, a - vpn, ppn, perm);
    RootIn(m0, t0);
    GrownSelf(t0);
    GrownTrans(t0, t0, t);
    ghost var m1, f1 := km.mem, |km.free|;
    ok, t' := MapOne(km, t, root, a, pa, perm);
    CountedNext(t0.Keys, f0, vpn, a - vpn, n, 0, 0, t.Keys, f1, ok, t'.Keys, |km.free|);
    GrownTrans(t0, t, t');
    KeepsTrans(m0, m1, km.mem, Pages(t), Pages(t'));
    MapRangeStep(Leaves(m0, t0), vpn, a - vpn, ppn, perm);
    PteForAt(vpn, ppn, perm, a, pa);
  }

  /** Map `n` pages. It succeeds exactly when there are pages for the tables that the range lacks. If there are
      not, the first `mapped` pages stay mapped. */
  method MapPages(km: PageMemory.KernelMemory, ghost t: Table, root: nat, vpn: nat, n: nat, ppn: nat, perm: nat)
    returns (ok: bool, ghost mapped: nat, ghost t': Table)
    requires Space(km, t) && root == t[[]]
    requires n > 0 && vpn + n <= MAXVPN && perm < FLAGS && perm / 2 % 8 != 0
    requires Unmapped(Leaves(km.mem, t), vpn, n)
    modifies km
    ensures WithV(perm) < FLAGS
    ensures Mapping(km, old(km.mem), old(km.FreeSet()), t, vpn, ppn, perm, mapped, t')
    ensures if ok then mapped == n else mapped < n && km.free == []
    ensures ok <==> |Tables(vpn, n) - t.Keys| <= |old(km.free)|
    ensures ok ==> t'.Keys == t.Keys + Tables(vpn, n) && |km.free| == |old(km.free)| - |Tables(vpn, n) - t.Keys|
  {
    hide Tables, TablesFor, Needed, Counted, Mapping, Unmapped, Pages, Keeps, Grown, MapRange, MakePte, WithV,
      Represents, Leaves, PageMemory.KernelMemory.FreeSet, PageMemory.KernelMemory.Valid;
    PteFields(0, perm);
    t', ok, mapped := t, true, 0;
    ghost var m0, free0 := km.mem, km.FreeSet();
    MappingStarts(km, t, vpn, ppn, perm);
    ghost var f0 := |km.free|;
    CountedStarts(t.Keys, f0, vpn);
    var a, pa := vpn, ppn;
    var last := vpn + n - 1;
    while true
      invariant vpn <= a <= last && pa == ppn + (a - vpn) && mapped == a - vpn
      invariant Mapping(km, m0, free0, t, vpn, ppn, perm, mapped, t')
      invariant Counted(t.Keys, f0, vpn, mapped, 0, t'.Keys, |km.free|)
      decreases last - a
    {
      ok, t' := MapNext(km, m0, free0, t, t', root, a, pa, perm, vpn, ppn, n, f0);
      if !ok {
        return;
      }
      mapped := mapped + 1;
      if a == last {
        break;
      }
      a := a + 1;
      pa := pa + 1;
    }
    CountedEnds(t.Keys, f0, vpn, n, 0, t'.Keys, |km.free|);
  }

  lemma NotYetMapped(l: map<nat, int>, vpn: nat, count: nat, n: nat, ppn: nat, perm: nat)
    requires WithV(perm) < FLAGS && Unmapped(l, vpn, count) && n < count
    ensures vpn + n !in MapRange(l, vpn, n, ppn, perm)
  {
  }

  /** The physical pages mapped in a range. */
  ghost function Frames(l: map<nat, int>, vpn: nat, n: nat): (f: set<nat>) {
    set v | vpn <= v < vpn + n && v in l :: Ppn(l[v])
  }

  ghost function Without(l: map<nat, int>, vpn: nat, n: nat): (r: map<nat, int>) {
    map v | v in l && !(vpn <= v < vpn + n) :: l[v]
  }

  /** Every page of the range is mapped, to allocated pages that are all different and none of
      which is part of the tree. */
  ghost predicate OwnsRange(m: Memory, free: set<nat>, t: Table, l: map<nat, int>, vpn: nat, n: nat) {
    && DistinctFrames(l, vpn, n)
    && (forall v :: vpn <= v < vpn + n ==> Ppn(l[v]) in m && Ppn(l[v]) !in free && Ppn(l[v]) !in Pages(t))
  }

  /** All of the range is mapped, no two pages of it to the same physical page. */
  ghost predicate DistinctFrames(l: map<nat, int>, vpn: nat, n: nat) {
    && (forall v :: vpn <= v < vpn + n ==> v in l)
    && (forall v, w :: vpn <= v < w < vpn + n ==> Ppn(l[v]) != Ppn(l[w]))
  }

  lemma FrameNotYetFreed(l: map<nat, int>, vpn: nat, n: nat, done: nat)
    requires DistinctFrames(l, vpn, n) && done < n
    ensures Ppn(l[vpn + done]) !in Frames(l, vpn, done)
  {
  }

  /** A mapped page has a lowest-level table, and its entry there is valid. */
  lemma LeafAt(m: Memory, t: Table, a: nat)
    requires Represents(m, t) && a in Leaves(m, t)
    ensures PathOf(a) in t && t[PathOf(a)] in m && |m[t[PathOf(a)]]| == PageMemory.WORDS
    ensures m[t[PathOf(a)]][Px(0, a)] == Leaves(m, t)[a] && IsValid(Leaves(m, t)[a]) && a < MAXVPN
  {
    NodePage(m, t, PathOf(a));
  }

  lemma LeafMaps(m: Memory, t: Table, a: nat)
    requires Represents(m, t) && a in Leaves(m, t)
    ensures IsValid(Leaves(m, t)[a]) && Maps(Leaves(m, t)[a])
  {
    LeafAt(m, t, a);
    NodePage(m, t, PathOf(a));
  }

  lemma NotAPointer(w: int)
    ensures Maps(w) ==> Flags(w) != PTE_V
    ensures !IsValid(0)
  {
    if Flags(w) == PTE_V {
      assert w == w / 1024 * 1024 + 1;
      assert w / 2 == w / 1024 * 512;
      assert w / 2 == w / 1024 * 64 * 8;
    }
  }

  /** One turn of the unmapping loop. The source's three panics (no table, an invalid entry, an entry
      that is not a leaf) cannot occur. */
  method UnmapOne(km: PageMemory.KernelMemory, ghost t: Table, root: nat, a: nat, doFree: bool)
    requires Space(km, t) && root == t[[]] && a < MAXVPN && a in Leaves(km.mem, t)
    requires doFree ==> var p := Ppn(Leaves(km.mem, t)[a]); p in km.mem && p !in km.FreeSet() && p !in Pages(t)
    modifies km
    ensures Space(km, t)
    ensures Leaves(km.mem, t) == Without(old(Leaves(km.mem, t)), a, 1)
    ensures km.FreeSet() == old(km.FreeSet()) + (if doFree then {Ppn(old(Leaves(km.mem, t))[a])} else {})
    ensures Keeps(old(km.mem), km.mem, Pages(t) + km.FreeSet())
  {
    hide Maps, IsValid, Flags, Px, PathOf, Child, Entry, MakePte, Represents, Leaves, Ppn, Without, Pages, Keeps, Grown,
      PageMemory.KernelMemory.FreeSet, PageMemory.KernelMemory.Valid;
    LeafAt(km.mem, t, a);
    LeafMaps(km.mem, t, a);
    ghost var m0, free0 := km.mem, km.FreeSet();
    var ok, page, _ := Walk(km, root, t, a, false);
    var pte := km.mem[page][Px(0, a)];
    NotAPointer(pte);
    if !ok || !IsValid(pte) || Flags(pte) == PTE_V {
      assert false;
    }
    if doFree {
      FreeFrame(km, t, Ppn(pte));
    }
    ghost var m1 := km.mem;
    WriteLeaf(km, t, page, a, 0);
    KeepsSelf(m0, {Ppn(pte)});
    KeepsVia(m0, m1, km.mem, {Ppn(pte)}, Pages(t), Pages(t) + km.FreeSet());
  }

  /** Remove the mappings of a range and, if asked to, free the pages they map. */
  method UvmUnmap(km: PageMemory.KernelMemory, ghost t: Table, root: nat, vpn: nat, n: nat, doFree: bool)
    requires Space(km, t) && root == t[[]] && vpn + n <= MAXVPN
    requires forall v :: vpn <= v < vpn + n ==> v in Leaves(km.mem, t)
    requires doFree ==> OwnsRange(km.mem, km.FreeSet(), t, Leaves(km.mem, t), vpn, n)
    modifies km
    ensures Space(km, t)
    ensures Leaves(km.mem, t) == Without(old(Leaves(km.mem, t)), vpn, n)
    ensures km.FreeSet() == old(km.FreeSet()) + (if doFree then old(Frames(Leaves(km.mem, t), vpn, n)) else {})
    ensures Keeps(old(km.mem), km.mem, Pages(t) + km.FreeSet())
  {
    hide Represents, Leaves, Entry, PathOf, Ppn, Pages, Keeps, Without, Frames, PageMemory.KernelMemory.Valid,
      PageMemory.KernelMemory.FreeSet;
    ghost var l0 := Leaves(km.mem, t);
    WithoutNone(l0, vpn);
    KeepsSelf(km.mem, Pages(t) + km.FreeSet());
    var a := vpn;
    while a < vpn + n
      invariant vpn <= a <= vpn + n
      invariant Space(km, t)
      invariant Leaves(km.mem, t) == Without(l0, vpn, a - vpn)
      invariant km.FreeSet() == old(km.FreeSet()) + (if doFree then Frames(l0, vpn, a - vpn) else {})
      invariant Keeps(old(km.mem), km.mem, Pages(t) + km.FreeSet())
    {
      WithoutAt(l0, vpn, a - vpn, a);
      KeepsKeys(old(km.mem), km.mem, Pages(t) + km.FreeSet());
      if doFree {
        FrameNotYetFreed(l0, vpn, n, a - vpn);
      }
      ghost var m1, free1 := km.mem, km.FreeSet();
      UnmapOne(km, t, root, a, doFree);
      KeepsTrans(old(km.mem), m1, km.mem, Pages(t) + free1, Pages(t) + km.FreeSet());
      FramesStep(l0, vpn, a - vpn);
      a := a + 1;
    }
  }

  lemma WithoutNone(l: map<nat, int>, vpn: nat)
    ensures Without(l, vpn, 0) == l && Frames(l, vpn, 0) == {}
  {
  }

  lemma WithoutAt(l: map<nat, int>, vpn: nat, n: nat, a: nat)
    ensures a in Without(l, vpn, n) <==> a in l && !(vpn <= a < vpn + n)
    ensures a in Without(l, vpn, n) ==> Without(l, vpn, n)[a] == l[a]
  {
  }

  lemma FramesStep(l: map<nat, int>, vpn: nat, n: nat)
    requires vpn + n in l
    ensures Frames(l, vpn, n + 1) == Frames(l, vpn, n) + {Ppn(l[vpn + n])}
    ensures Without(Without(l, vpn, n), vpn + n, 1) == Without(l, vpn, n + 1)
  {
  }

  method FreeFrame(km: PageMemory.KernelMemory, ghost t: Table, p: nat)
    requires Space(km, t) && p in km.mem && p !in km.FreeSet() && p !in Pages(t)
    modifies km
    ensures Space(km, t) && Leaves(km.mem, t) == old(Leaves(km.mem, t))
    ensures km.FreeSet() == old(km.FreeSet()) + {p}
    ensures Keeps(old(km.mem), km.mem, {p})
  {
    km.Kfree(p);
    forall q | q in Pages(t) ensures q in km.mem && km.mem[q] == old(km.mem[q]) {
      var path :| path in t && t[path] == q;
      assert NodeOk(old(km.mem), t, path);
    }
    TreeFrame(old(km.mem), km.mem, t);
  }
}
