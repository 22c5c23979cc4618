/** Sv39 page tables as trees of pages, and the finite map from virtual pages to leaf entries that
    they represent. A table entry is a word: page number, ten flag bits. */
module PageTable {
  import opened PageMemory

  // ---- Entries ----

  const PTE_V: nat := 1
  const PTE_R: nat := 2
  const PTE_W: nat := 4
  const PTE_X: nat := 8
  const PTE_U: nat := 16
  const FLAGS: nat := 1024

  function Ppn(w: int): nat { if w < 0 then 0 else w / FLAGS }

  function Flags(w: int): int { w % FLAGS }

  predicate IsValid(w: int) { w % 2 == 1 }

  /** Some of the R, W and X bits are set: the entry maps a page rather than a lower table. */
  predicate Maps(w: int) { w / 2 % 8 != 0 }

  function MakePte(ppn: nat, flags: nat): int
    requires flags < FLAGS
  {
    ppn * FLAGS + flags
  }

  /** `flags | PTE_V` */
  function WithV(flags: nat): nat {
    if flags % 2 == 1 then flags else flags + 1
  }

  lemma ByFlags(q: nat, r: nat)
    requires r < FLAGS
    ensures (q * 1024 + r) / 1024 == q && (q * 1024 + r) % 1024 == r
  {
  }

  lemma ByTwo(q: nat, r: nat)
    requires r < 2
    ensures (q * 2 + r) / 2 == q && (q * 2 + r) % 2 == r
  {
  }

  lemma ByEight(q: nat, r: nat)
    requires r < 8
    ensures (q * 8 + r) % 8 == r
  {
  }

  /** The low bits of an entry are those of its flags. */
  lemma LowBits(ppn: nat, flags: nat)
    requires flags < FLAGS
    ensures MakePte(ppn, flags) % 2 == flags % 2 && MakePte(ppn, flags) / 2 % 8 == flags / 2 % 8
  {
    var h := flags / 2;
    assert MakePte(ppn, flags) == (ppn * 512 + h) * 2 + flags % 2;
    ByTwo(ppn * 512 + h, flags % 2);
    assert ppn * 512 + h == (ppn * 64 + h / 8) * 8 + h % 8;
    ByEight(ppn * 64 + h / 8, h % 8);
  }

  lemma PteFields(ppn: nat, flags: nat)
    requires flags < FLAGS
    ensures WithV(flags) < FLAGS
    ensures var w := MakePte(ppn, WithV(flags));
            && IsValid(w) && Ppn(w) == ppn && Flags(w) == WithV(flags)
            && (Maps(w) <==> flags / 2 % 8 != 0)
            && (Flags(w) == PTE_V <==> flags <= 1)
  {
    var f := WithV(flags);
    assert f < FLAGS && f % 2 == 1 && f / 2 == flags / 2;
    ByFlags(ppn, f);
    LowBits(ppn, f);
  }

  lemma PointerFields(ppn: nat)
    ensures var w := MakePte(ppn, PTE_V); IsValid(w) && Ppn(w) == ppn && !Maps(w) && w != 0
  {
    PteFields(ppn, PTE_V);
  }

  // ---- Addresses ----

  /** Virtual pages below MAXVA = 2^38. */
  const MAXVPN: nat := 0x400_0000

  /** The 9-bit index of a virtual page at a level. */
  function Px(level: nat, vpn: nat): (i: nat)
    requires level <= 2
    ensures i < WORDS
  {
    if level == 2 then vpn / (WORDS * WORDS) % WORDS
    else if level == 1 then vpn / WORDS % WORDS
    else vpn % WORDS
  }

  /** A path names a table page by the indices followed from the root. */
  type Path = seq<nat>

  function Child(path: Path, i: nat): Path { path + [i] }

  function PathOf(vpn: nat): Path { Child(Child([], Px(2, vpn)), Px(1, vpn)) }

  lemma ChildInjective(p: Path, i: nat, q: Path, j: nat)
    ensures Child(p, i) == Child(q, j) <==> p == q && i == j
  {
    if Child(p, i) == Child(q, j) {
      assert p == Child(p, i)[..|p|] && q == Child(q, j)[..|q|];
    }
  }

  /** Below MAXVA two virtual pages never share an entry. */
  lemma SlotsDistinct(v: nat, w: nat)
    requires v < MAXVPN && w < MAXVPN
    ensures PathOf(v) == PathOf(w) && Px(0, v) == Px(0, w) <==> v == w
  {
    if PathOf(v) == PathOf(w) && Px(0, v) == Px(0, w) {
      ChildInjective(Child([], Px(2, v)), Px(1, v), Child([], Px(2, w)), Px(1, w));
      ChildInjective([], Px(2, v), [], Px(2, w));
      assert v / WORDS / WORDS == v / (WORDS * WORDS) && w / WORDS / WORDS == w / (WORDS * WORDS);
    }
  }

  // ---- The tree ----

  type Memory = map<nat, seq<int>>

  /** The table pages of one address space, by path. */
  type Table = map<Path, nat>

  /** The number of indices in use at a depth: addresses below MAXVA use half of the root table. */
  function Indices(depth: nat): nat { if depth == 0 then WORDS / 2 else WORDS }

  ghost predicate Shape(t: Table) {
    && [] in t
    && (forall p :: p in t ==> |p| <= 2 && forall i :: 0 <= i < |p| ==> p[i] < Indices(i))
    && (forall p, i {:trigger Child(p, i)} :: Child(p, i) in t ==> p in t)
    && (forall p, q :: p in t && q in t && t[p] == t[q] ==> p == q)
  }

  /** The table page at path `p` holds what the tree says: pointers to the pages below it, and at
      the lowest level only entries that map pages. */
  ghost predicate NodeOk(m: Memory, t: Table, p: Path)
    requires p in t
  {
    && t[p] in m && |m[t[p]]| == WORDS
    && (|p| < 2 ==> forall i: nat {:trigger Child(p, i)} :: i < WORDS ==>
          (Child(p, i) in t <==> IsValid(m[t[p]][i]))
          && (Child(p, i) in t ==> m[t[p]][i] == MakePte(t[Child(p, i)], PTE_V)))
    && (|p| == 2 ==> forall i :: 0 <= i < WORDS && IsValid(m[t[p]][i]) ==> Maps(m[t[p]][i]))
  }

  ghost predicate Represents(m: Memory, t: Table) {
    Shape(t) && forall p :: p in t ==> NodeOk(m, t, p)
  }

  ghost function Pages(t: Table): set<nat> { t.Values }

  /** The entry for a virtual page; 0 where the tree has no table for it. */
  ghost function Entry(m: Memory, t: Table, vpn: nat): int
    requires Represents(m, t)
  {
    var p := PathOf(vpn);
    if p in t then assert NodeOk(m, t, p); m[t[p]][Px(0, vpn)] else 0
  }

  /** The finite map the tree stands for. */
  ghost function Leaves(m: Memory, t: Table): (l: map<nat, int>)
    requires Represents(m, t)
  {
    map v: nat | v < MAXVPN && IsValid(Entry(m, t, v)) :: Entry(m, t, v)
  }

  /** A tree depends only on its own pages. */
  lemma TreeFrame(m: Memory, m': Memory, t: Table)
    requires Represents(m, t)
    requires forall q :: q in Pages(t) ==> q in m' && m'[q] == m[q]
    ensures Represents(m', t) && Leaves(m', t) == Leaves(m, t)
  {
    forall p | p in t ensures NodeOk(m', t, p) {
      assert NodeOk(m, t, p) && t[p] in Pages(t);
    }
    forall v: nat ensures Entry(m', t, v) == Entry(m, t, v) {
      var p := PathOf(v);
      if p in t { assert t[p] in Pages(t); }
    }
  }

  lemma LeafWriteTree(m: Memory, t: Table, path: Path, k: nat, w: int)
    requires Represents(m, t) && path in t && |path| == 2 && k < WORDS
    requires IsValid(w) ==> Maps(w)
    ensures var page := t[path];
            page in m && |m[page]| == WORDS && Represents(m[page := m[page][k := w]], t)
  {
    hide Maps, IsValid;
    assert NodeOk(m, t, path);
    forall p | p in t ensures NodeOk(m[t[path] := m[t[path]][k := w]], t, p) {
      assert NodeOk(m, t, p);
      assert p != path ==> t[p] != t[path];
    }
  }

  lemma LeafWriteEntry(m: Memory, t: Table, vpn: nat, w: int, v: nat)
    requires Represents(m, t) && vpn < MAXVPN && PathOf(vpn) in t && v < MAXVPN
    requires IsValid(w) ==> Maps(w)
    ensures var page := t[PathOf(vpn)];
            && page in m && |m[page]| == WORDS
            && var m' := m[page := m[page][Px(0, vpn) := w]];
            Represents(m', t) && Entry(m', t, v) == if v == vpn then w else Entry(m, t, v)
  {
    hide Px, Maps, IsValid;
    LeafWriteTree(m, t, PathOf(vpn), Px(0, vpn), w);
    SlotsDistinct(v, vpn);
    var p := PathOf(v);
    if p in t {
      assert NodeOk(m, t, p);
      assert p != PathOf(vpn) ==> t[p] != t[PathOf(vpn)];
    }
  }

  /** Writing one entry of a lowest-level table changes the map at exactly one virtual page. */
  lemma LeafWrite(m: Memory, t: Table, vpn: nat, w: int)
    requires Represents(m, t) && vpn < MAXVPN && PathOf(vpn) in t
    requires IsValid(w) ==> Maps(w)
    ensures var page := t[PathOf(vpn)];
            && page in m && |m[page]| == WORDS
            && var m' := m[page := m[page][Px(0, vpn) := w]];
            && Represents(m', t)
            && Leaves(m', t) == if IsValid(w) then Leaves(m, t)[vpn := w] else Leaves(m, t) - {vpn}
  {
    hide Px, Maps, IsValid, Represents, Entry, PathOf;
    LeafWriteEntry(m, t, vpn, w, vpn);
    var page := t[PathOf(vpn)];
    var m' := m[page := m[page][Px(0, vpn) := w]];
    forall v: nat | v < MAXVPN ensures Entry(m', t, v) == if v == vpn then w else Entry(m, t, v) {
      LeafWriteEntry(m, t, vpn, w, v);
    }
  }

  /** Hanging a zeroed page below an empty entry changes no mapping. */
  lemma AddTable(m: Memory, t: Table, p: Path, i: nat, page: nat)
    requires Represents(m, t) && p in t && |p| < 2 && i < Indices(|p|) && Child(p, i) !in t
    requires page in m && page !in Pages(t) && m[page] == Filled(0)
    ensures var w := MakePte(page, PTE_V);
            && NodeOk(m, t, p)
            && var m' := m[t[p] := m[t[p]][i := w]];
            var t' := t[Child(p, i) := page];
            && Represents(m', t') && Pages(t') == Pages(t) + {page}
            && Leaves(m', t') == Leaves(m, t)
  {
    hide Px, Maps, IsValid, MakePte;
    assert NodeOk(m, t, p);
    AddTree(m, t, p, i, page);
    var m' := m[t[p] := m[t[p]][i := MakePte(page, PTE_V)]];
    var t' := t[Child(p, i) := page];
    forall v: nat | v < MAXVPN
      ensures IsValid(Entry(m', t', v)) <==> IsValid(Entry(m, t, v))
      ensures IsValid(Entry(m, t, v)) ==> Entry(m', t', v) == Entry(m, t, v)
    {
      AddEntry(m, t, p, i, page, v);
    }
    AddPages(t, Child(p, i), page);
  }

  lemma AddTree(m: Memory, t: Table, p: Path, i: nat, page: nat)
    requires Represents(m, t) && p in t && |p| < 2 && i < Indices(|p|) && Child(p, i) !in t
    requires page in m && page !in Pages(t) && m[page] == Filled(0)
    ensures NodeOk(m, t, p)
    ensures Represents(m[t[p] := m[t[p]][i := MakePte(page, PTE_V)]], t[Child(p, i) := page])
  {
    assert NodeOk(m, t, p);
    AddShape(m, t, p, i, page);
    var t' := t[Child(p, i) := page];
    forall q | q in t' ensures NodeOk(m[t[p] := m[t[p]][i := MakePte(page, PTE_V)]], t', q) {
      AddNode(m, t, p, i, page, q);
    }
  }

  lemma AddEntry(m: Memory, t: Table, p: Path, i: nat, page: nat, v: nat)
    requires Represents(m, t) && p in t && |p| < 2 && i < Indices(|p|) && Child(p, i) !in t
    requires page in m && page !in Pages(t) && m[page] == Filled(0)
    ensures NodeOk(m, t, p)
    ensures var m', t' := m[t[p] := m[t[p]][i := MakePte(page, PTE_V)]], t[Child(p, i) := page];
            && Represents(m', t')
            && (IsValid(Entry(m', t', v)) <==> IsValid(Entry(m, t, v)))
            && (IsValid(Entry(m, t, v)) ==> Entry(m', t', v) == Entry(m, t, v))
  {
    hide Px, Maps, MakePte;
    assert NodeOk(m, t, p);
    AddTree(m, t, p, i, page);
    var q := PathOf(v);
    assert t[p] in Pages(t);
    if q in t && q != Child(p, i) {
      assert |q| == 2;
      assert t[q] != t[p] && t[q] in Pages(t);
    }
  }

  lemma AddPages(t: Table, c: Path, page: nat)
    requires c !in t
    ensures Pages(t[c := page]) == Pages(t) + {page}
  {
    var t' := t[c := page];
    assert t'[c] == page;
    forall q | q in Pages(t) ensures q in Pages(t') {
      var p :| p in t && t[p] == q;
      assert t'[p] == q;
    }
  }

  lemma AddShape(m: Memory, t: Table, p: Path, i: nat, page: nat)
    requires Shape(t) && p in t && |p| < 2 && i < Indices(|p|) && Child(p, i) !in t && page !in Pages(t)
    ensures Shape(t[Child(p, i) := page])
  {
    var c := Child(p, i);
    var t' := t[c := page];
    forall q, j | Child(q, j) in t' ensures q in t' {
      ChildInjective(q, j, p, i);
    }
    forall q, r | q in t' && r in t' && t'[q] == t'[r] ensures q == r {
      assert q != c ==> t[q] in Pages(t);
      assert r != c ==> t[r] in Pages(t);
    }
  }

  lemma AddNode(m: Memory, t: Table, p: Path, i: nat, page: nat, q: Path)
    requires Represents(m, t) && p in t && |p| < 2 && i < Indices(|p|) && Child(p, i) !in t
    requires page in m && page !in Pages(t) && m[page] == Filled(0)
    requires q in t[Child(p, i) := page]
    ensures NodeOk(m, t, p)
    ensures NodeOk(m[t[p] := m[t[p]][i := MakePte(page, PTE_V)]], t[Child(p, i) := page], q)
  {
    assert NodeOk(m, t, p);
    PointerFields(page);
    var c := Child(p, i);
    var t' := t[c := page];
    assert t[p] in Pages(t);
    if q == c {
      forall j: nat | j < WORDS ensures Child(q, j) !in t' {
        ChildInjective(q, j, p, i);
        assert |Child(q, j)| == |c| + 1;
      }
    } else {
      assert NodeOk(m, t, q) && t[q] in Pages(t);
      forall j: nat | j < WORDS ensures Child(q, j) == c <==> q == p && j == i {
        ChildInjective(q, j, p, i);
      }
    }
  }
}
