/** What the paging hardware makes of the tables: the Sv39 address translation of the RISC-V privileged
    architecture (sections 4.3.2 and 4.4 of version 1.10), on bytes and bits, and what the operations on address
    spaces mean for the addresses a program uses. */
module PageHardware {
  import opened PageMemory
  import opened PageTable
  import opened PageOps
  import opened PageSpaces

  /** A virtual address leads to a byte of physical memory, with permissions, or to a page fault. */
  datatype Translation = Fault | To(pa: nat, r: bool, w: bool, x: bool, u: bool)

  /** Bit `k` of a table entry, for the bits V, R, W, X and U. */
  predicate Bit(pte: nat, k: nat)
    requires k < 5
  {
    pte / [1, 2, 4, 8, 16][k] % 2 == 1
  }

  /** The nine bits of a virtual address that index the table at a level. */
  function Index(va: nat, level: nat): (i: nat)
    requires level < 3
    ensures i < 512
  {
    va / [0x1000, 0x20_0000, 0x4000_0000][level] % 512
  }

  /** The table walk from the page `table` on, `level` levels above the last. An entry that is not valid, or
      writable and not readable, faults; one that is readable or executable is a leaf, and must be aligned
      to the size of the page it maps; any other one points to the next table. */
  function Walked(m: Memory, table: nat, va: nat, level: nat): Translation
    requires level < 3
    decreases level
  {
    if table !in m || |m[table]| != 512 || m[table][Index(va, level)] < 0 then Fault
    else
      var pte: nat := m[table][Index(va, level)];
      if !Bit(pte, 0) || (!Bit(pte, 1) && Bit(pte, 2)) then Fault
      else if Bit(pte, 1) || Bit(pte, 3) then
        var size := [0x1000, 0x20_0000, 0x4000_0000][level];
        if pte / 1024 * 4096 % size != 0 then Fault
        else To(pte / 1024 * 4096 + va % size, Bit(pte, 1), Bit(pte, 2), Bit(pte, 3), Bit(pte, 4))
      else if level == 0 then Fault
      else Walked(m, pte / 1024, va, level - 1)
  }

  function Translate(m: Memory, root: nat, va: nat): Translation {
    Walked(m, root, va, 2)
  }

  // ---- The tree and the walk ----

  /** What a lowest-level entry makes of an address. */
  function LeafTo(w: int, va: nat): Translation {
    if w < 0 || (!Bit(w, 1) && Bit(w, 2)) then Fault
    else To(w / 1024 * 4096 + va % 4096, Bit(w, 1), Bit(w, 2), Bit(w, 3), Bit(w, 4))
  }

  /** The bits of an entry. */
  lemma EntryBits(ppn: nat, flags: nat)
    requires flags < 1024
    ensures WithV(flags) < 1024
    ensures var w: nat := MakePte(ppn, WithV(flags));
            w / 1024 == ppn && Bit(w, 0) && forall k :: 0 < k < 5 ==> (Bit(w, k) <==> Bit(flags, k))
  {
    var f := WithV(flags);
    FieldBits(ppn, f);
    WithVBits(flags);
    ByFlags(ppn, f);
  }

  lemma WithVBits(flags: nat)
    requires flags < 1024
    ensures WithV(flags) < 1024 && Bit(WithV(flags), 0) && forall k :: 0 < k < 5 ==> (Bit(WithV(flags), k) <==> Bit(flags, k))
  {
    var f := WithV(flags);
    assert f < 1024 && f % 2 == 1 && f / 2 == flags / 2;
    Halved(f);
    Halved(flags);
  }

  lemma Halved(x: nat)
    ensures x / 4 == x / 2 / 2 && x / 8 == x / 2 / 4 && x / 16 == x / 2 / 8
  {
  }

  lemma FieldBits(q: nat, r: nat)
    requires r < 1024
    ensures forall k :: 0 <= k < 5 ==> (Bit(q * 1024 + r, k) <==> Bit(r, k))
  {
    Scaled(q, r);
    Even(q * 256, r / 2);
    Even(q * 128, r / 4);
    Even(q * 64, r / 8);
    Even(q * 32, r / 16);
    Even(q * 512, r);
  }

  lemma Scaled(q: nat, r: nat)
    ensures (q * 1024 + r) / 2 == q * 256 * 2 + r / 2 && (q * 1024 + r) / 4 == q * 128 * 2 + r / 4
    ensures (q * 1024 + r) / 8 == q * 64 * 2 + r / 8 && (q * 1024 + r) / 16 == q * 32 * 2 + r / 16
  {
  }

  lemma Even(h: nat, x: nat)
    ensures (h * 2 + x) % 2 == x % 2
  {
  }

  lemma LeafBits(w: nat)
    ensures IsValid(w) <==> Bit(w, 0)
    ensures Maps(w) <==> Bit(w, 1) || Bit(w, 2) || Bit(w, 3)
  {
    assert w / 2 / 2 == w / 4 && w / 4 / 2 == w / 8;
    Octal(w / 2);
  }

  lemma Octal(x: nat)
    ensures x % 8 != 0 <==> x % 2 == 1 || x / 2 % 2 == 1 || x / 4 % 2 == 1
  {
    var r := x % 2 + 2 * (x / 2 % 2) + 4 * (x / 4 % 2);
    assert x / 2 / 2 == x / 4 && x / 4 / 2 == x / 8;
    assert x == x / 8 * 8 + r;
  }

  lemma Indexes(va: nat)
    ensures Index(va, 2) == Px(2, va / 4096) && Index(va, 1) == Px(1, va / 4096) && Index(va, 0) == Px(0, va / 4096)
  {
    assert va / 4096 / 512 == va / 0x20_0000 && va / 4096 / (512 * 512) == va / 0x4000_0000;
  }

  /** Where the tree has a table, the walk goes on there; where it has none, the walk faults. */
  lemma WalkFollows(m: Memory, t: Table, p: Path, va: nat, level: nat)
    requires Represents(m, t) && p in t && |p| < 2 && level == 2 - |p|
    ensures var c := Child(p, Index(va, level));
            Walked(m, t[p], va, level) == if c in t then Walked(m, t[c], va, level - 1) else Fault
  {
    hide Shape, Px, Maps;
    var i := Index(va, level);
    NodePage(m, t, p);
    if Child(p, i) in t {
      EntryBits(t[Child(p, i)], 0);
      assert MakePte(t[Child(p, i)], WithV(0)) == m[t[p]][i];
      assert forall k :: 0 < k < 5 ==> !Bit(0, k);
    } else if m[t[p]][i] >= 0 {
      LeafBits(m[t[p]][i]);
    }
  }

  lemma WalkEnds(m: Memory, t: Table, p: Path, va: nat)
    requires Represents(m, t) && p in t && |p| == 2
    ensures t[p] in m && |m[t[p]]| == 512
    ensures var w := m[t[p]][Index(va, 0)];
            Walked(m, t[p], va, 0) == if IsValid(w) then LeafTo(w, va) else Fault
  {
    hide Shape, Px;
    NodePage(m, t, p);
    var w := m[t[p]][Index(va, 0)];
    if w >= 0 {
      LeafBits(w);
      assert w / 1024 * 4096 % 4096 == 0;
    }
  }

  /** The hardware finds exactly the mappings that the tree stands for. */
  lemma HardwareSees(m: Memory, t: Table, va: nat)
    requires Represents(m, t) && va < 0x40_0000_0000
    ensures [] in t
    ensures Translate(m, t[[]], va) == if va / 4096 in Leaves(m, t) then LeafTo(Leaves(m, t)[va / 4096], va) else Fault
  {
    hide Walked, Represents, Px, IsValid, LeafTo;
    RootIn(m, t);
    Indexes(va);
    NotAPointer(0);
    WalkFollows(m, t, [], va, 2);
    var p := Child([], Index(va, 2));
    if p in t {
      WalkFollows(m, t, p, va, 1);
      if PathOf(va / 4096) in t {
        WalkEnds(m, t, PathOf(va / 4096), va);
      }
    } else {
      PathBelow(m, t, va / 4096);
    }
  }

  // ---- What the operations mean to a program ----

  /** The permissions of a translation are those bits of `perm`. */
  predicate Permits(x: Translation, perm: nat) {
    x.To? && x.r == Bit(perm, 1) && x.w == Bit(perm, 2) && x.x == Bit(perm, 3) && x.u == Bit(perm, 4)
  }

  lemma LeafOfPte(ppn: nat, perm: nat, va: nat)
    requires perm < 1024 && (Bit(perm, 2) ==> Bit(perm, 1))
    ensures WithV(perm) < 1024
    ensures var x := LeafTo(MakePte(ppn, WithV(perm)), va); Permits(x, perm) && x.pa == ppn * 4096 + va % 4096
  {
    EntryBits(ppn, perm);
  }

  /** Mapping a range: its addresses lead, in order, to the physical range with the permissions asked for,
      all others where they led before. */
  lemma RangeIsMapped(m0: Memory, t0: Table, vpn: nat, n: nat, ppn: nat, perm: nat, m: Memory, t: Table, va: nat)
    requires Represents(m0, t0) && Represents(m, t) && [] in t0 && [] in t && perm < 1024 && WithV(perm) < 1024
    requires Leaves(m, t) == MapRange(Leaves(m0, t0), vpn, n, ppn, perm) && (Bit(perm, 2) ==> Bit(perm, 1))
    requires va < 0x40_0000_0000
    ensures vpn * 4096 <= va < (vpn + n) * 4096 ==>
              var x := Translate(m, t[[]], va); Permits(x, perm) && x.pa == ppn * 4096 + (va - vpn * 4096)
    ensures !(vpn * 4096 <= va < (vpn + n) * 4096) ==> Translate(m, t[[]], va) == Translate(m0, t0[[]], va)
  {
    hide Translate, Leaves, Represents, MakePte, LeafTo, WithV;
    HardwareSees(m0, t0, va);
    HardwareSees(m, t, va);
    var v := va / 4096;
    if vpn <= v < vpn + n {
      LeafOfPte(ppn + (v - vpn), perm, va);
    }
  }

  /** Unmapping a range: its addresses fault, all others lead where they led before. */
  lemma RangeIsUnmapped(m0: Memory, t0: Table, vpn: nat, n: nat, m: Memory, t: Table, va: nat)
    requires Represents(m0, t0) && Represents(m, t) && [] in t0 && [] in t
    requires Leaves(m, t) == Without(Leaves(m0, t0), vpn, n) && va < 0x40_0000_0000
    ensures Translate(m, t[[]], va)
            == if vpn * 4096 <= va < (vpn + n) * 4096 then Fault else Translate(m0, t0[[]], va)
  {
    hide Translate, Leaves, Represents, LeafTo;
    HardwareSees(m0, t0, va);
    HardwareSees(m, t, va);
  }

  /** A new process's space: the last page below 2^38 is the trampoline, for the kernel to read and execute; the one
      before it the trapframe, for the kernel to read and write; every other address faults. */
  lemma KernelPages(m: Memory, t: Table, trampoline: nat, trapframe: nat, va: nat)
    requires Represents(m, t) && [] in t && Leaves(m, t) == KernelLeaves(trampoline, trapframe) && va < 0x40_0000_0000
    ensures Translate(m, t[[]], va)
            == if va >= 0x40_0000_0000 - 4096 then To(trampoline * 4096 + va % 4096, true, false, true, false)
               else if va >= 0x40_0000_0000 - 8192 then To(trapframe * 4096 + va % 4096, true, true, false, false)
               else Fault
  {
    hide Translate, Leaves, Represents, MakePte, LeafTo;
    HardwareSees(m, t, va);
    LeafOfPte(trampoline, 10, va);
    LeafOfPte(trapframe, 6, va);
  }

  /** Where an entry with given flags leads. */
  lemma LeafOfEntry(w: int, va: nat)
    requires w >= 0 && IsValid(w) && Maps(w) && (Bit(Flags(w), 2) ==> Bit(Flags(w), 1))
    ensures var x := LeafTo(w, va); Permits(x, Flags(w)) && x.pa == Ppn(w) * 4096 + va % 4096
  {
    FieldBits(w / 1024, w % 1024);
  }

  /** A page added to a space: its entry leads to a page that was free, which has the contents wanted. */
  lemma AddedPage(m0: Memory, free0: set<nat>, t0: Table, lo: nat, n: nat, want: map<nat, Want>,
                  m: Memory, free: set<nat>, t: Table, va: nat)
    requires Represents(m0, t0) && Represents(m, t) && [] in t && 0 !in free0
    requires Extended(m0, free0, t0, lo, n, want, m, free, t)
    requires lo * 4096 <= va < (lo + n) * 4096 && va < 0x40_0000_0000
    requires va / 4096 in want && 0 <= want[va / 4096].flags && (Bit(want[va / 4096].flags, 2) ==> Bit(want[va / 4096].flags, 1))
    ensures var x, w := Translate(m, t[[]], va), want[va / 4096];
            && Permits(x, w.flags) && x.pa % 4096 == va % 4096
            && x.pa / 4096 in m && m[x.pa / 4096] == w.data && x.pa / 4096 in free0
  {
    hide Translate, Leaves, Represents, LeafTo, Grown, Keeps, Maps, IsValid, Flags;
    HardwareSees(m, t, va);
    var v, l := va / 4096, Leaves(m, t);
    assert v in l && Ppn(l[v]) in Frames(l, lo, n);
    LeafMaps(m, t, v);
    LeafOfEntry(l[v], va);
  }

  /** An address outside what has been added leads where it led before. */
  lemma OtherPage(m0: Memory, free0: set<nat>, t0: Table, lo: nat, n: nat, want: map<nat, Want>,
                  m: Memory, free: set<nat>, t: Table, va: nat)
    requires Represents(m0, t0) && Represents(m, t) && [] in t0 && [] in t
    requires Extended(m0, free0, t0, lo, n, want, m, free, t)
    requires !(lo * 4096 <= va < (lo + n) * 4096) && va < 0x40_0000_0000
    ensures Translate(m, t[[]], va) == Translate(m0, t0[[]], va)
  {
    hide Translate, Leaves, Represents, LeafTo, Grown, Keeps, OwnsRange, AsWanted, Frames;
    HardwareSees(m0, t0, va);
    HardwareSees(m, t, va);
    WithoutAt(Leaves(m, t), lo, n, va / 4096);
  }

  lemma UserBits(xperm: nat)
    requires xperm in {0, 4, 8, 12}
    ensures var perm := PTE_R + PTE_U + xperm;
            Bit(perm, 1) && Bit(perm, 4) && (Bit(perm, 2) <==> xperm in {4, 12}) && (Bit(perm, 3) <==> xperm in {8, 12})
  {
  }

  /** Growing a space: each of its new pages is for the program to read, and to write and execute as asked
      for; it is a page that was free, all of it zero. All other addresses lead where they led before. */
  lemma SpaceIsGrown(m0: Memory, free0: set<nat>, t0: Table, lo: nat, hi: nat, xperm: nat, m: Memory,
                     free: set<nat>, t: Table, va: nat)
    requires Represents(m0, t0) && Represents(m, t) && [] in t0 && [] in t && lo <= hi && xperm in {0, 4, 8, 12} && 0 !in free0
    requires Extended(m0, free0, t0, lo, hi - lo, ZeroPages(lo, hi, PTE_R + PTE_U + xperm), m, free, t)
    requires va < 0x40_0000_0000
    ensures lo * 4096 <= va < hi * 4096 ==>
              var x := Translate(m, t[[]], va);
              && x.To? && x.r && x.u && (x.w <==> xperm in {4, 12}) && (x.x <==> xperm in {8, 12}) && x.pa % 4096 == va % 4096
              && x.pa / 4096 in m && m[x.pa / 4096] == Filled(0) && x.pa / 4096 in free0
    ensures !(lo * 4096 <= va < hi * 4096) ==> Translate(m, t[[]], va) == Translate(m0, t0[[]], va)
  {
    hide Translate, Represents, Extended, WithV, Bit;
    var want, perm := ZeroPages(lo, hi, PTE_R + PTE_U + xperm), PTE_R + PTE_U + xperm;
    if lo * 4096 <= va < hi * 4096 {
      assert want[va / 4096] == ZeroPage(va / 4096, perm);
      WithVBits(perm);
      UserBits(xperm);
      AddedPage(m0, free0, t0, lo, hi - lo, want, m, free, t, va);
    } else {
      OtherPage(m0, free0, t0, lo, hi - lo, want, m, free, t, va);
    }
  }

  /** Copying a space: at every address below its size the child reads what the parent reads, with the same
      permissions, on a page that was free. */
  lemma SpaceIsCopied(m0: Memory, free0: set<nat>, t0: Table, n: nat, parent: Table, m: Memory, free: set<nat>, t: Table, va: nat)
    requires Represents(m0, t0) && Represents(m, t) && Represents(m0, parent) && [] in t && [] in parent && 0 !in free0
    requires Extended(m0, free0, t0, 0, n, CopyOf(m0, Leaves(m0, parent), n), m, free, t)
    requires va < n * 4096 && va < 0x40_0000_0000 && Translate(m0, parent[[]], va).To?
    ensures var x, y := Translate(m0, parent[[]], va), Translate(m, t[[]], va);
            && y.To? && y.r == x.r && y.w == x.w && y.x == x.x && y.u == x.u && y.pa % 4096 == x.pa % 4096
            && x.pa / 4096 in m0 && y.pa / 4096 in m && m[y.pa / 4096] == m0[x.pa / 4096] && y.pa / 4096 in free0
  {
    hide Translate, Leaves, Represents, Maps, IsValid, Frames, Keeps, Grown;
    HardwareSees(m0, parent, va);
    var v, l := va / 4096, Leaves(m0, parent);
    var w := l[v];
    LeafMaps(m0, parent, v);
    FieldBits(w / 1024, w % 1024);
    assert v in CopyOf(m0, l, n);
    AddedPage(m0, free0, t0, 0, n, CopyOf(m0, l, n), m, free, t, va);
  }

  /** Different pages of what has been added are different pages of memory. */
  lemma AddedApart(m0: Memory, free0: set<nat>, t0: Table, lo: nat, n: nat, want: map<nat, Want>,
                   m: Memory, free: set<nat>, t: Table, va: nat, vb: nat)
    requires Represents(m0, t0) && Represents(m, t) && [] in t && Extended(m0, free0, t0, lo, n, want, m, free, t)
    requires lo * 4096 <= va < (lo + n) * 4096 && lo * 4096 <= vb < (lo + n) * 4096 && va < 0x40_0000_0000 && vb < 0x40_0000_0000
    requires var x, y := Translate(m, t[[]], va), Translate(m, t[[]], vb); x.To? && y.To? && x.pa == y.pa
    ensures va == vb
  {
    hide Translate, Represents, Leaves, Grown, Keeps, AsWanted, Frames;
    HardwareSees(m, t, va);
    HardwareSees(m, t, vb);
    var l := Leaves(m, t);
    assert Ppn(l[va / 4096]) == Ppn(l[vb / 4096]);
  }
}
