/** What allocating, freeing and writing a block do to the ownership of blocks and the bytes of files. */
module FileUpdates {
  import opened FileBits
  import opened FileBlocks

  ghost predicate Sound(lay: Layout, d: Disk, ino: Inodes, owner: map<nat, Slot>) {
    DiskOk(lay, d) && InodesOk(ino) && Owned(lay, d, ino, owner, 0, 0) && Backed(d, ino)
  }

  /** Every block of the disk is marked. */
  ghost predicate Full(lay: Layout, d: Disk) {
    DiskOk(lay, d) && forall b: nat :: b < lay.size ==> Used(lay, d, b)
  }

  ghost function WithBlock(lay: Layout, d: Disk, r: nat): Disk
    requires DiskOk(lay, d) && r < lay.size
  {
    PutUsed(lay, d, r, true)[r := Zeros()]
  }

  function WithAddr(ino: Inodes, inum: nat, k: nat, r: int): Inodes
    requires inum in ino && k < |ino[inum].addrs|
  {
    ino[inum := Inode(ino[inum].addrs[k := r], ino[inum].size)]
  }

  lemma WithBlockOk(lay: Layout, d: Disk, r: nat)
    requires DiskOk(lay, d) && lay.dataStart <= r < lay.size && !Used(lay, d, r)
    ensures DiskOk(lay, WithBlock(lay, d, r))
    ensures forall c :: 0 <= c < lay.size ==> (Used(lay, WithBlock(lay, d, r), c) <==> c == r || Used(lay, d, c))
    ensures forall q :: q in d && q >= lay.dataStart && q != r ==> WithBlock(lay, d, r)[q] == d[q]
    ensures r in WithBlock(lay, d, r) && WithBlock(lay, d, r)[r] == Zeros()
  {
    hide Used;
    PutUsedOk(lay, d, r, true);
    var d1 := PutUsed(lay, d, r, true);
    forall c | 0 <= c < lay.size ensures Used(lay, WithBlock(lay, d, r), c) <==> c == r || Used(lay, d, c) {
      PutUsedAt(lay, d, r, true, c);
      UsedFrame(lay, d1, WithBlock(lay, d, r), c);
    }
  }

  lemma FreeNotOwned(lay: Layout, d: Disk, ino: Inodes, owner: map<nat, Slot>, r: nat)
    requires DiskOk(lay, d) && Owned(lay, d, ino, owner, 0, 0) && r < lay.size && !Used(lay, d, r)
    ensures r !in owner && lay.dataStart <= r
  {
  }

  /** The index block of a file, when it has one. */
  lemma IndexBlock(lay: Layout, d: Disk, ino: Inodes, owner: map<nat, Slot>, i: nat)
    requires DiskOk(lay, d) && Owned(lay, d, ino, owner, 0, 0) && AddrOf(ino, i, NDIRECT) != 0
    ensures var a := AddrOf(ino, i, NDIRECT);
            a > 0 && a in owner && owner[a] == Addr(i, NDIRECT) && lay.dataStart <= a < lay.size && a in d && BlockOk(d[a])
  {
    assert Value(d, ino, Addr(i, NDIRECT)) == AddrOf(ino, i, NDIRECT);
    HeldAt(lay, d, ino, owner, 0, 0, Addr(i, NDIRECT));
  }

  /** A fresh block in an address slot of an inode. */
  lemma AddrValues(lay: Layout, d: Disk, ino: Inodes, owner: map<nat, Slot>, inum: nat, k: nat, r: nat)
    requires Sound(lay, d, ino, owner) && inum in ino && k <= NDIRECT && AddrOf(ino, inum, k) == 0
    requires lay.dataStart <= r < lay.size && r !in owner && !Used(lay, d, r)
    ensures k < |ino[inum].addrs|
    ensures ValuesAfter(d, ino, WithBlock(lay, d, r), WithAddr(ino, inum, k, r), Addr(inum, k), r)
  {
    hide Used, WithBlock, Backed;
    WithBlockOk(lay, d, r);
    var d1, ino1 := WithBlock(lay, d, r), WithAddr(ino, inum, k, r);
    forall s ensures Value(d1, ino1, s) == if s == Addr(inum, k) then r else Value(d, ino, s) {
      match s
      case Addr(i, m) =>
      case Entry(i, j) =>
        if i == inum && k == NDIRECT {
          if j < NINDIRECT {
            ZeroWords(j);
          }
        } else if AddrOf(ino, i, NDIRECT) != 0 {
          IndexBlock(lay, d, ino, owner, i);
        }
    }
  }

  lemma AddrAllocated(lay: Layout, d: Disk, ino: Inodes, owner: map<nat, Slot>, inum: nat, k: nat, r: nat)
    requires Sound(lay, d, ino, owner) && inum in ino && k <= NDIRECT && AddrOf(ino, inum, k) == 0
    requires r < lay.size && !Used(lay, d, r)
    ensures k < |ino[inum].addrs|
    ensures var d1, ino1 := WithBlock(lay, d, r), WithAddr(ino, inum, k, r);
            && Sound(lay, d1, ino1, owner[r := Addr(inum, k)]) && SameFiles(d, ino, d1, ino1)
            && AddrOf(ino1, inum, k) == r && lay.dataStart <= r && r in d1 && d1[r] == Zeros()
  {
    hide Used, WithBlock, Backed, ValuesAfter, SameBytes, Owned, DiskOk, Value;
    FreeNotOwned(lay, d, ino, owner, r);
    HasMetadata(lay, d);
    WithBlockOk(lay, d, r);
    AddrValues(lay, d, ino, owner, inum, k, r);
    var d1, ino1 := WithBlock(lay, d, r), WithAddr(ino, inum, k, r);
    AddrValue(d, ino, inum, k);
    OwnedAfterAlloc(lay, d, ino, owner, Addr(inum, k), r, d1, ino1);
    BackedAfterAlloc(d, ino, Addr(inum, k), r, d1, ino1);
    forall i | i in ino ensures SameBytes(d, ino, d1, ino1, i) {
      BytesAfterAlloc(lay, d, ino, owner, Addr(inum, k), r, d1, ino1, 0, i);
    }
  }

  lemma AddrValue(d: Disk, ino: Inodes, inum: nat, k: nat)
    ensures Value(d, ino, Addr(inum, k)) == AddrOf(ino, inum, k)
  {
  }

  ghost function WithEntry(lay: Layout, d: Disk, ind: nat, j: nat, r: nat): Disk
    requires DiskOk(lay, d) && r < lay.size && ind in d && lay.dataStart <= ind && ind != r && j < NINDIRECT
    requires !Used(lay, d, r) && lay.dataStart <= r
  {
    WithBlockOk(lay, d, r);
    var d1 := WithBlock(lay, d, r);
    d1[ind := PutWord(d1[ind], j, r)]
  }

  lemma WithEntryOk(lay: Layout, d: Disk, ind: nat, j: nat, r: nat)
    requires DiskOk(lay, d) && r < lay.size && ind in d && lay.dataStart <= ind && ind != r && j < NINDIRECT
    requires !Used(lay, d, r) && lay.dataStart <= r
    ensures var d2 := WithEntry(lay, d, ind, j, r);
            && DiskOk(lay, d2)
            && (forall c :: 0 <= c < lay.size ==> (Used(lay, d2, c) <==> c == r || Used(lay, d, c)))
            && (forall q :: q in d && q >= lay.dataStart && q != r && q != ind ==> d2[q] == d[q])
            && d2[r] == Zeros()
            && (forall m :: 0 <= m < NINDIRECT ==> Word(d2[ind], m) == if m == j then r else Word(d[ind], m))
  {
    hide Used, Word, PutWord;
    WithBlockOk(lay, d, r);
    var d1, d2 := WithBlock(lay, d, r), WithEntry(lay, d, ind, j, r);
    WordOfPut(d1[ind], j, r, j);
    forall m | 0 <= m < NINDIRECT ensures Word(d2[ind], m) == if m == j then r else Word(d[ind], m) {
      WordOfPut(d1[ind], j, r, m);
    }
    forall c | 0 <= c < lay.size ensures Used(lay, d2, c) <==> Used(lay, d1, c) {
      UsedFrame(lay, d1, d2, c);
    }
  }

  lemma EntryValues(lay: Layout, d: Disk, ino: Inodes, owner: map<nat, Slot>, inum: nat, j: nat, r: nat)
    requires Sound(lay, d, ino, owner) && j < NINDIRECT
    requires AddrOf(ino, inum, NDIRECT) > 0 && Value(d, ino, Entry(inum, j)) == 0
    requires lay.dataStart <= r < lay.size && r !in owner && !Used(lay, d, r)
    ensures var ind := AddrOf(ino, inum, NDIRECT);
            && ind in owner && owner[ind] == Addr(inum, NDIRECT) && lay.dataStart <= ind && ind in d && ind != r
            && ValuesAfter(d, ino, WithEntry(lay, d, ind, j, r), ino, Entry(inum, j), r)
  {
    hide Used, WithBlock, WithEntry, Backed, Word;
    IndexBlock(lay, d, ino, owner, inum);
    var ind := AddrOf(ino, inum, NDIRECT);
    WithEntryOk(lay, d, ind, j, r);
    var d2 := WithEntry(lay, d, ind, j, r);
    forall s ensures Value(d2, ino, s) == if s == Entry(inum, j) then r else Value(d, ino, s) {
      match s
      case Addr(i, m) =>
      case Entry(i, m) =>
        if AddrOf(ino, i, NDIRECT) != 0 {
          IndexBlock(lay, d, ino, owner, i);
        }
    }
  }

  lemma EntryAllocated(lay: Layout, d: Disk, ino: Inodes, owner: map<nat, Slot>, inum: nat, j: nat, r: nat)
    requires Sound(lay, d, ino, owner) && j < NINDIRECT
    requires AddrOf(ino, inum, NDIRECT) > 0 && Value(d, ino, Entry(inum, j)) == 0
    requires r < lay.size && !Used(lay, d, r)
    ensures var ind := AddrOf(ino, inum, NDIRECT);
            && lay.dataStart <= ind && ind in d && ind != r && lay.dataStart <= r
            && var d2 := WithEntry(lay, d, ind, j, r);
            && Sound(lay, d2, ino, owner[r := Entry(inum, j)]) && SameFiles(d, ino, d2, ino)
            && Value(d2, ino, Entry(inum, j)) == r
  {
    hide Used, WithBlock, WithEntry, Backed, SameBytes, Owned, DiskOk, Value, Word;
    FreeNotOwned(lay, d, ino, owner, r);
    HasMetadata(lay, d);
    EntryValues(lay, d, ino, owner, inum, j, r);
    var ind := AddrOf(ino, inum, NDIRECT);
    WithEntryOk(lay, d, ind, j, r);
    var d2 := WithEntry(lay, d, ind, j, r);
    OwnedAfterAlloc(lay, d, ino, owner, Entry(inum, j), r, d2, ino);
    BackedAfterAlloc(d, ino, Entry(inum, j), r, d2, ino);
    forall i | i in ino ensures SameBytes(d, ino, d2, ino, i) {
      BytesAfterAlloc(lay, d, ino, owner, Entry(inum, j), r, d2, ino, ind, i);
    }
  }

  // ---- Freeing ----

  /** The state of truncation: of the blocks of file `inum`, the direct ones below `k` and the first
      `freed` entries of the index block have been given back. */
  ghost predicate Truncating(lay: Layout, d0: Disk, ino0: Inodes, owner0: map<nat, Slot>, inum: nat,
                             d: Disk, ino: Inodes, owner: map<nat, Slot>, k: nat, freed: nat) {
    && DiskOk(lay, d) && Owned(lay, d, ino, owner, inum, freed)
    && (forall b :: b in d0 && b >= lay.dataStart ==> b in d && d[b] == d0[b])
    && inum in ino0 && ino.Keys == ino0.Keys && InodesOk(ino)
    && (forall i :: i in ino && i != inum ==> ino[i] == ino0[i])
    && Cleared(ino, inum, k)
    && owner.Keys <= owner0.Keys && (forall b :: b in owner ==> owner[b] == owner0[b])
    && (forall b :: b in owner0 && owner0[b].inum != inum ==> b in owner)
  }

  /** The first `k` addresses of an inode are 0. */
  ghost predicate Cleared(ino: Inodes, inum: nat, k: nat) {
    forall m :: 0 <= m < k ==> AddrOf(ino, inum, m) == 0
  }

  lemma ClearedNext(ino: Inodes, inum: nat, k: nat)
    requires inum in ino && k < |ino[inum].addrs| && Cleared(ino, inum, k)
    ensures Cleared(WithAddr(ino, inum, k, 0), inum, k + 1)
  {
    forall m | 0 <= m < k + 1 ensures AddrOf(WithAddr(ino, inum, k, 0), inum, m) == 0 {
      assert m < k ==> AddrOf(ino, inum, m) == 0;
    }
  }

  lemma TruncationStarts(lay: Layout, d: Disk, ino: Inodes, owner: map<nat, Slot>, inum: nat)
    requires Sound(lay, d, ino, owner) && inum in ino
    ensures Truncating(lay, d, ino, owner, inum, d, ino, owner, 0, 0)
  {
    hide Used, Value;
    forall s ensures Freed(inum, 0, s) == Freed(0, 0, s) {
    }
  }

  ghost function WithoutBlock(lay: Layout, d: Disk, b: nat): Disk
    requires DiskOk(lay, d) && b < lay.size
  {
    PutUsed(lay, d, b, false)
  }

  lemma WithoutBlockOk(lay: Layout, d: Disk, b: nat)
    requires DiskOk(lay, d) && b < lay.size
    ensures DiskOk(lay, WithoutBlock(lay, d, b))
    ensures forall c :: 0 <= c < lay.size ==> (Used(lay, WithoutBlock(lay, d, b), c) <==> c != b && Used(lay, d, c))
    ensures forall q :: q in d && q >= lay.dataStart ==> WithoutBlock(lay, d, b)[q] == d[q]
  {
    hide Used;
    PutUsedOk(lay, d, b, false);
    forall c | 0 <= c < lay.size ensures Used(lay, WithoutBlock(lay, d, b), c) <==> c != b && Used(lay, d, c) {
      PutUsedAt(lay, d, b, false, c);
    }
  }

  /** With the same inodes, clearing a mark changes no slot that still counts. */
  lemma ValuesAfterFree(lay: Layout, d: Disk, ino: Inodes, owner: map<nat, Slot>, who: nat, freed: nat, b: nat, s: Slot)
    requires DiskOk(lay, d) && Owned(lay, d, ino, owner, who, freed) && b < lay.size
    ensures Value(WithoutBlock(lay, d, b), ino, s) == Value(d, ino, s)
  {
    hide Used, WithoutBlock;
    WithoutBlockOk(lay, d, b);
    if s.Entry? && AddrOf(ino, s.inum, NDIRECT) != 0 {
      AddrValue(d, ino, s.inum, NDIRECT);
      HeldAt(lay, d, ino, owner, who, freed, Addr(s.inum, NDIRECT));
    }
  }

  /** One direct block. */
  lemma DirectFreed(lay: Layout, d0: Disk, ino0: Inodes, owner0: map<nat, Slot>, inum: nat,
                    d: Disk, ino: Inodes, owner: map<nat, Slot>, k: nat, b: nat)
    requires Truncating(lay, d0, ino0, owner0, inum, d, ino, owner, k, 0) && k < NDIRECT
    requires b != 0 && b == AddrOf(ino, inum, k)
    ensures b < lay.size && b in owner && Used(lay, d, b) && k < |ino[inum].addrs|
    ensures Truncating(lay, d0, ino0, owner0, inum,
                       WithoutBlock(lay, d, b), WithAddr(ino, inum, k, 0), owner - {b}, k + 1, 0)
  {
    hide Used, WithoutBlock, Value, Cleared;
    AddrValue(d, ino, inum, k);
    HeldAt(lay, d, ino, owner, inum, 0, Addr(inum, k));
    WithoutBlockOk(lay, d, b);
    var d1, ino1 := WithoutBlock(lay, d, b), WithAddr(ino, inum, k, 0);
    forall s ensures Value(d1, ino1, s) == if s == Addr(inum, k) then 0 else Value(d, ino, s) {
      ValuesAfterFree(lay, d, ino, owner, inum, 0, b, s);
      ValueWithAddr(d1, ino, inum, k, s);
    }
    OwnedAfterFree(lay, d, ino, owner, inum, 0, b, d1, ino1, 0);
    ClearedNext(ino, inum, k);
  }

  lemma ValueWithAddr(d: Disk, ino: Inodes, inum: nat, k: nat, s: Slot)
    requires inum in ino && k < |ino[inum].addrs| && k < NDIRECT
    ensures Value(d, WithAddr(ino, inum, k, 0), s) == if s == Addr(inum, k) then 0 else Value(d, ino, s)
  {
  }

  /** One entry of the index block. */
  lemma EntryFreed(lay: Layout, d0: Disk, ino0: Inodes, owner0: map<nat, Slot>, inum: nat,
                   d: Disk, ino: Inodes, owner: map<nat, Slot>, k: nat, j: nat, b: nat)
    requires Truncating(lay, d0, ino0, owner0, inum, d, ino, owner, k, j)
    requires b != 0 && b == Value(d, ino, Entry(inum, j))
    ensures b < lay.size && b in owner && Used(lay, d, b)
    ensures Truncating(lay, d0, ino0, owner0, inum, WithoutBlock(lay, d, b), ino, owner - {b}, k, j + 1)
  {
    hide Used, WithoutBlock, Value, Cleared;
    HeldAt(lay, d, ino, owner, inum, j, Entry(inum, j));
    WithoutBlockOk(lay, d, b);
    var d1 := WithoutBlock(lay, d, b);
    forall s ensures Value(d1, ino, s) == Value(d, ino, s) {
      ValuesAfterFree(lay, d, ino, owner, inum, j, b, s);
    }
    OwnedAfterFree(lay, d, ino, owner, inum, j, b, d1, ino, j + 1);
  }

  lemma EntryAbsent(lay: Layout, d0: Disk, ino0: Inodes, owner0: map<nat, Slot>, inum: nat,
                    d: Disk, ino: Inodes, owner: map<nat, Slot>, k: nat, j: nat)
    requires Truncating(lay, d0, ino0, owner0, inum, d, ino, owner, k, j) && Value(d, ino, Entry(inum, j)) == 0
    ensures Truncating(lay, d0, ino0, owner0, inum, d, ino, owner, k, j + 1)
  {
    hide Used, Value;
    HasMetadata(lay, d);
    forall b | b in owner ensures !Freed(inum, j + 1, owner[b]) {
      OwnedAt(lay, d, ino, owner, inum, j, b);
    }
  }

  /** The index block itself, once all its entries have been given back. */
  lemma IndexFreed(lay: Layout, d0: Disk, ino0: Inodes, owner0: map<nat, Slot>, inum: nat,
                   d: Disk, ino: Inodes, owner: map<nat, Slot>, b: nat)
    requires Truncating(lay, d0, ino0, owner0, inum, d, ino, owner, NDIRECT, NINDIRECT)
    requires b != 0 && b == AddrOf(ino, inum, NDIRECT)
    ensures b < lay.size && b in owner && Used(lay, d, b) && NDIRECT < |ino[inum].addrs|
    ensures Truncating(lay, d0, ino0, owner0, inum,
                       WithoutBlock(lay, d, b), WithAddr(ino, inum, NDIRECT, 0), owner - {b}, NDIRECT + 1, 0)
  {
    hide Used, WithoutBlock, Value, Cleared;
    AddrValue(d, ino, inum, NDIRECT);
    HeldAt(lay, d, ino, owner, inum, NINDIRECT, Addr(inum, NDIRECT));
    WithoutBlockOk(lay, d, b);
    var d1, ino1 := WithoutBlock(lay, d, b), WithAddr(ino, inum, NDIRECT, 0);
    forall s ensures Value(d1, ino1, s) == if s == Addr(inum, NDIRECT) || (s.Entry? && s.inum == inum) then 0 else Value(d, ino, s) {
      ValuesAfterFree(lay, d, ino, owner, inum, NINDIRECT, b, s);
      ValueWithoutIndex(d1, ino, inum, s);
    }
    forall c | c in owner && c != b ensures !(owner[c].Entry? && owner[c].inum == inum) && owner[c] != Addr(inum, NDIRECT) {
      OwnedAt(lay, d, ino, owner, inum, NINDIRECT, c);
      HasMetadata(lay, d);
      if owner[c].Entry? && owner[c].j >= NINDIRECT {
        FarEntries(d, ino, owner[c]);
      }
    }
    OwnedAfterFree(lay, d, ino, owner, inum, NINDIRECT, b, d1, ino1, 0);
    ClearedNext(ino, inum, NDIRECT);
  }

  lemma FarEntries(d: Disk, ino: Inodes, s: Slot)
    requires s.Entry? && s.j >= NINDIRECT
    ensures Value(d, ino, s) == 0
  {
  }

  lemma ValueWithoutIndex(d: Disk, ino: Inodes, inum: nat, s: Slot)
    requires inum in ino && NDIRECT < |ino[inum].addrs|
    ensures Value(d, WithAddr(ino, inum, NDIRECT, 0), s)
            == if s == Addr(inum, NDIRECT) || (s.Entry? && s.inum == inum) then 0 else Value(d, ino, s)
  {
  }

  /** All the blocks of the file have been given back: the rest of the file system is as it was. */
  lemma TruncationEnds(lay: Layout, d0: Disk, ino0: Inodes, owner0: map<nat, Slot>, inum: nat,
                       d: Disk, ino: Inodes, owner: map<nat, Slot>)
    requires Sound(lay, d0, ino0, owner0)
    requires Truncating(lay, d0, ino0, owner0, inum, d, ino, owner, NDIRECT + 1, 0)
    ensures var ino1 := ino[inum := Inode(ino[inum].addrs, 0)];
            && Sound(lay, d, ino1, owner)
            && (forall b :: b in owner <==> b in owner0 && owner0[b].inum != inum)
            && (forall i :: i in ino0 && i != inum ==> SameBytes(d0, ino0, d, ino1, i))
  {
    hide Used, Value, Cleared;
    var ino1 := ino[inum := Inode(ino[inum].addrs, 0)];
    HasMetadata(lay, d);
    forall s ensures Value(d, ino1, s) == Value(d, ino, s) && Freed(inum, 0, s) == Freed(0, 0, s) {
      ValueSize(d, ino, inum, s);
    }
    forall s: Slot ensures s.inum == inum ==> Value(d, ino, s) == 0 {
      if s.inum == inum {
        NoValues(d, ino, s);
      }
    }
    forall b | b in owner ensures owner0[b].inum != inum {
      OwnedAt(lay, d, ino, owner, inum, 0, b);
    }
    OthersUntouched(lay, d0, ino0, owner0, inum, d, ino1);
  }

  lemma ValueSize(d: Disk, ino: Inodes, inum: nat, s: Slot)
    requires inum in ino
    ensures Value(d, ino[inum := Inode(ino[inum].addrs, 0)], s) == Value(d, ino, s)
  {
  }

  lemma NoValues(d: Disk, ino: Inodes, s: Slot)
    requires Cleared(ino, s.inum, NDIRECT + 1) && InodesOk(ino)
    ensures Value(d, ino, s) == 0
  {
    if s.Addr? && s.k <= NDIRECT {
      assert AddrOf(ino, s.inum, s.k) == 0;
    } else {
      assert AddrOf(ino, s.inum, NDIRECT) == 0;
    }
  }

  /** The other files have the same addresses and the same bytes. */
  lemma OthersUntouched(lay: Layout, d0: Disk, ino0: Inodes, owner0: map<nat, Slot>, inum: nat, d: Disk, ino: Inodes)
    requires Sound(lay, d0, ino0, owner0)
    requires forall b :: b in d0 && b >= lay.dataStart ==> b in d && d[b] == d0[b]
    requires ino.Keys == ino0.Keys && forall i :: i in ino && i != inum ==> ino[i] == ino0[i]
    ensures forall s: Slot :: s.inum != inum ==> Value(d, ino, s) == Value(d0, ino0, s)
    ensures forall i :: i in ino0 && i != inum ==> SameBytes(d0, ino0, d, ino, i)
    ensures forall i, bn: nat :: i in ino0 && i != inum && bn * BSIZE < ino[i].size ==> Value(d, ino, SlotFor(i, bn)) != 0
  {
    hide Used;
    forall s: Slot ensures s.inum != inum ==> Value(d, ino, s) == Value(d0, ino0, s) {
      if AddrOf(ino0, s.inum, NDIRECT) != 0 {
        IndexBlock(lay, d0, ino0, owner0, s.inum);
      }
    }
    forall i, o: nat | i in ino0 && i != inum ensures FileByte(d, ino, i, o) == FileByte(d0, ino0, i, o) {
      var s := SlotFor(i, o / BSIZE);
      if Value(d0, ino0, s) != 0 {
        HeldAt(lay, d0, ino0, owner0, 0, 0, s);
      }
    }
  }

  // ---- Writing ----

  /** Byte `o` of file `i` after `data` has been put at `off` in file `inum`. */
  ghost function WrittenByte(d0: Disk, ino0: Inodes, inum: nat, off: nat, data: seq<int>, i: nat, o: nat): int {
    if i == inum && off <= o < off + |data| then data[o - off] else FileByte(d0, ino0, i, o)
  }

  /** `data` has been put at `off` in file `inum`; all other bytes and all sizes are as before. */
  ghost predicate Written(d0: Disk, ino0: Inodes, inum: nat, off: nat, data: seq<int>, d: Disk, ino: Inodes) {
    && ino.Keys == ino0.Keys && (forall i :: i in ino0 ==> ino[i].size == ino0[i].size)
    && forall i, o: nat :: i in ino0 ==> FileByte(d, ino, i, o) == WrittenByte(d0, ino0, inum, off, data, i, o)
  }

  lemma NothingWritten(d: Disk, ino: Inodes, inum: nat, off: nat)
    ensures Written(d, ino, inum, off, [], d, ino)
  {
  }

  lemma WrittenSame(d0: Disk, ino0: Inodes, inum: nat, off: nat, data: seq<int>, d: Disk, ino: Inodes, d': Disk, ino': Inodes)
    requires Written(d0, ino0, inum, off, data, d, ino) && SameFiles(d, ino, d', ino')
    ensures Written(d0, ino0, inum, off, data, d', ino')
  {
    hide FileByte;
    forall i, o: nat | i in ino0 ensures FileByte(d', ino', i, o) == FileByte(d, ino, i, o) {
      assert SameBytes(d, ino, d', ino', i);
    }
  }

  lemma WrittenMore(d0: Disk, ino0: Inodes, inum: nat, off: nat, data: seq<int>, d: Disk, ino: Inodes,
                    more: seq<int>, d': Disk)
    requires Written(d0, ino0, inum, off, data, d, ino) && Written(d, ino, inum, off + |data|, more, d', ino)
    ensures Written(d0, ino0, inum, off, data + more, d', ino)
  {
    hide FileByte;
  }

  /** Bytes put into a block of a file show up in that file at that place and nowhere else. */
  lemma ChunkWritten(lay: Layout, d: Disk, ino: Inodes, owner: map<nat, Slot>, inum: nat, bn: nat, at: nat, data: seq<int>)
    requires Sound(lay, d, ino, owner) && Value(d, ino, SlotFor(inum, bn)) != 0
    requires at + |data| <= BSIZE && Bytes(data)
    ensures var a := Value(d, ino, SlotFor(inum, bn));
            && a > 0 && a in d && |d[a]| == BSIZE
            && var d1 := d[a := Splice(d[a], at, data)];
            Sound(lay, d1, ino, owner) && Written(d, ino, inum, bn * BSIZE + at, data, d1, ino)
  {
    hide Used, Value, Backed, BlockOk, Splice, FileByte, WrittenByte;
    var a := Value(d, ino, SlotFor(inum, bn));
    HeldAt(lay, d, ino, owner, 0, 0, SlotFor(inum, bn));
    BlockSize(d[a]);
    SpliceOk(d[a], at, data);
    var d1 := d[a := Splice(d[a], at, data)];
    forall s ensures Value(d1, ino, s) == Value(d, ino, s) {
      ValueAfterChunk(lay, d, ino, owner, inum, bn, Splice(d[a], at, data), s);
    }
    forall c | 0 <= c < lay.size ensures Used(lay, d1, c) <==> Used(lay, d, c) {
      UsedFrame(lay, d, d1, c);
    }
    BackedSame(d, ino, d1);
    OwnedSame(lay, d, ino, owner, d1);
    forall i, o: nat ensures FileByte(d1, ino, i, o) == WrittenByte(d, ino, inum, bn * BSIZE + at, data, i, o) {
      ByteAfterChunk(lay, d, ino, owner, inum, bn, at, data, d1, i, o);
    }
  }

  lemma BlockSize(b: Block)
    requires BlockOk(b)
    ensures |b| == BSIZE
  {
  }

  lemma BackedSame(d: Disk, ino: Inodes, d1: Disk)
    requires Backed(d, ino) && forall s :: Value(d1, ino, s) == Value(d, ino, s)
    ensures Backed(d1, ino)
  {
  }

  lemma OwnedSame(lay: Layout, d: Disk, ino: Inodes, owner: map<nat, Slot>, d1: Disk)
    requires DiskOk(lay, d) && DiskOk(lay, d1) && Owned(lay, d, ino, owner, 0, 0)
    requires forall s :: Value(d1, ino, s) == Value(d, ino, s)
    requires forall c :: 0 <= c < lay.size ==> (Used(lay, d1, c) <==> Used(lay, d, c))
    ensures Owned(lay, d1, ino, owner, 0, 0)
  {
    hide Used, Value, DiskOk;
    forall s | !Freed(0, 0, s) && Value(d1, ino, s) != 0 ensures Held(d1, ino, owner, s) {
      assert Held(d, ino, owner, s);
    }
  }

  lemma ValueAfterChunk(lay: Layout, d: Disk, ino: Inodes, owner: map<nat, Slot>, inum: nat, bn: nat, block: Block, s: Slot)
    requires DiskOk(lay, d) && Owned(lay, d, ino, owner, 0, 0) && Value(d, ino, SlotFor(inum, bn)) > 0
    ensures Value(d[Value(d, ino, SlotFor(inum, bn)) := block], ino, s) == Value(d, ino, s)
  {
    hide Used;
    HeldAt(lay, d, ino, owner, 0, 0, SlotFor(inum, bn));
    if s.Entry? && AddrOf(ino, s.inum, NDIRECT) != 0 {
      IndexBlock(lay, d, ino, owner, s.inum);
    }
  }

  lemma ByteAfterChunk(lay: Layout, d: Disk, ino: Inodes, owner: map<nat, Slot>, inum: nat, bn: nat, at: nat, data: seq<int>,
                       d1: Disk, i: nat, o: nat)
    requires DiskOk(lay, d) && Owned(lay, d, ino, owner, 0, 0) && at + |data| <= BSIZE
    requires var a := Value(d, ino, SlotFor(inum, bn)); a > 0 && a in d && d1 == d[a := Splice(d[a], at, data)]
    requires forall s :: Value(d1, ino, s) == Value(d, ino, s)
    ensures FileByte(d1, ino, i, o) == WrittenByte(d, ino, inum, bn * BSIZE + at, data, i, o)
  {
    hide Used, Value;
    var s, t := SlotFor(i, o / BSIZE), SlotFor(inum, bn);
    SlotsOfAFile(i, o / BSIZE, inum, bn);
    HeldAt(lay, d, ino, owner, 0, 0, t);
    if Value(d, ino, s) != 0 {
      HeldAt(lay, d, ino, owner, 0, 0, s);
    }
    assert o == o / BSIZE * BSIZE + o % BSIZE;
  }

  /** What the invariant says of the bitmap: it marks the metadata blocks and exactly the blocks that
      some file holds; no two places of the file system hold the same block. */
  lemma BitmapMarksHeldBlocks(lay: Layout, d: Disk, ino: Inodes, owner: map<nat, Slot>)
    requires Sound(lay, d, ino, owner)
    ensures forall b: nat :: b < lay.size ==> (Used(lay, d, b) <==> b < lay.dataStart || exists s :: Value(d, ino, s) == b)
    ensures forall s, t :: Value(d, ino, s) == Value(d, ino, t) != 0 ==> s == t
    ensures forall s :: Value(d, ino, s) != 0 ==> lay.dataStart <= Value(d, ino, s) < lay.size
  {
    hide Used, Value;
    HasMetadata(lay, d);
    forall s | Value(d, ino, s) != 0
      ensures var b := Value(d, ino, s); lay.dataStart <= b < lay.size && b in owner && owner[b] == s && Used(lay, d, b)
    {
      HeldAt(lay, d, ino, owner, 0, 0, s);
    }
    forall b: nat | b in owner ensures Value(d, ino, owner[b]) == b {
      OwnedAt(lay, d, ino, owner, 0, 0, b);
    }
  }
}
