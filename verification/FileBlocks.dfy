/** Which blocks belong to which file, the bitmap that records it, and the bytes of a file. */
module FileBlocks {
  import FileBits

  type Disk = map<nat, FileBits.Block>

  /** Block numbers: the whole file system, its bitmap, and where the data blocks begin. */
  datatype Layout = Layout(size: nat, bmapstart: nat, dataStart: nat)

  /** In-memory inodes: block addresses (the last is the indirect block) and size in bytes. */
  datatype Inode = Inode(addrs: seq<int>, size: int)

  type Inodes = map<nat, Inode>

  predicate LayoutOk(lay: Layout) {
    && 0 < lay.bmapstart && lay.dataStart <= lay.size <= FileBits.UINT
    && lay.bmapstart + (lay.size + FileBits.BPB - 1) / FileBits.BPB <= lay.dataStart
  }

  ghost predicate DiskOk(lay: Layout, d: Disk) {
    LayoutOk(lay) && forall b: nat :: (b in d <==> b < lay.size) && (b in d ==> FileBits.BlockOk(d[b]))
  }

  ghost predicate InodesOk(ino: Inodes) {
    forall i :: i in ino ==> |ino[i].addrs| == FileBits.NDIRECT + 1 && 0 <= ino[i].size <= FileBits.MAXFILE * FileBits.BSIZE
  }

  lemma HasMetadata(lay: Layout, d: Disk)
    requires DiskOk(lay, d)
    ensures LayoutOk(lay) && 0 < lay.dataStart
  {
  }

  // ---- The bitmap ----

  function BitmapBlock(lay: Layout, b: nat): nat {
    b / FileBits.BPB + lay.bmapstart
  }

  lemma BitmapBlockIsMeta(lay: Layout, b: nat)
    requires LayoutOk(lay) && b < lay.size
    ensures BitmapBlock(lay, b) < lay.dataStart
  {
  }

  ghost predicate Used(lay: Layout, d: Disk, b: nat)
    requires DiskOk(lay, d) && b < lay.size
  {
    BitmapBlockIsMeta(lay, b);
    FileBits.BlockBit(d[BitmapBlock(lay, b)], b % FileBits.BPB)
  }

  ghost function PutUsed(lay: Layout, d: Disk, b: nat, on: bool): Disk
    requires DiskOk(lay, d) && b < lay.size
  {
    BitmapBlockIsMeta(lay, b);
    d[BitmapBlock(lay, b) := FileBits.PutBlockBit(d[BitmapBlock(lay, b)], b % FileBits.BPB, on)]
  }

  lemma PutUsedOk(lay: Layout, d: Disk, b: nat, on: bool)
    requires DiskOk(lay, d) && b < lay.size
    ensures DiskOk(lay, PutUsed(lay, d, b, on))
    ensures forall q :: q in d && q >= lay.dataStart ==> PutUsed(lay, d, b, on)[q] == d[q]
  {
    BitmapBlockIsMeta(lay, b);
    FileBits.PutBlockBitAt(d[BitmapBlock(lay, b)], b % FileBits.BPB, on, 0);
  }

  /** Marking one block leaves every other mark alone. */
  lemma PutUsedAt(lay: Layout, d: Disk, b: nat, on: bool, c: nat)
    requires DiskOk(lay, d) && b < lay.size && c < lay.size
    ensures DiskOk(lay, PutUsed(lay, d, b, on))
    ensures Used(lay, PutUsed(lay, d, b, on), c) <==> if c == b then on else Used(lay, d, c)
  {
    PutUsedOk(lay, d, b, on);
    BitmapBlockIsMeta(lay, b);
    BitmapBlockIsMeta(lay, c);
    FileBits.PutBlockBitAt(d[BitmapBlock(lay, b)], b % FileBits.BPB, on, c % FileBits.BPB);
  }

  /** The bitmap is in blocks that `d'` has in common with `d`. */
  lemma UsedFrame(lay: Layout, d: Disk, d': Disk, c: nat)
    requires DiskOk(lay, d) && DiskOk(lay, d') && c < lay.size
    requires forall q: nat :: q < lay.dataStart ==> q in d && q in d' && d'[q] == d[q]
    ensures Used(lay, d', c) <==> Used(lay, d, c)
  {
    BitmapBlockIsMeta(lay, c);
  }

  // ---- Slots: the places that hold block addresses ----

  datatype Slot = Addr(inum: nat, k: nat) | Entry(inum: nat, j: nat)

  /** The address held in a slot; 0 where there is none. */
  ghost function Value(d: Disk, ino: Inodes, s: Slot): int {
    match s
    case Addr(i, k) => AddrOf(ino, i, k)
    case Entry(i, j) => EntryOf(d, AddrOf(ino, i, FileBits.NDIRECT), j)
  }

  ghost function AddrOf(ino: Inodes, i: nat, k: nat): int {
    if i in ino && k < |ino[i].addrs| then ino[i].addrs[k] else 0
  }

  ghost function EntryOf(d: Disk, a: int, j: nat): int {
    if a > 0 && a in d && |d[a]| == FileBits.BSIZE && j < FileBits.NINDIRECT then FileBits.Word(d[a], j) else 0
  }

  /** The slot of the `bn`-th block of a file. */
  function SlotFor(inum: nat, bn: nat): Slot {
    if bn < FileBits.NDIRECT then Addr(inum, bn) else Entry(inum, bn - FileBits.NDIRECT)
  }

  lemma SlotsOfAFile(i: nat, m: nat, j: nat, n: nat)
    ensures SlotFor(i, m) == SlotFor(j, n) <==> i == j && m == n
    ensures SlotFor(i, m) != Addr(j, FileBits.NDIRECT)
  {
  }

  /** Entries of file `who` that have been freed but not yet forgotten. */
  predicate Freed(who: nat, freed: nat, s: Slot) {
    s.Entry? && s.inum == who && s.j < freed
  }

  /** The bitmap marks the metadata blocks and the owned blocks; a block is owned by the one slot
      that holds its address, so that no block belongs to two files or twice to one. */
  ghost predicate Owned(lay: Layout, d: Disk, ino: Inodes, owner: map<nat, Slot>, who: nat, freed: nat)
    requires DiskOk(lay, d)
  {
    && (forall b :: b in owner ==> lay.dataStart <= b < lay.size && Value(d, ino, owner[b]) == b && !Freed(who, freed, owner[b]))
    && (forall s :: !Freed(who, freed, s) && Value(d, ino, s) != 0 ==> Held(d, ino, owner, s))
    && (forall b :: 0 <= b < lay.size ==> (Used(lay, d, b) <==> b < lay.dataStart || b in owner))
  }

  ghost predicate Held(d: Disk, ino: Inodes, owner: map<nat, Slot>, s: Slot) {
    Value(d, ino, s) > 0 && Value(d, ino, s) in owner && owner[Value(d, ino, s)] == s
  }

  lemma OwnedAt(lay: Layout, d: Disk, ino: Inodes, owner: map<nat, Slot>, who: nat, freed: nat, b: nat)
    requires DiskOk(lay, d) && Owned(lay, d, ino, owner, who, freed) && b in owner
    ensures lay.dataStart <= b < lay.size && b in d && FileBits.BlockOk(d[b])
    ensures Value(d, ino, owner[b]) == b && !Freed(who, freed, owner[b]) && Used(lay, d, b)
  {
  }

  lemma HeldAt(lay: Layout, d: Disk, ino: Inodes, owner: map<nat, Slot>, who: nat, freed: nat, s: Slot)
    requires DiskOk(lay, d) && Owned(lay, d, ino, owner, who, freed) && !Freed(who, freed, s) && Value(d, ino, s) != 0
    ensures var a := Value(d, ino, s);
            && a > 0 && a in owner && owner[a] == s && lay.dataStart <= a < lay.size && a in d && FileBits.BlockOk(d[a])
            && Used(lay, d, a)
  {
    var a := Value(d, ino, s);
    assert Held(d, ino, owner, s);
    OwnedAt(lay, d, ino, owner, who, freed, a);
  }

  /** Every block below the size of a file exists. */
  ghost predicate Backed(d: Disk, ino: Inodes) {
    forall i, bn: nat :: i in ino && bn * FileBits.BSIZE < ino[i].size ==> Value(d, ino, SlotFor(i, bn)) != 0
  }

  lemma BackedAt(d: Disk, ino: Inodes, i: nat, bn: nat)
    requires Backed(d, ino) && i in ino && bn * FileBits.BSIZE < ino[i].size
    ensures Value(d, ino, SlotFor(i, bn)) != 0
  {
  }

  // ---- The bytes of a file ----

  /** The byte of file `inum` at offset `i`; 0 where the file has no block. */
  ghost function FileByte(d: Disk, ino: Inodes, inum: nat, i: nat): int {
    ByteOf(d, Value(d, ino, SlotFor(inum, i / FileBits.BSIZE)), i % FileBits.BSIZE)
  }

  ghost function ByteOf(d: Disk, a: int, at: nat): int {
    if a > 0 && a in d && at < |d[a]| then d[a][at] else 0
  }

  ghost function Content(d: Disk, ino: Inodes, inum: nat): (c: seq<int>)
    requires inum in ino && ino[inum].size >= 0
    ensures |c| == ino[inum].size && forall i :: 0 <= i < |c| ==> c[i] == FileByte(d, ino, inum, i)
  {
    seq(ino[inum].size, i requires 0 <= i => FileByte(d, ino, inum, i))
  }

  ghost predicate SameBytes(d: Disk, ino: Inodes, d': Disk, ino': Inodes, inum: nat) {
    forall i: nat :: FileByte(d', ino', inum, i) == FileByte(d, ino, inum, i)
  }

  /** Same files, same sizes, same bytes. */
  ghost predicate SameFiles(d: Disk, ino: Inodes, d': Disk, ino': Inodes) {
    && ino'.Keys == ino.Keys
    && forall i :: i in ino ==> ino'[i].size == ino[i].size && SameBytes(d, ino, d', ino', i)
  }

  // ---- Allocating a block to a slot ----

  ghost predicate ValuesAfter(d: Disk, ino: Inodes, d': Disk, ino': Inodes, slot: Slot, v: int) {
    forall s :: Value(d', ino', s) == if s == slot then v else Value(d, ino, s)
  }

  lemma OwnedAfterAlloc(lay: Layout, d: Disk, ino: Inodes, owner: map<nat, Slot>, slot: Slot, r: nat, d': Disk, ino': Inodes)
    requires DiskOk(lay, d) && DiskOk(lay, d') && Owned(lay, d, ino, owner, 0, 0)
    requires Value(d, ino, slot) == 0 && ValuesAfter(d, ino, d', ino', slot, r)
    requires lay.dataStart <= r < lay.size && r !in owner
    requires forall c :: 0 <= c < lay.size ==> (Used(lay, d', c) <==> c == r || Used(lay, d, c))
    ensures Owned(lay, d', ino', owner[r := slot], 0, 0)
  {
    hide Used, Value, DiskOk;
    HasMetadata(lay, d);
    var owner' := owner[r := slot];
    forall b | b in owner ensures owner[b] != slot && Value(d', ino', owner[b]) == b {
      OwnedAt(lay, d, ino, owner, 0, 0, b);
    }
    forall s | Value(d', ino', s) != 0 && !Freed(0, 0, s) ensures Held(d', ino', owner', s) {
      if s != slot {
        assert Held(d, ino, owner, s);
      }
    }
  }

  lemma BackedAfterAlloc(d: Disk, ino: Inodes, slot: Slot, r: nat, d': Disk, ino': Inodes)
    requires Backed(d, ino) && ValuesAfter(d, ino, d', ino', slot, r) && r != 0
    requires ino'.Keys == ino.Keys && forall i :: i in ino ==> ino'[i].size == ino[i].size
    ensures Backed(d', ino')
  {
  }

  /** A zeroed block put where there was none changes no byte of any file. */
  lemma BytesAfterAlloc(lay: Layout, d: Disk, ino: Inodes, owner: map<nat, Slot>, slot: Slot, r: nat, d': Disk, ino': Inodes,
                        ind: int, i: nat)
    requires DiskOk(lay, d) && DiskOk(lay, d') && Owned(lay, d, ino, owner, 0, 0)
    requires Value(d, ino, slot) == 0 && ValuesAfter(d, ino, d', ino', slot, r)
    requires lay.dataStart <= r < lay.size && r !in owner && d'[r] == FileBits.Zeros()
    requires ind > 0 ==> ind in owner && exists k :: owner[ind] == Addr(k, FileBits.NDIRECT)
    requires forall b :: b in d && b >= lay.dataStart && b != r && b != ind ==> d'[b] == d[b]
    ensures SameBytes(d, ino, d', ino', i)
  {
    hide Used, Value;
    forall o: nat ensures FileByte(d', ino', i, o) == FileByte(d, ino, i, o) {
      var s := SlotFor(i, o / FileBits.BSIZE);
      HasMetadata(lay, d);
      if s != slot && Value(d, ino, s) != 0 {
        HeldAt(lay, d, ino, owner, 0, 0, s);
        SlotsOfAFile(i, o / FileBits.BSIZE, if ind > 0 then owner[ind].inum else 0, 0);
      }
    }
  }

  // ---- Taking a block from a slot ----

  lemma OwnedAfterFree(lay: Layout, d: Disk, ino: Inodes, owner: map<nat, Slot>, who: nat, freed: nat, b: nat,
                       d': Disk, ino': Inodes, freed': nat)
    requires DiskOk(lay, d) && DiskOk(lay, d') && Owned(lay, d, ino, owner, who, freed) && b in owner
    requires forall s :: !Freed(who, freed', s) && Value(d', ino', s) != 0 ==>
                           s != owner[b] && !Freed(who, freed, s) && Value(d', ino', s) == Value(d, ino, s)
    requires forall c :: c in owner && c != b ==> !Freed(who, freed', owner[c]) && Value(d', ino', owner[c]) == c
    requires forall c :: 0 <= c < lay.size ==> (Used(lay, d', c) <==> c != b && Used(lay, d, c))
    ensures Owned(lay, d', ino', owner - {b}, who, freed')
  {
    hide Used, Value, DiskOk, Freed;
    OwnedAt(lay, d, ino, owner, who, freed, b);
    forall s | !Freed(who, freed', s) && Value(d', ino', s) != 0 ensures Held(d', ino', owner - {b}, s) {
      assert Held(d, ino, owner, s);
    }
  }
}
