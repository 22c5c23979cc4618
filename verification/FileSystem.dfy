/** Block allocation, the block map of an inode, truncation, and reading and writing files. */
module FileSystem {
  import opened FileBits
  import opened FileBlocks
  import opened FileUpdates
  import FileLaws

  function Min(a: nat, b: nat): nat { if a < b then a else b }

  /** `f` with `data` put at `off`, longer if need be. */
  function Overwritten(f: seq<int>, off: nat, data: seq<int>): seq<int>
    requires off <= |f|
  {
    f[..off] + data + if off + |data| < |f| then f[off + |data|..] else []
  }

  lemma SameBitmapBlock(lay: Layout, d: Disk, b: nat, bi: nat)
    requires DiskOk(lay, d) && b % BPB == 0 && bi < BPB && b + bi < lay.size
    ensures BitmapBlock(lay, b) in d && BlockOk(d[BitmapBlock(lay, b)])
    ensures Used(lay, d, b + bi) <==> BlockBit(d[BitmapBlock(lay, b)], bi)
    ensures PutUsed(lay, d, b + bi, true) == d[BitmapBlock(lay, b) := PutBlockBit(d[BitmapBlock(lay, b)], bi, true)]
  {
    BitmapBlockIsMeta(lay, b);
    assert (b + bi) / BPB == b / BPB && (b + bi) % BPB == bi;
  }

  lemma MetadataUsed(lay: Layout, d: Disk, ino: Inodes, owner: map<nat, Slot>)
    requires Sound(lay, d, ino, owner)
    ensures forall b: nat :: b < lay.dataStart ==> Used(lay, d, b)
  {
  }

  lemma FilesSelf(d: Disk, ino: Inodes)
    ensures SameFiles(d, ino, d, ino)
  {
  }

  /** Blocks already owned keep their owner; the new ones belong to file `inum`. */
  ghost predicate OwnersGrown(o: map<nat, Slot>, o': map<nat, Slot>, inum: nat) {
    && (forall b :: b in o ==> b in o' && o'[b] == o[b])
    && (forall b :: b in o' && b !in o ==> o'[b].inum == inum)
  }

  lemma OwnerAdded(lay: Layout, d: Disk, ino: Inodes, owner: map<nat, Slot>, r: nat, s: Slot)
    requires Sound(lay, d, ino, owner) && r < lay.size && !Used(lay, d, r)
    ensures OwnersGrown(owner, owner[r := s], s.inum)
  {
  }

  lemma FilesTrans(d0: Disk, i0: Inodes, d1: Disk, i1: Inodes, d2: Disk, i2: Inodes)
    requires SameFiles(d0, i0, d1, i1) && SameFiles(d1, i1, d2, i2)
    ensures SameFiles(d0, i0, d2, i2)
  {
    hide FileByte;
    forall i | i in i0 ensures SameBytes(d0, i0, d2, i2, i) {
      assert SameBytes(d0, i0, d1, i1, i) && SameBytes(d1, i1, d2, i2, i);
    }
  }

  lemma SlotBlock(lay: Layout, d: Disk, ino: Inodes, owner: map<nat, Slot>, inum: nat, bn: nat)
    requires Sound(lay, d, ino, owner) && Value(d, ino, SlotFor(inum, bn)) != 0
    ensures var a := Value(d, ino, SlotFor(inum, bn)); a > 0 && a in d && BlockOk(d[a])
  {
    HeldAt(lay, d, ino, owner, 0, 0, SlotFor(inum, bn));
  }

  lemma EntryInIndex(lay: Layout, d: Disk, ino: Inodes, owner: map<nat, Slot>, inum: nat, j: nat)
    requires Sound(lay, d, ino, owner) && j < NINDIRECT && AddrOf(ino, inum, NDIRECT) != 0
    ensures var a := AddrOf(ino, inum, NDIRECT);
            && a > 0 && a in d && |d[a]| == BSIZE && BlockOk(d[a])
            && Word(d[a], j) == Value(d, ino, Entry(inum, j)) && 0 <= Word(d[a], j)
  {
    IndexBlock(lay, d, ino, owner, inum);
    WordRange(d[AddrOf(ino, inum, NDIRECT)], j);
  }

  lemma AddrsAre(d: Disk, ino: Inodes, inum: nat)
    requires InodesOk(ino) && inum in ino
    ensures |ino[inum].addrs| == NDIRECT + 1
    ensures forall k :: 0 <= k <= NDIRECT ==> ino[inum].addrs[k] == AddrOf(ino, inum, k) == Value(d, ino, Addr(inum, k))
  {
  }

  lemma AddrNotNegative(lay: Layout, d: Disk, ino: Inodes, owner: map<nat, Slot>, s: Slot)
    requires Sound(lay, d, ino, owner)
    ensures 0 <= Value(d, ino, s)
  {
    if Value(d, ino, s) != 0 {
      HeldAt(lay, d, ino, owner, 0, 0, s);
    }
  }

  /** All blocks below an offset exist. */
  ghost predicate BackedTo(d: Disk, ino: Inodes, inum: nat, off: nat) {
    forall bn: nat :: bn * BSIZE < off ==> Value(d, ino, SlotFor(inum, bn)) != 0
  }

  lemma BackedToSize(d: Disk, ino: Inodes, inum: nat, off: nat)
    requires Backed(d, ino) && inum in ino && off <= ino[inum].size
    ensures BackedTo(d, ino, inum, off)
  {
  }

  lemma ValueKept(lay: Layout, d: Disk, ino: Inodes, owner: map<nat, Slot>, d': Disk, ino': Inodes, owner': map<nat, Slot>,
                  inum: nat, s: Slot)
    requires Sound(lay, d, ino, owner) && Sound(lay, d', ino', owner') && OwnersGrown(owner, owner', inum)
    requires Value(d, ino, s) != 0
    ensures Value(d', ino', s) == Value(d, ino, s)
  {
    hide Used, Value;
    HeldAt(lay, d, ino, owner, 0, 0, s);
    OwnedAt(lay, d', ino', owner', 0, 0, Value(d, ino, s));
  }

  lemma BackedKept(lay: Layout, d: Disk, ino: Inodes, owner: map<nat, Slot>, d': Disk, ino': Inodes, owner': map<nat, Slot>,
                   inum: nat, off: nat)
    requires Sound(lay, d, ino, owner) && Sound(lay, d', ino', owner') && OwnersGrown(owner, owner', inum)
    requires BackedTo(d, ino, inum, off)
    ensures BackedTo(d', ino', inum, off)
  {
    hide Used, Value, Sound, OwnersGrown;
    forall bn: nat | bn * BSIZE < off ensures Value(d', ino', SlotFor(inum, bn)) != 0 {
      ValueKept(lay, d, ino, owner, d', ino', owner', inum, SlotFor(inum, bn));
    }
  }

  /** A chunk that ends in block `off / BSIZE` needs only that block besides the earlier ones. */
  lemma BackedMore(lay: Layout, d: Disk, ino: Inodes, owner: map<nat, Slot>, d1: Disk, d': Disk, ino': Inodes,
                   owner': map<nat, Slot>, inum: nat, off: nat, m: nat)
    requires Sound(lay, d, ino, owner) && Sound(lay, d', ino', owner') && Sound(lay, d1, ino', owner')
    requires OwnersGrown(owner, owner', inum)
    requires BackedTo(d, ino, inum, off) && m <= BSIZE - off % BSIZE && Value(d1, ino', SlotFor(inum, off / BSIZE)) != 0
    ensures BackedTo(d', ino', inum, off + m)
  {
    hide Used, Value, Sound, OwnersGrown;
    BackedKept(lay, d, ino, owner, d', ino', owner', inum, off);
    OwnersSame(owner', inum);
    ValueKept(lay, d1, ino', owner', d', ino', owner', inum, SlotFor(inum, off / BSIZE));
    forall bn: nat | bn * BSIZE < off + m && !(bn * BSIZE < off) ensures bn == off / BSIZE {
    }
  }

  lemma ChunkInBlock(off: nat, left: nat)
    requires left > 0 && off + left <= MAXFILE * BSIZE
    ensures off / BSIZE < MAXFILE && off == off / BSIZE * BSIZE + off % BSIZE && off % BSIZE < BSIZE
  {
  }

  lemma BytesOfSlice(src: seq<int>, tot: nat, w: nat)
    requires Bytes(src) && tot + w <= |src|
    ensures Bytes(src[tot..tot + w])
  {
  }

  lemma OwnersSame(o: map<nat, Slot>, inum: nat)
    ensures OwnersGrown(o, o, inum)
  {
  }

  lemma OwnersTrans(o0: map<nat, Slot>, o1: map<nat, Slot>, o2: map<nat, Slot>, inum: nat)
    requires OwnersGrown(o0, o1, inum) && OwnersGrown(o1, o2, inum)
    ensures OwnersGrown(o0, o2, inum)
  {
  }

  function Resized(ino: Inodes, inum: nat, size: nat): Inodes
    requires inum in ino
  {
    ino[inum := Inode(ino[inum].addrs, size)]
  }

  lemma ValuesResized(d: Disk, ino: Inodes, inum: nat, size: nat)
    requires inum in ino
    ensures forall s :: Value(d, Resized(ino, inum, size), s) == Value(d, ino, s)
  {
  }

  lemma OwnedResized(lay: Layout, d: Disk, ino: Inodes, owner: map<nat, Slot>, ino': Inodes)
    requires DiskOk(lay, d) && Owned(lay, d, ino, owner, 0, 0)
    requires forall s :: Value(d, ino', s) == Value(d, ino, s)
    ensures Owned(lay, d, ino', owner, 0, 0)
  {
    hide Used, Value;
    forall s | !Freed(0, 0, s) && Value(d, ino', s) != 0 ensures Held(d, ino', owner, s) {
      assert Held(d, ino, owner, s);
    }
  }

  lemma WrittenThen(d0: Disk, ino0: Inodes, inum: nat, off: nat, data: seq<int>, d: Disk, ino: Inodes,
                    more: seq<int>, d': Disk, ino': Inodes)
    requires Written(d0, ino0, inum, off, data, d, ino) && Written(d, ino, inum, off + |data|, more, d', ino')
    ensures Written(d0, ino0, inum, off, data + more, d', ino')
  {
    hide FileByte;
  }

  lemma WrittenSizes(d0: Disk, ino0: Inodes, inum: nat, off: nat, data: seq<int>, d: Disk, ino: Inodes)
    requires Written(d0, ino0, inum, off, data, d, ino) && inum in ino0
    ensures inum in ino && ino[inum].size == ino0[inum].size
  {
  }

  /** File `inum` has grown to hold offset `off + r`; `data` (at least those `r` bytes) shows up at
      `off`, every other byte of the file and every other file is as before. */
  ghost predicate FileWritten(d0: Disk, ino0: Inodes, inum: nat, off: nat, data: seq<int>, r: nat, d: Disk, ino: Inodes) {
    && inum in ino0 && ino.Keys == ino0.Keys && ino0[inum].size >= off && r <= |data|
    && ino[inum].size == (if off + r > ino0[inum].size then off + r else ino0[inum].size)
    && (|data| == r ==> Content(d, ino, inum) == Overwritten(Content(d0, ino0, inum), off, data))
    && (forall o: nat :: o < ino[inum].size ==> FileByte(d, ino, inum, o) == WrittenByte(d0, ino0, inum, off, data, inum, o))
    && (forall i :: i in ino0 && i != inum && ino0[i].size >= 0 ==> ino[i].size == ino0[i].size && Content(d, ino, i) == Content(d0, ino0, i))
  }

  lemma FileWrittenIs(d0: Disk, ino0: Inodes, inum: nat, off: nat, data: seq<int>, r: nat, d: Disk, ino: Inodes, ino': Inodes)
    requires inum in ino0 && ino0[inum].size >= off && r <= |data|
    requires Written(d0, ino0, inum, off, data, d, ino)
    requires ino' == if off + r > ino[inum].size then Resized(ino, inum, off + r) else ino
    ensures FileWritten(d0, ino0, inum, off, data, r, d, ino')
  {
    hide WrittenByte, Value;
    if off + r > ino[inum].size {
      ValuesResized(d, ino, inum, off + r);
    }
    forall i, o: nat ensures FileByte(d, ino', i, o) == FileByte(d, ino, i, o) {
    }
    forall i, o: nat | i in ino0 ensures FileByte(d, ino', i, o) == WrittenByte(d0, ino0, inum, off, data, i, o) {
    }
    ContentWritten(d0, ino0, inum, off, data, r, d, ino');
  }

  lemma ContentWritten(d0: Disk, ino0: Inodes, inum: nat, off: nat, data: seq<int>, r: nat, d: Disk, ino: Inodes)
    requires inum in ino0 && ino.Keys == ino0.Keys && ino0[inum].size >= off && r <= |data|
    requires ino[inum].size == if off + r > ino0[inum].size then off + r else ino0[inum].size
    requires forall i :: i in ino0 && i != inum ==> ino[i].size == ino0[i].size
    requires forall i, o: nat :: i in ino0 ==> FileByte(d, ino, i, o) == WrittenByte(d0, ino0, inum, off, data, i, o)
    ensures |data| == r ==> Content(d, ino, inum) == Overwritten(Content(d0, ino0, inum), off, data)
    ensures forall i :: i in ino0 && i != inum && ino0[i].size >= 0 ==> Content(d, ino, i) == Content(d0, ino0, i)
  {
    hide FileByte;
    forall i | i in ino0 && i != inum && ino0[i].size >= 0 ensures Content(d, ino, i) == Content(d0, ino0, i) {
    }
  }

  lemma SizesOk(lay: Layout, d: Disk, ino: Inodes, owner: map<nat, Slot>)
    requires Sound(lay, d, ino, owner)
    ensures forall i :: i in ino ==> 0 <= ino[i].size <= MAXFILE * BSIZE
  {
  }

  lemma ContentSize(d: Disk, ino: Inodes, inum: nat)
    requires inum in ino && ino[inum].size >= 0
    ensures |Content(d, ino, inum)| == ino[inum].size
  {
  }

  lemma SameBlockByte(off: nat, i: nat)
    requires i < BSIZE - off % BSIZE
    ensures (off + i) / BSIZE == off / BSIZE && (off + i) % BSIZE == off % BSIZE + i
  {
  }

  lemma TruncatingFacts(lay: Layout, d0: Disk, ino0: Inodes, owner0: map<nat, Slot>, inum: nat,
                        d: Disk, ino: Inodes, owner: map<nat, Slot>, k: nat, freed: nat)
    requires Truncating(lay, d0, ino0, owner0, inum, d, ino, owner, k, freed)
    ensures DiskOk(lay, d) && InodesOk(ino) && inum in ino && inum in ino0 && ino.Keys == ino0.Keys
    ensures forall i :: i in ino && i != inum ==> ino[i] == ino0[i]
    ensures forall b :: b in owner ==> b in owner0 && owner[b] == owner0[b]
  {
  }

  lemma TruncatingAddr(lay: Layout, d0: Disk, ino0: Inodes, owner0: map<nat, Slot>, inum: nat,
                       d: Disk, ino: Inodes, owner: map<nat, Slot>, k: nat, freed: nat, m: nat)
    requires Truncating(lay, d0, ino0, owner0, inum, d, ino, owner, k, freed) && m <= NDIRECT
    ensures m < |ino[inum].addrs| && ino[inum].addrs[m] == AddrOf(ino, inum, m) >= 0
  {
    hide Used, Value;
    AddrValue(d, ino, inum, m);
    if AddrOf(ino, inum, m) != 0 {
      HeldAt(lay, d, ino, owner, inum, freed, Addr(inum, m));
    }
  }

  lemma TruncatingEntry(lay: Layout, d0: Disk, ino0: Inodes, owner0: map<nat, Slot>, inum: nat,
                        d: Disk, ino: Inodes, owner: map<nat, Slot>, j: nat)
    requires Truncating(lay, d0, ino0, owner0, inum, d, ino, owner, NDIRECT, j) && j < NINDIRECT
    requires AddrOf(ino, inum, NDIRECT) != 0
    ensures var a := AddrOf(ino, inum, NDIRECT);
            a > 0 && a in d && |d[a]| == BSIZE && 0 <= Word(d[a], j) == Value(d, ino, Entry(inum, j))
  {
    hide Used;
    HeldAt(lay, d, ino, owner, inum, j, Addr(inum, NDIRECT));
    WordRange(d[AddrOf(ino, inum, NDIRECT)], j);
  }

  lemma DirectAbsent(lay: Layout, d0: Disk, ino0: Inodes, owner0: map<nat, Slot>, inum: nat,
                     d: Disk, ino: Inodes, owner: map<nat, Slot>, k: nat)
    requires Truncating(lay, d0, ino0, owner0, inum, d, ino, owner, k, 0) && AddrOf(ino, inum, k) == 0
    ensures Truncating(lay, d0, ino0, owner0, inum, d, ino, owner, k + 1, 0)
  {
    hide Owned, DiskOk;
  }

  lemma UsedAfterTruncation(lay: Layout, d0: Disk, ino0: Inodes, owner0: map<nat, Slot>, d: Disk, ino: Inodes,
                            owner: map<nat, Slot>, inum: nat)
    requires Sound(lay, d0, ino0, owner0) && Sound(lay, d, ino, owner)
    requires forall b :: b in owner <==> b in owner0 && owner0[b].inum != inum
    ensures forall b: nat :: b < lay.size ==>
              (Used(lay, d, b) <==> Used(lay, d0, b) && !(b in owner0 && owner0[b].inum == inum))
  {
    hide Used, Value;
  }

  /** Reading back what was written gives the data, and the bytes around it are untouched. */
  lemma ReadBack(f: seq<int>, off: nat, data: seq<int>)
    requires off <= |f|
    ensures var g := Overwritten(f, off, data);
            && |g| == (if off + |data| > |f| then off + |data| else |f|)
            && g[off..off + |data|] == data
            && (forall i :: 0 <= i < |f| && !(off <= i < off + |data|) ==> g[i] == f[i])
  {
  }

  /** Two writes, the second where the first ended, are one write. */
  lemma WritesJoin(f: seq<int>, off: nat, a: seq<int>, b: seq<int>)
    requires off <= |f|
    ensures off + |a| <= |Overwritten(f, off, a)|
    ensures Overwritten(Overwritten(f, off, a), off + |a|, b) == Overwritten(f, off, a + b)
  {
    var x, y := Overwritten(Overwritten(f, off, a), off + |a|, b), Overwritten(f, off, a + b);
    assert |x| == |y|;
    assert forall i :: 0 <= i < |x| ==> x[i] == y[i];
  }

  // ---- An empty file system ----

  function NoFiles(inums: set<nat>): Inodes {
    map i | i in inums :: Inode(seq(NDIRECT + 1, _ => 0), 0)
  }

  /** Of the blocks, exactly those below `n` are marked. */
  ghost predicate MarkedBelow(lay: Layout, d: Disk, n: nat)
    requires DiskOk(lay, d)
  {
    forall b: nat :: b < lay.size ==> (Used(lay, d, b) <==> b < n)
  }

  /** What every block holds at first, whatever its number. */
  function ZeroBlock(b: nat): Block {
    Zeros()
  }

  function ZeroBlocks(n: nat): (d: Disk)
    ensures forall b: nat :: (b in d <==> b < n) && (b in d ==> d[b] == Zeros())
  {
    map b: nat | b < n :: ZeroBlock(b)
  }

  lemma ZeroDisk(lay: Layout)
    requires LayoutOk(lay)
    ensures DiskOk(lay, ZeroBlocks(lay.size)) && MarkedBelow(lay, ZeroBlocks(lay.size), 0)
  {
    var d := ZeroBlocks(lay.size);
    forall b: nat | b < lay.size ensures !Used(lay, d, b) {
      BitmapBlockIsMeta(lay, b);
      ZeroBits(b % BPB);
    }
  }

  lemma ZeroBits(i: nat)
    requires i < BPB
    ensures !BlockBit(Zeros(), i)
  {
    ZeroByteBit(i % 8);
  }

  lemma {:induction false} ZeroByteBit(k: nat)
    ensures !ByteBit(0, k)
  {
    if k > 0 {
      ZeroByteBit(k - 1);
    }
  }

  lemma MarkNext(lay: Layout, d: Disk, b: nat)
    requires DiskOk(lay, d) && MarkedBelow(lay, d, b) && b < lay.size
    ensures DiskOk(lay, PutUsed(lay, d, b, true)) && MarkedBelow(lay, PutUsed(lay, d, b, true), b + 1)
  {
    hide Used;
    PutUsedOk(lay, d, b, true);
    forall c: nat | c < lay.size ensures Used(lay, PutUsed(lay, d, b, true), c) <==> c < b + 1 {
      PutUsedAt(lay, d, b, true, c);
    }
  }

  lemma EmptySound(lay: Layout, d: Disk, inums: set<nat>)
    requires DiskOk(lay, d) && MarkedBelow(lay, d, lay.dataStart)
    ensures Sound(lay, d, NoFiles(inums), map[])
  {
    hide Used;
    var ino := NoFiles(inums);
    forall s ensures Value(d, ino, s) == 0 {
    }
  }

  /** The file system as held in the buffer cache: disk blocks, in-memory inodes and their copies on
      disk. Ghost `owner` names, for every block in use, the slot that holds its address. */
  class FileStore {
    const lay: Layout
    var disk: Disk
    var inodes: Inodes
    var dinodes: Inodes
    ghost var owner: map<nat, Slot>

    ghost predicate Valid()
      reads this
    {
      Sound(lay, disk, inodes, owner)
    }

    /** An empty file system: all blocks zero but for the bitmap, which marks the metadata, and empty files. */
    constructor (lay: Layout, inums: set<nat>)
      requires LayoutOk(lay)
      ensures Valid() && this.lay == lay && inodes == NoFiles(inums) && dinodes == inodes && owner == map[]
      ensures DiskOk(lay, disk) && forall b: nat :: b < lay.size ==> (Used(lay, disk, b) <==> b < lay.dataStart)
    {
      this.lay := lay;
      disk := ZeroBlocks(lay.size);
      inodes, dinodes, owner := NoFiles(inums), NoFiles(inums), map[];
      new;
      ZeroDisk(lay);
      var b: nat := 0;
      while b < lay.dataStart
        invariant b <= lay.dataStart && this.lay == lay && inodes == dinodes == NoFiles(inums) && owner == map[]
        invariant DiskOk(lay, disk) && MarkedBelow(lay, disk, b)
      {
        hide Used;
        ghost var before := disk;
        BitmapBlockIsMeta(lay, b);
        MarkNext(lay, disk, b);
        disk := disk[BitmapBlock(lay, b) := PutBlockBit(disk[BitmapBlock(lay, b)], b % BPB, true)];
        assert disk == PutUsed(lay, before, b, true);
        b := b + 1;
      }
      EmptySound(lay, disk, inums);
    }

    method Bzero(b: nat)
      requires DiskOk(lay, disk) && b < lay.size
      modifies this`disk
      ensures disk == old(disk)[b := Zeros()]
    {
      disk := disk[b := Zeros()];
    }

    /** Allocate the first free block, zeroed; 0 if there is none. */
    method Balloc() returns (r: nat)
      requires DiskOk(lay, disk) && forall b: nat :: b < lay.dataStart ==> Used(lay, disk, b)
      modifies this`disk
      ensures r == 0 ==> disk == old(disk) && Full(lay, disk)
      ensures r != 0 ==>
                && lay.dataStart <= r < lay.size && !Used(lay, old(disk), r) && (forall b: nat :: b < r ==> Used(lay, old(disk), b))
                && disk == WithBlock(lay, old(disk), r)
    {
      hide Used, BlockBit, PutBlockBit, BlockOk;
      var b := 0;
      while b < lay.size
        invariant b % BPB == 0 && disk == old(disk)
        invariant forall c: nat :: c < b && c < lay.size ==> Used(lay, disk, c)
      {
        BitmapBlockIsMeta(lay, b);
        var block := disk[BitmapBlock(lay, b)];
        var bi := 0;
        while bi < BPB && b + bi < lay.size
          invariant 0 <= bi <= BPB && disk == old(disk)
          invariant forall c: nat :: c < b + bi && c < lay.size ==> Used(lay, disk, c)
        {
          SameBitmapBlock(lay, disk, b, bi);
          if !BlockBit(block, bi) {
            disk := disk[BitmapBlock(lay, b) := PutBlockBit(block, bi, true)];
            PutUsedOk(lay, old(disk), b + bi, true);
            Bzero(b + bi);
            return b + bi;
          }
          bi := bi + 1;
        }
        b := b + BPB;
      }
      return 0;
    }

    /** Free a block. The source's panic on freeing a free block cannot occur for a block in use. */
    method Bfree(b: nat)
      requires DiskOk(lay, disk) && b < lay.size && Used(lay, disk, b)
      modifies this`disk
      ensures disk == WithoutBlock(lay, old(disk), b)
    {
      BitmapBlockIsMeta(lay, b);
      var block := disk[BitmapBlock(lay, b)];
      if !BlockBit(block, b % BPB) {
        assert false;
      }
      disk := disk[BitmapBlock(lay, b) := PutBlockBit(block, b % BPB, false)];
    }

    /** Allocate a block to an address slot of an inode. */
    method AllocAddr(inum: nat, k: nat) returns (addr: nat)
      requires Valid() && inum in inodes && k <= NDIRECT && AddrOf(inodes, inum, k) == 0
      modifies this`disk, this`inodes, this`owner
      ensures Valid() && SameFiles(old(disk), old(inodes), disk, inodes)
      ensures addr == 0 ==> Full(lay, disk)
      ensures AddrOf(inodes, inum, k) == addr && OwnersGrown(old(owner), owner, inum)
    {
      hide Used, WithBlock, Backed, SameBytes, Value, WithAddr;
      MetadataUsed(lay, disk, inodes, owner);
      FilesSelf(disk, inodes);
      addr := Balloc();
      if addr == 0 {
        return;
      }
      AddrAllocated(lay, old(disk), inodes, owner, inum, k, addr);
      OwnerAdded(lay, old(disk), inodes, owner, addr, Addr(inum, k));
      inodes := WithAddr(inodes, inum, k, addr);
      owner := owner[addr := Addr(inum, k)];
    }

    /** Allocate a block to an empty entry of the index block of a file. */
    method AllocEntry(inum: nat, ind: nat, j: nat) returns (addr: nat)
      requires Valid() && inum in inodes && j < NINDIRECT && ind == AddrOf(inodes, inum, NDIRECT) != 0
      requires Value(disk, inodes, Entry(inum, j)) == 0
      modifies this`disk, this`owner
      ensures Valid() && SameFiles(old(disk), old(inodes), disk, inodes)
      ensures addr == 0 ==> Full(lay, disk)
      ensures Value(disk, inodes, Entry(inum, j)) == addr && OwnersGrown(old(owner), owner, inum)
    {
      hide Used, WithBlock, Backed, SameBytes, Value, PutWord;
      MetadataUsed(lay, disk, inodes, owner);
      FilesSelf(disk, inodes);
      addr := Balloc();
      if addr == 0 {
        return;
      }
      EntryAllocated(lay, old(disk), inodes, owner, inum, j, addr);
      OwnerAdded(lay, old(disk), inodes, owner, addr, Entry(inum, j));
      WithBlockOk(lay, old(disk), addr);
      disk := disk[ind := PutWord(disk[ind], j, addr)];
      owner := owner[addr := Entry(inum, j)];
    }

    /** The block of a file, allocated if need be; 0 if the disk is full. The first NDIRECT addresses are in the
        inode, the others in the index block, whose address is the last in the inode. */
    method Bmap(inum: nat, bn: nat) returns (addr: nat)
      requires Valid() && inum in inodes && bn < MAXFILE
      modifies this`disk, this`inodes, this`owner
      ensures Valid() && SameFiles(old(disk), old(inodes), disk, inodes)
      ensures addr == Value(disk, inodes, SlotFor(inum, bn)) && OwnersGrown(old(owner), owner, inum)
      ensures inum in inodes && |inodes[inum].addrs| == NDIRECT + 1
      ensures bn < NDIRECT ==> addr == inodes[inum].addrs[bn]
      ensures bn >= NDIRECT && addr != 0 ==>
                var x, j := inodes[inum].addrs[NDIRECT], 4 * (bn - NDIRECT);
                && x > 0 && x in disk && j + 3 < |disk[x]|
                && addr == disk[x][j] + 256 * (disk[x][j + 1] + 256 * (disk[x][j + 2] + 256 * disk[x][j + 3]))
      ensures addr == 0 ==> Full(lay, disk)
      ensures old(Value(disk, inodes, SlotFor(inum, bn))) != 0 ==>
                disk == old(disk) && inodes == old(inodes) && owner == old(owner)
    {
      hide Used, Backed, SameBytes, Value, Word, AddrOf, Full;
      FilesSelf(disk, inodes);
      AddrsAre(disk, inodes, inum);
      if bn < NDIRECT {
        AddrNotNegative(lay, disk, inodes, owner, Addr(inum, bn));
        addr := inodes[inum].addrs[bn];
        if addr == 0 {
          addr := AllocAddr(inum, bn);
          AddrsAre(disk, inodes, inum);
        }
        FileLaws.BlockOfFile(lay, disk, inodes, owner, inum, bn);
        return;
      }
      AddrNotNegative(lay, disk, inodes, owner, Addr(inum, NDIRECT));
      addr := inodes[inum].addrs[NDIRECT];
      if addr == 0 {
        NoIndexNoEntry(disk, inodes, inum, bn - NDIRECT);
        addr := AllocAddr(inum, NDIRECT);
        if addr == 0 {
          NoIndexNoEntry(disk, inodes, inum, bn - NDIRECT);
          AddrsAre(disk, inodes, inum);
          return;
        }
      }
      label indexed:
      var ind := addr;
      EntryInIndex(lay, disk, inodes, owner, inum, bn - NDIRECT);
      addr := Word(disk[ind], bn - NDIRECT);
      if addr == 0 {
        addr := AllocEntry(inum, ind, bn - NDIRECT);
        FilesTrans(old(disk), old(inodes), old@indexed(disk), inodes, disk, inodes);
      }
      FileLaws.BlockOfFile(lay, disk, inodes, owner, inum, bn);
    }

    /** Copy source bytes into a block: as many of the `m` asked for as can be read. */
    method CopyIn(addr: nat, at: nat, src: seq<int>, tot: nat, m: nat) returns (ok: bool)
      requires addr in disk && at + m <= |disk[addr]| && tot <= |src|
      modifies this`disk
      ensures ok <==> tot + m <= |src|
      ensures disk == old(disk)[addr := Splice(old(disk)[addr], at, src[tot..tot + Min(m, |src| - tot)])]
    {
      var k := Min(m, |src| - tot);
      disk := disk[addr := Splice(disk[addr], at, src[tot..tot + k])];
      return k == m;
    }

    /** One turn of the writing loop. */
    method WriteChunk(inum: nat, src: seq<int>, off: nat, n: nat, tot: nat) returns (ok: bool, m: nat, ghost w: nat)
      requires Valid() && inum in inodes && Bytes(src) && tot < n && tot <= |src| && off + (n - tot) <= MAXFILE * BSIZE
      requires BackedTo(disk, inodes, inum, off)
      modifies this`disk, this`inodes, this`owner
      ensures Valid() && OwnersGrown(old(owner), owner, inum)
      ensures tot + w <= |src| && tot + w <= n
      ensures Written(old(disk), old(inodes), inum, off, src[tot..tot + w], disk, inodes)
      ensures ok ==> w == m && m > 0 && BackedTo(disk, inodes, inum, off + m)
      ensures !ok ==> (Full(lay, disk) && w == 0) || |src| < n
    {
      hide Used, Value, FileByte, Backed, SameBytes, Full, Written, OwnersGrown, Bytes, DiskOk, Splice, InodesOk;
      ghost var d0, ino0, owner0 := disk, inodes, owner;
      ChunkInBlock(off, n - tot);
      var addr := Bmap(inum, off / BSIZE);
      NothingWritten(d0, ino0, inum, off);
      if addr == 0 {
        WrittenSame(d0, ino0, inum, off, [], d0, ino0, disk, inodes);
        assert src[tot..tot] == [];
        return false, 0, 0;
      }
      m := Min(n - tot, BSIZE - off % BSIZE);
      w := Min(m, |src| - tot);
      SlotBlock(lay, disk, inodes, owner, inum, off / BSIZE);
      BlockSize(disk[addr]);
      BytesOfSlice(src, tot, w);
      ChunkWritten(lay, disk, inodes, owner, inum, off / BSIZE, off % BSIZE, src[tot..tot + w]);
      WrittenSame(d0, ino0, inum, off, [], d0, ino0, disk, inodes);
      ghost var d1 := disk;
      ok := CopyIn(addr, off % BSIZE, src, tot, m);
      WrittenMore(d0, ino0, inum, off, [], d1, inodes, src[tot..tot + w], disk);
      assert [] + src[tot..tot + w] == src[tot..tot + w];
      if ok {
        BackedMore(lay, d0, ino0, owner0, d1, disk, inodes, owner, inum, off, m);
      }
    }

    /** Copy an inode to disk. */
    method Iupdate(inum: nat)
      requires inum in inodes
      modifies this`dinodes
      ensures dinodes == old(dinodes)[inum := inodes[inum]]
    {
      dinodes := dinodes[inum := inodes[inum]];
    }

    /** Set the size of a file, all of whose blocks up to there exist. */
    method SetSize(inum: nat, size: nat)
      requires Valid() && inum in inodes && size <= MAXFILE * BSIZE && BackedTo(disk, inodes, inum, size)
      modifies this`inodes
      ensures Valid() && inodes == Resized(old(inodes), inum, size)
    {
      hide Used, Value;
      ValuesResized(disk, inodes, inum, size);
      inodes := Resized(inodes, inum, size);
      OwnedResized(lay, disk, old(inodes), owner, inodes);
    }

    /** Write up to `n` bytes at `off`. Of the source only the bytes of `src` can be read. `w` counts the
        bytes put into cached blocks, `r` those of the chunks that were copied completely. */
    method Writei(inum: nat, src: seq<int>, off: nat, n: nat) returns (r: int, ghost w: nat)
      requires Valid() && inum in inodes && Bytes(src) && off < UINT && n < UINT
      modifies this
      ensures Valid()
      ensures var rejected := off > old(inodes[inum].size) || off + n >= UINT || off + n > MAXFILE * BSIZE;
              if rejected then
                r == -1 && disk == old(disk) && inodes == old(inodes) && dinodes == old(dinodes) && owner == old(owner)
              else
                && 0 <= r <= w <= n && w <= |src|
                && inodes.Keys == old(inodes).Keys && dinodes == old(dinodes)[inum := inodes[inum]]
                && OwnersGrown(old(owner), owner, inum)
                && FileWritten(old(disk), old(inodes), inum, off, src[..w], r, disk, inodes)
                && (n <= |src| ==> w == r)
                && (r < n ==> Full(lay, disk) || |src| < n)
    {
      hide Used, Value, FileByte, Backed, Full, Written, OwnersGrown, Bytes, BackedTo, DiskOk, Owned;
      if off > inodes[inum].size || (off + n) % UINT < off {
        return -1, 0;
      }
      if off + n > MAXFILE * BSIZE {
        return -1, 0;
      }
      ghost var d0, ino0, owner0 := disk, inodes, owner;
      NothingWritten(disk, inodes, inum, off);
      OwnersSame(owner, inum);
      BackedToSize(disk, inodes, inum, off);
      var tot := 0;
      w := 0;
      while tot < n
        invariant Valid() && inum in inodes && w == tot <= n && tot <= |src| && dinodes == old(dinodes)
        invariant OwnersGrown(owner0, owner, inum)
        invariant Written(d0, ino0, inum, off, src[..tot], disk, inodes)
        invariant BackedTo(disk, inodes, inum, off + tot)
      {
        ghost var d1, ino1, owner1 := disk, inodes, owner;
        var ok, m;
        ghost var more;
        ok, m, more := WriteChunk(inum, src, off + tot, n, tot);
        OwnersTrans(owner0, owner1, owner, inum);
        WrittenThen(d0, ino0, inum, off, src[..tot], d1, ino1, src[tot..tot + more], disk, inodes);
        assert src[..tot] + src[tot..tot + more] == src[..tot + more];
        WrittenSizes(d0, ino0, inum, off, src[..tot + more], disk, inodes);
        w := tot + more;
        if !ok {
          BackedKept(lay, d1, ino1, owner1, disk, inodes, owner, inum, off + tot);
          break;
        }
        tot := tot + m;
      }
      ghost var ino2 := inodes;
      if off + tot > inodes[inum].size {
        SetSize(inum, off + tot);
      }
      FileWrittenIs(d0, ino0, inum, off, src[..w], tot, disk, ino2, inodes);
      Iupdate(inum);
      r := tot;
    }

    /** Read up to `n` bytes at `off`, into memory where `room` bytes can be written. */
    method Readi(inum: nat, off: nat, n: nat, room: nat) returns (r: int, out: seq<int>)
      requires Valid() && inum in inodes && off < UINT && n < UINT
      modifies this`disk, this`inodes, this`owner
      ensures disk == old(disk) && inodes == old(inodes) && owner == old(owner)
      ensures var f := Content(disk, inodes, inum);
              if off > |f| || off + n >= UINT then r == 0 && out == []
              else var m := Min(n, |f| - off);
                   if m <= room then r == m && out == f[off..off + m] else r == -1 && out == f[off..off + room]
    {
      hide Sound, Content, Value, FileByte;
      SizesOk(lay, disk, inodes, owner);
      if off > inodes[inum].size || (off + n) % UINT < off {
        return 0, [];
      }
      var size := inodes[inum].size;
      var m := if off + n > size then size - off else n;
      ghost var f := Content(disk, inodes, inum);
      ContentSize(disk, inodes, inum);
      out := [];
      var tot := 0;
      while tot < m
        invariant tot <= m && tot <= room && Valid() && disk == old(disk) && inodes == old(inodes) && owner == old(owner)
        invariant out == f[off..off + tot]
      {
        var k, some := ReadChunk(inum, off + tot, m - tot, room - tot);
        assert f[off..off + tot] + f[off + tot..off + tot + |some|] == f[off..off + tot + |some|];
        out := out + some;
        if |some| < k {
          return -1, out;
        }
        tot := tot + k;
      }
      return tot, out;
    }

    /** One turn of the reading loop: the bytes copied out, of the `k` bytes wanted from this block. */
    method ReadChunk(inum: nat, off: nat, n: nat, room: nat) returns (k: nat, some: seq<int>)
      requires Valid() && inum in inodes && n > 0 && off + n <= inodes[inum].size
      modifies this`disk, this`inodes, this`owner
      ensures Valid() && disk == old(disk) && inodes == old(inodes) && owner == old(owner)
      ensures 0 < k <= n && |some| == Min(k, room)
      ensures inodes[inum].size >= 0 && off + k <= |Content(disk, inodes, inum)|
      ensures some == Content(disk, inodes, inum)[off..off + |some|]
    {
      hide Owned, Value, Full, SameFiles, OwnersGrown;
      BackedAt(disk, inodes, inum, off / BSIZE);
      var addr := Bmap(inum, off / BSIZE);
      SlotBlock(lay, disk, inodes, owner, inum, off / BSIZE);
      k := Min(n, BSIZE - off % BSIZE);
      var c := Min(k, room);
      some := disk[addr][off % BSIZE..off % BSIZE + c];
      ghost var f := Content(disk, inodes, inum);
      forall i | 0 <= i < c ensures some[i] == f[off + i] {
        SameBlockByte(off, i);
      }
    }

    /** Give back all the blocks of a file. */
    method Itrunc(inum: nat)
      requires Valid() && inum in inodes
      modifies this
      ensures Valid() && inodes.Keys == old(inodes).Keys && dinodes == old(dinodes)[inum := inodes[inum]]
      ensures inodes[inum].size == 0
      ensures forall b :: b in owner <==> b in old(owner) && old(owner)[b].inum != inum
      ensures forall b :: b in owner ==> owner[b] == old(owner)[b]
      ensures forall b: nat :: b < lay.size ==>
                (Used(lay, disk, b) <==> Used(lay, old(disk), b) && !(b in old(owner) && old(owner)[b].inum == inum))
      ensures forall i :: i in inodes && i != inum ==> inodes[i] == old(inodes)[i] && SameBytes(old(disk), old(inodes), disk, inodes, i)
    {
      hide Used, Value, Truncating, Sound, WithoutBlock, SameBytes, AddrOf;
      ghost var d0, ino0, owner0 := disk, inodes, owner;
      TruncationStarts(lay, disk, inodes, owner, inum);
      var i := 0;
      while i < NDIRECT
        invariant i <= NDIRECT && dinodes == old(dinodes)
        invariant Truncating(lay, d0, ino0, owner0, inum, disk, inodes, owner, i, 0)
      {
        TruncDirect(inum, i, d0, ino0, owner0);
        i := i + 1;
      }
      TruncIndex(inum, d0, ino0, owner0);
      TruncationEnds(lay, d0, ino0, owner0, inum, disk, inodes, owner);
      TruncatingFacts(lay, d0, ino0, owner0, inum, disk, inodes, owner, NDIRECT + 1, 0);
      UsedAfterTruncation(lay, d0, ino0, owner0, disk, Resized(inodes, inum, 0), owner, inum);
      inodes := Resized(inodes, inum, 0);
      Iupdate(inum);
    }

    method TruncDirect(inum: nat, i: nat, ghost d0: Disk, ghost ino0: Inodes, ghost owner0: map<nat, Slot>)
      requires i < NDIRECT && Truncating(lay, d0, ino0, owner0, inum, disk, inodes, owner, i, 0)
      modifies this`disk, this`inodes, this`owner
      ensures Truncating(lay, d0, ino0, owner0, inum, disk, inodes, owner, i + 1, 0)
    {
      hide Used, Value, Truncating, WithoutBlock;
      TruncatingFacts(lay, d0, ino0, owner0, inum, disk, inodes, owner, i, 0);
      TruncatingAddr(lay, d0, ino0, owner0, inum, disk, inodes, owner, i, 0, i);
      var b := inodes[inum].addrs[i];
      if b != 0 {
        DirectFreed(lay, d0, ino0, owner0, inum, disk, inodes, owner, i, b);
        Bfree(b);
        inodes := WithAddr(inodes, inum, i, 0);
        owner := owner - {b};
      } else {
        DirectAbsent(lay, d0, ino0, owner0, inum, disk, inodes, owner, i);
      }
    }

    method TruncIndex(inum: nat, ghost d0: Disk, ghost ino0: Inodes, ghost owner0: map<nat, Slot>)
      requires Truncating(lay, d0, ino0, owner0, inum, disk, inodes, owner, NDIRECT, 0)
      modifies this`disk, this`inodes, this`owner
      ensures Truncating(lay, d0, ino0, owner0, inum, disk, inodes, owner, NDIRECT + 1, 0)
    {
      hide Used, Value, Truncating, WithoutBlock;
      TruncatingFacts(lay, d0, ino0, owner0, inum, disk, inodes, owner, NDIRECT, 0);
      TruncatingAddr(lay, d0, ino0, owner0, inum, disk, inodes, owner, NDIRECT, 0, NDIRECT);
      var ind := inodes[inum].addrs[NDIRECT];
      if ind != 0 {
        ghost var ino := inodes;
        var j := 0;
        while j < NINDIRECT
          invariant j <= NINDIRECT && inodes == ino
          invariant Truncating(lay, d0, ino0, owner0, inum, disk, inodes, owner, NDIRECT, j)
        {
          TruncEntry(inum, ind, j, d0, ino0, owner0);
          j := j + 1;
        }
        IndexFreed(lay, d0, ino0, owner0, inum, disk, inodes, owner, ind);
        TruncatingFacts(lay, d0, ino0, owner0, inum, disk, inodes, owner, NDIRECT, NINDIRECT);
        Bfree(ind);
        inodes := WithAddr(inodes, inum, NDIRECT, 0);
        owner := owner - {ind};
      } else {
        DirectAbsent(lay, d0, ino0, owner0, inum, disk, inodes, owner, NDIRECT);
      }
    }

    method TruncEntry(inum: nat, ind: nat, j: nat, ghost d0: Disk, ghost ino0: Inodes, ghost owner0: map<nat, Slot>)
      requires Truncating(lay, d0, ino0, owner0, inum, disk, inodes, owner, NDIRECT, j)
      requires j < NINDIRECT && ind != 0 && ind == AddrOf(inodes, inum, NDIRECT)
      modifies this`disk, this`owner
      ensures Truncating(lay, d0, ino0, owner0, inum, disk, inodes, owner, NDIRECT, j + 1)
    {
      hide Used, Value, Truncating, WithoutBlock;
      TruncatingFacts(lay, d0, ino0, owner0, inum, disk, inodes, owner, NDIRECT, j);
      TruncatingEntry(lay, d0, ino0, owner0, inum, disk, inodes, owner, j);
      var b := Word(disk[ind], j);
      if b != 0 {
        EntryFreed(lay, d0, ino0, owner0, inum, disk, inodes, owner, NDIRECT, j, b);
        Bfree(b);
        owner := owner - {b};
      } else {
        EntryAbsent(lay, d0, ino0, owner0, inum, disk, inodes, owner, NDIRECT, j);
      }
    }
  }

  // ---- One operation after another ----

  lemma SizesAre(fs: FileStore)
    requires fs.Valid()
    ensures forall i :: i in fs.inodes ==> fs.inodes[i].size >= 0
  {
    SizesOk(fs.lay, fs.disk, fs.inodes, fs.owner);
  }

  /** Reading where something has just been written gives what was written, and reading anything else gives
      what was there before, however much of the write was carried out. */
  method WriteThenRead(fs: FileStore, inum: nat, src: seq<int>, off: nat, at: nat, n: nat) returns (r: int, out: seq<int>)
    requires fs.Valid() && inum in fs.inodes && fs.inodes[inum].size >= 0 && Bytes(src) && |src| < UINT && off < UINT
    requires at + n < UINT
    modifies fs
    ensures fs.Valid() && inum in fs.inodes && fs.inodes[inum].size >= 0 && -1 <= r <= |src|
    ensures r >= 0 ==> off <= old(fs.inodes[inum].size)
    ensures var f := old(Content(fs.disk, fs.inodes, inum));
            var g := if r >= 0 then Overwritten(f, off, src[..r]) else f;
            out == if at > |g| then [] else g[at..at + Min(n, |g| - at)]
    ensures r >= 0 && at == off && n == r ==> out == src[..r]
  {
    hide Sound, Content, FileByte, WrittenByte;
    ContentSize(fs.disk, fs.inodes, inum);
    ghost var f := Content(fs.disk, fs.inodes, inum);
    ghost var w;
    r, w := fs.Writei(inum, src, off, |src|);
    SizesAre(fs);
    assert r >= 0 ==> src[..w] == src[..r];
    ghost var g := Content(fs.disk, fs.inodes, inum);
    assert g == if r >= 0 then Overwritten(f, off, src[..r]) else f;
    var got;
    got, out := fs.Readi(inum, at, n, n);
    if r >= 0 {
      ReadBack(f, off, src[..r]);
    }
  }

  /** Two writes that succeed, the second where the first ended, leave the file that one write of both
      would leave. */
  method WriteTwice(fs: FileStore, inum: nat, a: seq<int>, b: seq<int>, off: nat) returns (r: int, r2: int)
    requires fs.Valid() && inum in fs.inodes && fs.inodes[inum].size >= 0 && Bytes(a) && Bytes(b)
    requires off + |a| < UINT && |b| < UINT
    modifies fs
    ensures fs.Valid() && inum in fs.inodes && fs.inodes[inum].size >= 0
    ensures r == |a| && r2 == |b| ==>
              && off <= old(fs.inodes[inum].size)
              && Content(fs.disk, fs.inodes, inum) == Overwritten(old(Content(fs.disk, fs.inodes, inum)), off, a + b)
  {
    hide Sound, Content, FileByte, WrittenByte;
    ContentSize(fs.disk, fs.inodes, inum);
    ghost var f := Content(fs.disk, fs.inodes, inum);
    ghost var w;
    r, w := fs.Writei(inum, a, off, |a|);
    SizesAre(fs);
    r2 := -1;
    if r == |a| {
      assert a[..w] == a;
      ContentSize(fs.disk, fs.inodes, inum);
      assert Content(fs.disk, fs.inodes, inum) == Overwritten(f, off, a);
      r2, w := fs.Writei(inum, b, off + |a|, |b|);
      SizesAre(fs);
      if r2 == |b| {
        assert b[..w] == b;
        WritesJoin(f, off, a, b);
      }
    }
  }

  lemma NoIndexNoEntry(d: Disk, ino: Inodes, inum: nat, j: nat)
    requires AddrOf(ino, inum, NDIRECT) == 0
    ensures Value(d, ino, Entry(inum, j)) == 0
  {
  }
}
