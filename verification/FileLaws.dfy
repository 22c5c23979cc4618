/** Files in terms of disk blocks alone: which block holds which part of a file, and which bit of which byte
    of the bitmap says that a block is in use. */
module FileLaws {
  import opened FileBits
  import opened FileBlocks
  import opened FileUpdates

  /** Word `i` of a block: four bytes, the lowest first. */
  lemma LittleEndian(b: Block, i: nat)
    requires BlockOk(b) && i < NINDIRECT
    ensures 4 * i + 3 < |b|
    ensures Word(b, i) == b[4 * i] + 256 * (b[4 * i + 1] + 256 * (b[4 * i + 2] + 256 * b[4 * i + 3]))
  {
  }

  /** Block `bn` of a file: for the first NDIRECT blocks, the address in the inode; for the others the word of
      the index block, whose address is the last of the inode; 0 where there is none. */
  lemma BlockOfFile(lay: Layout, d: Disk, ino: Inodes, owner: map<nat, Slot>, inum: nat, bn: nat)
    requires Sound(lay, d, ino, owner) && inum in ino && bn < MAXFILE
    ensures |ino[inum].addrs| == NDIRECT + 1
    ensures bn < NDIRECT ==> Value(d, ino, SlotFor(inum, bn)) == ino[inum].addrs[bn]
    ensures bn >= NDIRECT && ino[inum].addrs[NDIRECT] == 0 ==> Value(d, ino, SlotFor(inum, bn)) == 0
    ensures bn >= NDIRECT && ino[inum].addrs[NDIRECT] != 0 ==>
              var x, j := ino[inum].addrs[NDIRECT], 4 * (bn - NDIRECT);
              && x > 0 && x in d && BlockOk(d[x])
              && Value(d, ino, SlotFor(inum, bn)) == d[x][j] + 256 * (d[x][j + 1] + 256 * (d[x][j + 2] + 256 * d[x][j + 3]))
  {
    if bn >= NDIRECT && ino[inum].addrs[NDIRECT] != 0 {
      HeldAt(lay, d, ino, owner, 0, 0, Addr(inum, NDIRECT));
      var x: nat := ino[inum].addrs[NDIRECT];
      LittleEndian(d[x], bn - NDIRECT);
    }
  }

  /** The bytes of block `bn` of a file, fewer than BSIZE if the file ends in it. */
  ghost function Part(d: Disk, ino: Inodes, inum: nat, bn: nat): (s: seq<int>)
    requires inum in ino && bn * BSIZE < ino[inum].size
  {
    var f := Content(d, ino, inum);
    if |f| < bn * BSIZE + BSIZE then f[bn * BSIZE..] else f[bn * BSIZE..bn * BSIZE + BSIZE]
  }

  lemma PartIsBlock(lay: Layout, d: Disk, ino: Inodes, owner: map<nat, Slot>, inum: nat, bn: nat)
    requires Sound(lay, d, ino, owner) && inum in ino && bn * BSIZE < ino[inum].size
    ensures var a := Value(d, ino, SlotFor(inum, bn)); a > 0 && a in d && |d[a]| == BSIZE && Part(d, ino, inum, bn) <= d[a]
  {
    hide Used, Value, Owned;
    BackedAt(d, ino, inum, bn);
    HeldAt(lay, d, ino, owner, 0, 0, SlotFor(inum, bn));
    var p, a := Part(d, ino, inum, bn), Value(d, ino, SlotFor(inum, bn));
    forall i | 0 <= i < |p| ensures p[i] == d[a][i] {
      assert (bn * BSIZE + i) / BSIZE == bn && (bn * BSIZE + i) % BSIZE == i;
    }
  }

  /** The contents of a file, block by block: the first NDIRECT parts are the blocks whose addresses the inode
      holds, in that order; part `bn` after them is the block whose address is word `bn - NDIRECT` of the index
      block, its lowest byte first. No part is missing. */
  lemma ContentInBlocks(lay: Layout, d: Disk, ino: Inodes, owner: map<nat, Slot>, inum: nat, bn: nat)
    requires Sound(lay, d, ino, owner) && inum in ino && bn * BSIZE < ino[inum].size
    ensures |Content(d, ino, inum)| == ino[inum].size <= MAXFILE * BSIZE && |ino[inum].addrs| == NDIRECT + 1
    ensures bn < NDIRECT ==>
              var a := ino[inum].addrs[bn];
              a > 0 && a in d && Part(d, ino, inum, bn) <= d[a]
    ensures bn >= NDIRECT ==>
              var x, j := ino[inum].addrs[NDIRECT], 4 * (bn - NDIRECT);
              && x > 0 && x in d && j + 3 < |d[x]|
              && var a := d[x][j] + 256 * (d[x][j + 1] + 256 * (d[x][j + 2] + 256 * d[x][j + 3]));
                 a > 0 && a in d && Part(d, ino, inum, bn) <= d[a]
  {
    hide Used, Value, Owned, Part;
    BackedAt(d, ino, inum, bn);
    PartIsBlock(lay, d, ino, owner, inum, bn);
    BlockOfFile(lay, d, ino, owner, inum, bn);
  }

  /** The parts make up the whole file. */
  lemma ContentIsItsParts(d: Disk, ino: Inodes, inum: nat, i: nat)
    requires inum in ino && i < ino[inum].size
    ensures |Part(d, ino, inum, i / BSIZE)| > i % BSIZE
    ensures Content(d, ino, inum)[i] == Part(d, ino, inum, i / BSIZE)[i % BSIZE]
  {
  }

  /** Block `b` is marked by bit `b % 8` of byte `b / 8` of the bitmap, whose blocks follow each other from
      `bmapstart` on. */
  lemma BitmapBit(lay: Layout, d: Disk, b: nat)
    requires DiskOk(lay, d) && b < lay.size
    ensures lay.bmapstart + b / 8 / BSIZE in d && |d[lay.bmapstart + b / 8 / BSIZE]| == BSIZE
    ensures Used(lay, d, b) <==>
              d[lay.bmapstart + b / 8 / BSIZE][b / 8 % BSIZE] / [1, 2, 4, 8, 16, 32, 64, 128][b % 8] % 2 == 1
  {
    BitmapBlockIsMeta(lay, b);
    assert b / 8 / BSIZE == b / BPB && b / 8 % BSIZE == b % BPB / 8 && b % BPB % 8 == b % 8;
    BitOfByte(d[lay.bmapstart + b / BPB][b % BPB / 8], b % 8);
  }

  lemma BitOfByte(x: nat, k: nat)
    requires k < 8
    ensures ByteBit(x, k) <==> x / [1, 2, 4, 8, 16, 32, 64, 128][k] % 2 == 1
  {
    if k > 0 {
      BitOfByte(x / 2, k - 1);
      HalfThen(x, [1, 2, 4, 8, 16, 32, 64, 128][k - 1]);
    }
  }

  lemma HalfThen(x: nat, p: nat)
    requires p in {1, 2, 4, 8, 16, 32, 64}
    ensures x / 2 / p == x / (2 * p)
  {
  }
}
