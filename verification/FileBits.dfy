/** Disk blocks as bytes, the little-endian words of an indirect block, the bits of a bitmap block. */
module FileBits {

  const BSIZE: nat := 1024
  const BPB: nat := 8192
  const NDIRECT: nat := 12
  const NINDIRECT: nat := 256
  const MAXFILE: nat := 268
  const UINT: nat := 0x1_0000_0000

  type Block = seq<int>

  predicate Bytes(s: seq<int>) {
    forall i :: 0 <= i < |s| ==> 0 <= s[i] < 256
  }

  predicate BlockOk(b: Block) {
    |b| == BSIZE && Bytes(b)
  }

  function Zeros(): (b: Block)
    ensures BlockOk(b) && forall i :: 0 <= i < BSIZE ==> b[i] == 0
  {
    seq(BSIZE, _ => 0)
  }

  /** `b` with `data` copied in at `at`. */
  function Splice(b: Block, at: nat, data: seq<int>): (r: Block)
    requires at + |data| <= |b|
    ensures |r| == |b|
    ensures forall i :: 0 <= i < |b| ==> r[i] == if at <= i < at + |data| then data[i - at] else b[i]
  {
    b[..at] + data + b[at + |data|..]
  }

  lemma SpliceOk(b: Block, at: nat, data: seq<int>)
    requires BlockOk(b) && at + |data| <= BSIZE && Bytes(data)
    ensures BlockOk(Splice(b, at, data))
  {
  }

  // ---- Words ----

  function Word(b: Block, i: nat): (w: int)
    requires |b| == BSIZE && i < NINDIRECT
  {
    b[4 * i] + 0x100 * b[4 * i + 1] + 0x1_0000 * b[4 * i + 2] + 0x100_0000 * b[4 * i + 3]
  }

  function PutWord(b: Block, i: nat, w: nat): Block
    requires |b| == BSIZE && i < NINDIRECT
  {
    b[4 * i := w % 0x100][4 * i + 1 := w / 0x100 % 0x100][4 * i + 2 := w / 0x1_0000 % 0x100][4 * i + 3 := w / 0x100_0000 % 0x100]
  }

  lemma WordRange(b: Block, i: nat)
    requires BlockOk(b) && i < NINDIRECT
    ensures 0 <= Word(b, i) < UINT
  {
  }

  /** Storing a word changes that word and no other. */
  lemma WordOfPut(b: Block, i: nat, w: nat, j: nat)
    requires BlockOk(b) && i < NINDIRECT && j < NINDIRECT && w < UINT
    ensures BlockOk(PutWord(b, i, w))
    ensures Word(PutWord(b, i, w), j) == if j == i then w else Word(b, j)
  {
    if j == i {
      Digits(w);
    }
  }

  lemma Digits(w: nat)
    requires w < UINT
    ensures w % 0x100 + 0x100 * (w / 0x100 % 0x100) + 0x1_0000 * (w / 0x1_0000 % 0x100) + 0x100_0000 * (w / 0x100_0000 % 0x100) == w
  {
    assert w / 0x1_0000 == w / 0x100 / 0x100 && w / 0x100_0000 == w / 0x100 / 0x100 / 0x100;
  }

  lemma ZeroWords(i: nat)
    requires i < NINDIRECT
    ensures Word(Zeros(), i) == 0
  {
  }

  // ---- Bits ----

  function Power(k: nat): (p: nat)
    ensures p > 0
  {
    if k == 0 then 1 else 2 * Power(k - 1)
  }

  /** `x & (1 << k)` is not zero. */
  predicate ByteBit(x: nat, k: nat) {
    if k == 0 then x % 2 == 1 else ByteBit(x / 2, k - 1)
  }

  /** `x | (1 << k)` or `x & ~(1 << k)`. */
  function PutByteBit(x: nat, k: nat, on: bool): int {
    if ByteBit(x, k) == on then x else if on then x + Power(k) else x - Power(k)
  }

  lemma {:induction false} PutByteBitAt(x: nat, k: nat, on: bool, j: nat)
    ensures PutByteBit(x, k, on) >= 0
    ensures ByteBit(PutByteBit(x, k, on), j) <==> if j == k then on else ByteBit(x, j)
  {
    if k > 0 {
      PutByteBitAt(x / 2, k - 1, on, if j == 0 then 0 else j - 1);
      assert PutByteBit(x, k, on) == 2 * PutByteBit(x / 2, k - 1, on) + x % 2;
    }
  }

  lemma {:induction false} PutByteBitFits(x: nat, k: nat, on: bool, n: nat)
    requires k < n && x < Power(n)
    ensures 0 <= PutByteBit(x, k, on) < Power(n)
  {
    if k > 0 {
      PutByteBitFits(x / 2, k - 1, on, n - 1);
      assert PutByteBit(x, k, on) == 2 * PutByteBit(x / 2, k - 1, on) + x % 2;
    }
  }

  predicate BlockBit(b: Block, i: nat)
    requires BlockOk(b) && i < BPB
  {
    ByteBit(b[i / 8], i % 8)
  }

  function PutBlockBit(b: Block, i: nat, on: bool): Block
    requires BlockOk(b) && i < BPB
  {
    b[i / 8 := PutByteBit(b[i / 8], i % 8, on)]
  }

  /** Setting or clearing a bit of a bitmap block changes that bit and no other. */
  lemma PutBlockBitAt(b: Block, i: nat, on: bool, j: nat)
    requires BlockOk(b) && i < BPB && j < BPB
    ensures BlockOk(PutBlockBit(b, i, on))
    ensures BlockBit(PutBlockBit(b, i, on), j) <==> if j == i then on else BlockBit(b, j)
  {
    assert Power(8) == 256 by {
      assert Power(4) == 16;
    }
    PutByteBitFits(b[i / 8], i % 8, on, 8);
    if j / 8 == i / 8 {
      PutByteBitAt(b[i / 8], i % 8, on, j % 8);
    }
  }
}
