/** Block contents, block writes, and what a sequence of block writes does to a disk.

    A 1024-byte block is 256 words of 32 bits, the unit in which the log header is laid out.
    A disk (or one logical half of it) is a sequence of blocks indexed by block number; the
    effect of a single block write is atomic. */
module DiskWrites {

  const WORDS_PER_BLOCK: nat := 256

  datatype Block = Block(words: seq<int>)

  datatype Write = Write(blockno: nat, data: Block)

  /** One atomic block write. */
  function Put(d: seq<Block>, w: Write): (r: seq<Block>)
    ensures |r| == |d|
  {
    if w.blockno < |d| then d[w.blockno := w.data] else d
  }

  /** The disk after the writes `ws`, issued in order. */
  function Apply(d: seq<Block>, ws: seq<Write>): (r: seq<Block>)
    ensures |r| == |d|
  {
    if ws == [] then d else Put(Apply(d, ws[..|ws| - 1]), ws[|ws| - 1])
  }

  predicate Writes(ws: seq<Write>, b: nat) {
    exists i :: 0 <= i < |ws| && ws[i].blockno == b
  }

  lemma ApplyPrefix(d: seq<Block>, ws: seq<Write>, k: nat)
    requires k < |ws|
    ensures Apply(d, ws[..k + 1]) == Put(Apply(d, ws[..k]), ws[k])
  {
    assert ws[..k + 1][..k] == ws[..k];
  }

  lemma ApplyFew(d: seq<Block>, p: Write, q: Write)
    ensures Apply(d, []) == d
    ensures Apply(d, [p]) == Put(d, p)
    ensures Apply(d, [p, q]) == Put(Put(d, p), q)
  {
    assert [p][..0] == [];
    assert [p, q][..1] == [p];
  }

  lemma {:induction false} ApplyAppend(d: seq<Block>, ws: seq<Write>, more: seq<Write>)
    ensures Apply(d, ws + more) == Apply(Apply(d, ws), more)
  {
    if more == [] {
      assert ws + more == ws;
    } else {
      var n := |more| - 1;
      assert (ws + more)[..|ws + more| - 1] == ws + more[..n];
      ApplyAppend(d, ws, more[..n]);
    }
  }

  lemma PrefixWrites(ws: seq<Write>, k: nat, b: nat)
    requires k <= |ws|
    ensures Writes(ws[..k], b) ==> Writes(ws, b)
  {
    if Writes(ws[..k], b) {
      var i :| 0 <= i < k && ws[..k][i].blockno == b;
      assert ws[i].blockno == b;
    }
  }

  /** A block that none of the writes names keeps its contents; a block that one of them names
      ends up with contents that do not depend on what the disk held before. */
  lemma {:induction false} ApplyAt(d: seq<Block>, e: seq<Block>, ws: seq<Write>, b: nat)
    requires |d| == |e| && b < |d|
    ensures !Writes(ws, b) ==> Apply(d, ws)[b] == d[b]
    ensures Writes(ws, b) ==> Apply(d, ws)[b] == Apply(e, ws)[b]
  {
    if ws != [] {
      var n := |ws| - 1;
      ApplyAt(d, e, ws[..n], b);
      PrefixWrites(ws, n, b);
      if Writes(ws, b) && ws[n].blockno != b {
        var i :| 0 <= i < |ws| && ws[i].blockno == b;
        assert ws[..n][i].blockno == b;
      }
    }
  }

  /** Redoing a whole list of writes over any part of its own effect gives the effect of the
      list: the reason a physical redo log may be replayed as often as needed. */
  lemma ApplyAbsorbs(d: seq<Block>, ws: seq<Write>, done: nat)
    requires done <= |ws|
    ensures Apply(Apply(d, ws[..done]), ws) == Apply(d, ws)
  {
    var e := Apply(d, ws[..done]);
    forall b | 0 <= b < |d| ensures Apply(e, ws)[b] == Apply(d, ws)[b] {
      ApplyAt(d, e, ws, b);
      ApplyAt(e, d, ws, b);
      if !Writes(ws, b) {
        PrefixWrites(ws, done, b);
        ApplyAt(d, e, ws[..done], b);
      }
    }
  }
}
