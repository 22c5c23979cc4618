/** Does a commit find the buffers it needs? The log's traffic with the buffer cache: the buffers that a
    transaction keeps pinned, against the one more that copying and writing the header take. */
module CommitBuffers {
  import opened BufferCache
  import Counting

  // ---- The cache during a commit ----

  /** Exactly the buffers of the blocks `pins` are referenced, once each; all of these are in the cache. */
  ghost predicate Pinned(bufs: seq<Buf>, inUse: seq<bool>, dev: nat, pins: set<int>) {
    && |bufs| == NBUF == |inUse|
    && (forall b :: 0 <= b < NBUF ==> bufs[b].refcnt == if IsPin(bufs[b], inUse[b], dev, pins) then 1 else 0)
    && (forall a, b :: 0 <= a < b < NBUF && inUse[a] && inUse[b] ==> !Holds(bufs[a], bufs[b].dev, bufs[b].blockno))
    && (forall p :: p in pins ==> exists b :: 0 <= b < NBUF && IsPin(bufs[b], inUse[b], dev, {p}))
  }

  predicate IsPin(buf: Buf, used: bool, dev: nat, pins: set<int>) {
    used && buf.dev == dev && buf.blockno in pins
  }

  /** Some buffer is unreferenced if and only if fewer than NBUF blocks are pinned. */
  lemma RoomExactly(bufs: seq<Buf>, inUse: seq<bool>, dev: nat, pins: set<int>)
    requires Pinned(bufs, inUse, dev, pins)
    ensures (exists b :: 0 <= b < NBUF && bufs[b].refcnt == 0) <==> |pins| < NBUF
    ensures |pins| <= NBUF
  {
    hide Pinned, Counting.Count, Counting.KeySet, Flags, Keys;
    Sizes(bufs, inUse, dev, pins);
    var flags, keys := Flags(bufs), Keys(bufs);
    PinKeys(bufs, inUse, dev, pins);
    Counting.CountKeys(flags, keys);
    Counting.CountAll(flags);
    assert forall b :: 0 <= b < NBUF ==> flags[b] == (bufs[b].refcnt != 0);
  }

  /** Which buffers are referenced, and the blocks they hold. */
  function Flags(bufs: seq<Buf>): (flags: seq<bool>)
    ensures |flags| == |bufs| && forall b :: 0 <= b < |bufs| ==> flags[b] == (bufs[b].refcnt != 0)
  {
    seq(|bufs|, b requires 0 <= b < |bufs| => bufs[b].refcnt != 0)
  }

  function Keys(bufs: seq<Buf>): (keys: seq<int>)
    ensures |keys| == |bufs| && forall b :: 0 <= b < |bufs| ==> keys[b] == bufs[b].blockno
  {
    seq(|bufs|, b requires 0 <= b < |bufs| => bufs[b].blockno)
  }

  lemma PinKeys(bufs: seq<Buf>, inUse: seq<bool>, dev: nat, pins: set<int>)
    requires Pinned(bufs, inUse, dev, pins)
    ensures Counting.KeySet(Flags(bufs), Keys(bufs)) == pins
    ensures forall a, b :: 0 <= a < b < NBUF && Flags(bufs)[a] && Flags(bufs)[b] ==> Keys(bufs)[a] != Keys(bufs)[b]
  {
    var flags, keys := Flags(bufs), Keys(bufs);
    forall p | p in pins ensures p in Counting.KeySet(flags, keys) {
      var b := PinAt(bufs, inUse, dev, pins, p);
      assert flags[b] && keys[b] == p;
    }
  }

  /** A block that is not pinned can be read exactly when there is room. */
  lemma ReadsExactly(bufs: seq<Buf>, inUse: seq<bool>, dev: nat, pins: set<int>, blockno: nat)
    requires Pinned(bufs, inUse, dev, pins) && blockno !in pins && dev != 0
    ensures (forall a :: 0 <= a < NBUF ==> !Holds(bufs[a], dev, blockno) && bufs[a].refcnt > 0) <==> |pins| >= NBUF
  {
    hide Pinned;
    RoomExactly(bufs, inUse, dev, pins);
    ReferencedArePins(bufs, inUse, dev, pins, blockno);
  }

  lemma ReferencedArePins(bufs: seq<Buf>, inUse: seq<bool>, dev: nat, pins: set<int>, blockno: nat)
    requires Pinned(bufs, inUse, dev, pins) && blockno !in pins
    ensures |bufs| == NBUF
    ensures forall a :: 0 <= a < NBUF ==> bufs[a].refcnt == 0 || (bufs[a].refcnt > 0 && !Holds(bufs[a], dev, blockno))
  {
  }

  /** The buffer `b` has been found or recycled for a block that is not pinned. */
  ghost predicate Fetched(bufs: seq<Buf>, inUse: seq<bool>, dev: nat, blockno: nat, b: int, bufs': seq<Buf>, inUse': seq<bool>)
    requires |bufs| == NBUF == |inUse|
  {
    && |bufs'| == NBUF && 0 <= b < NBUF && inUse' == inUse[b := true] && Holds(bufs'[b], dev, blockno)
    && bufs'[b].refcnt == bufs[b].refcnt + 1 && (forall a :: 0 <= a < NBUF && a != b ==> bufs'[a] == bufs[a])
    && (forall a :: 0 <= a < NBUF && inUse[a] && Holds(bufs[a], dev, blockno) ==> a == b)
    && (Holds(bufs[b], dev, blockno) || bufs[b].refcnt == 0)
  }

  /** Fetching and releasing a block that is not pinned. */
  lemma PassingKeeps(bufs: seq<Buf>, inUse: seq<bool>, dev: nat, pins: set<int>, blockno: nat, b: int,
                     bufs1: seq<Buf>, inUse1: seq<bool>)
    requires Pinned(bufs, inUse, dev, pins) && blockno !in pins && dev != 0
    requires Fetched(bufs, inUse, dev, blockno, b, bufs1, inUse1)
    ensures bufs[b].refcnt == 0
    ensures Pinned(bufs1[b := bufs1[b].(refcnt := 0)], inUse1, dev, pins)
  {
    var bufs2 := bufs1[b := bufs1[b].(refcnt := 0)];
    forall p | p in pins ensures exists c :: 0 <= c < NBUF && IsPin(bufs2[c], inUse1[c], dev, {p}) {
      var c :| 0 <= c < NBUF && IsPin(bufs[c], inUse[c], dev, {p});
      assert c != b && IsPin(bufs2[c], inUse1[c], dev, {p});
    }
  }

  /** Unpinning a block. */
  lemma UnpinKeeps(bufs: seq<Buf>, inUse: seq<bool>, dev: nat, pins: set<int>, p: nat, b: int)
    requires Pinned(bufs, inUse, dev, pins) && p in pins && 0 <= b < NBUF && IsPin(bufs[b], inUse[b], dev, {p})
    ensures Pinned(bufs[b := bufs[b].(refcnt := 0)], inUse, dev, pins - {p})
  {
    var bufs1 := bufs[b := bufs[b].(refcnt := 0)];
    forall q | q in pins - {p} ensures exists c :: 0 <= c < NBUF && IsPin(bufs1[c], inUse[c], dev, {q}) {
      var c :| 0 <= c < NBUF && IsPin(bufs[c], inUse[c], dev, {q});
      assert c != b && IsPin(bufs1[c], inUse[c], dev, {q});
    }
  }

  lemma Sizes(bufs: seq<Buf>, inUse: seq<bool>, dev: nat, pins: set<int>)
    requires Pinned(bufs, inUse, dev, pins)
    ensures |bufs| == NBUF == |inUse|
  {
  }

  lemma CacheSizes(c: Cache)
    requires c.Valid()
    ensures |c.bufs| == NBUF == |c.inUse|
  {
  }

  /** Read a block that is not pinned and release it again, as `write_head` does with the header. */
  method Visit(c: Cache, dev: nat, blockno: nat, ghost pins: set<int>) returns (ok: bool)
    requires c.Valid() && Pinned(c.bufs, c.inUse, dev, pins) && blockno !in pins && dev != 0
    modifies c
    ensures c.Valid() && (ok <==> |pins| < NBUF)
    ensures Pinned(c.bufs, c.inUse, dev, pins)
  {
    hide Cache.Valid, Pinned, Holds;
    ghost var bufs, inUse := c.bufs, c.inUse;
    CacheSizes(c);
    ReadsExactly(bufs, inUse, dev, pins, blockno);
    var b := c.Bget(dev, blockno);
    if b == -1 {
      return false;
    }
    CacheSizes(c);
    PassingKeeps(bufs, inUse, dev, pins, blockno, b, c.bufs, c.inUse);
    c.Brelse(b);
    return true;
  }

  /** Read a log block and a pinned home block, and release both: one turn of `write_log`, or, with
      `unpin`, of `install_trans`. */
  method Copy(c: Cache, dev: nat, logBlock: nat, home: nat, unpin: bool, ghost pins: set<int>) returns (ok: bool)
    requires c.Valid() && Pinned(c.bufs, c.inUse, dev, pins) && logBlock !in pins && home in pins && dev != 0
    modifies c
    ensures c.Valid() && (ok <==> |pins| < NBUF)
    ensures ok ==> Pinned(c.bufs, c.inUse, dev, if unpin then pins - {home} else pins)
  {
    hide Cache.Valid, Pinned, IsPin;
    ghost var bufs, inUse := c.bufs, c.inUse;
    CacheSizes(c);
    ReadsExactly(bufs, inUse, dev, pins, logBlock);
    var l := c.Bget(dev, logBlock);
    if l == -1 {
      return false;
    }
    CacheSizes(c);
    PassingKeeps(bufs, inUse, dev, pins, logBlock, l, c.bufs, c.inUse);
    ghost var bufs1, inUse1 := c.bufs, c.inUse;
    ghost var passed := bufs1[l := bufs1[l].(refcnt := 0)];
    ghost var h0 := PinAt(passed, inUse1, dev, pins, home);
    var h := c.Bget(dev, home);
    CacheSizes(c);
    assert h == h0 && h != l;
    assert c.bufs[h] == bufs1[h].(refcnt := 2);
    assert c.bufs == bufs1[h := bufs1[h].(refcnt := 2)] && c.inUse == inUse1;
    Release(c, l, h, unpin);
    if unpin {
      UnpinKeeps(passed, inUse1, dev, pins, home, h);
      assert c.bufs == passed[h := passed[h].(refcnt := 0)];
    } else {
      assert c.bufs == passed;
    }
    return true;
  }

  /** Give back the two buffers, in the order in which `install_trans` and `write_log` do. */
  method Release(c: Cache, l: int, h: int, unpin: bool)
    requires c.Valid() && |c.bufs| == NBUF && 0 <= l < NBUF && 0 <= h < NBUF && l != h
    requires c.bufs[l].refcnt == 1 && c.bufs[h].refcnt == 2
    modifies c
    ensures c.Valid() && c.inUse == old(c.inUse)
    ensures c.bufs == old(c.bufs)[l := old(c.bufs)[l].(refcnt := 0)][h := old(c.bufs)[h].(refcnt := if unpin then 0 else 1)]
  {
    hide Cache.Valid;
    if unpin {
      c.Bunpin(h);
      c.Brelse(l);
      c.Brelse(h);
    } else {
      c.Brelse(h);
      c.Brelse(l);
    }
  }

  /** The buffer of a pinned block. */
  lemma PinAt(bufs: seq<Buf>, inUse: seq<bool>, dev: nat, pins: set<int>, p: int) returns (b: int)
    requires Pinned(bufs, inUse, dev, pins) && p in pins
    ensures |bufs| == NBUF == |inUse| && 0 <= b < NBUF && IsPin(bufs[b], inUse[b], dev, {p})
    ensures inUse[b] && bufs[b].dev == dev && bufs[b].blockno == p && bufs[b].refcnt == 1
  {
    b :| 0 <= b < NBUF && IsPin(bufs[b], inUse[b], dev, {p});
    assert IsPin(bufs[b], inUse[b], dev, pins);
  }

  // ---- A whole commit ----

  /** The blocks from place `k` on. */
  function From(block: seq<nat>, k: nat): set<int>
    requires k <= |block|
  {
    Counting.Blocks(block[k..])
  }

  lemma FromStep(block: seq<nat>, k: nat)
    requires Counting.Different(block) && k < |block|
    ensures From(block, k + 1) == From(block, k) - {block[k]} && block[k] in From(block, k)
    ensures |From(block, k)| == |block| - k
  {
    assert block[k..][1..] == block[k + 1..];
    Counting.BlocksFirst(block[k..]);
    Counting.BlocksNumber(block[k..]);
  }

  /** What a commit asks of the cache, block by block. It finds every buffer it needs if and only if it has
      pinned fewer than NBUF blocks, and then it ends with no buffer referenced. A log area of `size` blocks
      never holds more than `size - 1`. */
  method CommitTraffic(c: Cache, dev: nat, start: nat, size: nat, block: seq<nat>) returns (ok: bool)
    requires c.Valid() && Pinned(c.bufs, c.inUse, dev, Counting.Blocks(block)) && Counting.Different(block) && dev != 0
    requires block == [] || |block| < size
    requires forall k :: 0 <= k < |block| ==> !(start <= block[k] < start + size)
    modifies c
    ensures block == [] ==> ok
    ensures block != [] ==> (ok <==> |block| < NBUF)
    ensures size <= NBUF ==> ok
    ensures ok ==> c.Valid() && Pinned(c.bufs, c.inUse, dev, {})
  {
    hide Cache.Valid, Pinned, Counting.Different;
    assert block == [] ==> Counting.Blocks(block) == {};
    if |block| > 0 {
      Counting.BlocksNumber(block);
      var copied := CopyAll(c, dev, start, size, block, false);
      if !copied {
        return false;
      }
      var headed := Visit(c, dev, start, Counting.Blocks(block));
      var installed := CopyAll(c, dev, start, size, block, true);
      var erased := Visit(c, dev, start, {});
      assert headed && installed && erased;
    }
    return true;
  }

  /** All turns of `write_log`, or of `install_trans`. */
  method CopyAll(c: Cache, dev: nat, start: nat, size: nat, block: seq<nat>, unpin: bool) returns (ok: bool)
    requires c.Valid() && Pinned(c.bufs, c.inUse, dev, Counting.Blocks(block)) && Counting.Different(block) && dev != 0
    requires 0 < |block| < size && forall k :: 0 <= k < |block| ==> !(start <= block[k] < start + size)
    modifies c
    ensures c.Valid() && (ok <==> |block| < NBUF)
    ensures ok ==> Pinned(c.bufs, c.inUse, dev, if unpin then {} else Counting.Blocks(block))
  {
    hide Cache.Valid, Pinned, Counting.Different;
    ghost var pins := Counting.Blocks(block);
    assert block[0..] == block;
    var tail := 0;
    while tail < |block|
      invariant 0 <= tail <= |block| && c.Valid() && (tail > 0 ==> |block| < NBUF)
      invariant pins == if unpin then From(block, tail) else Counting.Blocks(block)
      invariant Pinned(c.bufs, c.inUse, dev, pins)
    {
      FromStep(block, tail);
      Counting.BlocksNumber(block);
      var copied := Copy(c, dev, start + tail + 1, block[tail], unpin, pins);
      if !copied {
        assert tail == 0;
        return false;
      }
      pins := if unpin then pins - {block[tail]} else pins;
      tail := tail + 1;
    }
    return true;
  }
}
