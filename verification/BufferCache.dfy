/** The buffer cache: a doubly linked ring of all buffers in order of last release, reference counts,
    and the recycling of the least recently used buffer. */
module BufferCache {

  const NBUF: nat := 30

  /** The list head is one more node of the ring. */
  const HEAD: nat := 30

  function At(order: seq<int>, i: int): int {
    if 0 <= i < |order| then order[i] else HEAD
  }

  predicate NodeOk(order: seq<int>, next: seq<int>, prev: seq<int>, i: int)
    requires |next| == NBUF + 1 == |prev|
  {
    -1 <= i < |order| && 0 <= At(order, i) <= NBUF && 0 <= At(order, i + 1) <= NBUF
    ==> next[At(order, i)] == At(order, i + 1) && prev[At(order, i + 1)] == At(order, i)
  }

  /** Following `next` from the head one meets the buffers of `order`, and `prev` leads back. */
  ghost predicate Ring(order: seq<int>, next: seq<int>, prev: seq<int>) {
    && |next| == NBUF + 1 == |prev|
    && (forall i :: 0 <= i < |order| ==> 0 <= order[i] < NBUF)
    && (forall i, j :: 0 <= i < j < |order| ==> order[i] != order[j])
    && forall i :: -1 <= i < |order| ==> NodeOk(order, next, prev, i)
  }

  function Without(order: seq<int>, k: int): seq<int>
    requires 0 <= k < |order|
  {
    order[..k] + order[k + 1..]
  }

  lemma RingAt(order: seq<int>, next: seq<int>, prev: seq<int>, i: int)
    requires Ring(order, next, prev) && -1 <= i < |order|
    ensures 0 <= At(order, i) <= NBUF && 0 <= At(order, i + 1) <= NBUF
    ensures next[At(order, i)] == At(order, i + 1) && prev[At(order, i + 1)] == At(order, i)
  {
    assert NodeOk(order, next, prev, i);
  }

  lemma AtInjective(order: seq<int>, next: seq<int>, prev: seq<int>, i: int, j: int)
    requires Ring(order, next, prev) && -1 <= i < |order| && -1 <= j < |order| && At(order, i) == At(order, j)
    ensures i == j
  {
  }

  /** Taking a node out of the ring. */
  lemma Unlinked(order: seq<int>, next: seq<int>, prev: seq<int>, k: int)
    requires Ring(order, next, prev) && 0 <= k < |order|
    ensures 0 <= next[order[k]] <= NBUF && 0 <= prev[order[k]] <= NBUF
    ensures Ring(Without(order, k), next[prev[order[k]] := next[order[k]]], prev[next[order[k]] := prev[order[k]]])
  {
    RingAt(order, next, prev, k);
    RingAt(order, next, prev, k - 1);
    var order' := Without(order, k);
    var next', prev' := next[prev[order[k]] := next[order[k]]], prev[next[order[k]] := prev[order[k]]];
    forall i | -1 <= i < |order'| ensures NodeOk(order', next', prev', i) {
      var j := if i < k then i else i + 1;
      RingAt(order, next, prev, j);
      if i == k - 1 {
        RingAt(order, next, prev, k);
      } else {
        UnlinkedElsewhere(order, next, prev, k, j);
      }
    }
  }

  lemma UnlinkedElsewhere(order: seq<int>, next: seq<int>, prev: seq<int>, k: int, j: int)
    requires Ring(order, next, prev) && 0 <= k < |order| && -1 <= j < |order| && j != k && j != k - 1
    ensures At(order, j) != At(order, k - 1) && At(order, j + 1) != At(order, k + 1)
  {
    if At(order, j) == At(order, k - 1) {
      AtInjective(order, next, prev, j, k - 1);
    }
  }

  /** Putting a node in front. */
  lemma Pushed(order: seq<int>, next: seq<int>, prev: seq<int>, b: int)
    requires Ring(order, next, prev) && 0 <= b < NBUF && b !in order
    ensures 0 <= next[HEAD] <= NBUF
    ensures Ring([b] + order, next[b := next[HEAD]][HEAD := b], prev[b := HEAD][next[HEAD] := b])
  {
    RingAt(order, next, prev, -1);
    var order' := [b] + order;
    var next', prev' := next[b := next[HEAD]][HEAD := b], prev[b := HEAD][next[HEAD] := b];
    forall i | -1 <= i < |order'| ensures NodeOk(order', next', prev', i) {
      if i > 0 {
        RingAt(order, next, prev, i - 1);
        PushedElsewhere(order, next, prev, i - 1);
      }
    }
  }

  lemma PushedElsewhere(order: seq<int>, next: seq<int>, prev: seq<int>, i: int)
    requires Ring(order, next, prev) && 0 <= i < |order|
    ensures At(order, i) != HEAD && At(order, i + 1) != At(order, 0)
  {
  }

  // ---- What the buffers hold ----

  /** Block, reference count, validity. */
  datatype Buf = Buf(dev: nat, blockno: nat, refcnt: int, valid: bool)

  predicate Holds(b: Buf, dev: nat, blockno: nat) {
    b.dev == dev && b.blockno == blockno
  }

  const UNUSED := Buf(0, 0, 0, false)

  /** Buffers in use hold different blocks; the others are as at boot. Should block 0 of device 0 be in
      the cache, its buffer comes before all unused ones, which look the same to a search. */
  ghost predicate BlocksOk(order: seq<int>, bufs: seq<Buf>, inUse: seq<bool>) {
    && |bufs| == NBUF == |inUse|
    && (forall i :: 0 <= i < |order| ==> 0 <= order[i] < NBUF)
    && (forall b :: 0 <= b < NBUF ==> bufs[b].refcnt >= 0 && (!inUse[b] ==> bufs[b] == UNUSED))
    && (forall a, b :: 0 <= a < NBUF && 0 <= b < NBUF && inUse[a] && inUse[b] && a != b ==>
          !Holds(bufs[a], bufs[b].dev, bufs[b].blockno))
    && (forall i, j :: 0 <= i < j < |order| && !inUse[order[i]] && inUse[order[j]] ==> !Holds(bufs[order[j]], 0, 0))
  }

  /** The list is in order of last release, latest first. */
  ghost predicate StampsOk(order: seq<int>, stamp: seq<int>, clock: int) {
    && |stamp| == NBUF
    && (forall i :: 0 <= i < |order| ==> 0 <= order[i] < NBUF && stamp[order[i]] < clock)
    && (forall i, j :: 0 <= i < j < |order| ==> stamp[order[i]] > stamp[order[j]])
  }

  ghost predicate AllListed(order: seq<int>) {
    forall b: int :: 0 <= b < NBUF ==> b in order
  }

  /** The first match of a search is referenced once more. */
  lemma HitKeeps(order: seq<int>, bufs: seq<Buf>, inUse: seq<bool>, i: int, dev: nat, blockno: nat)
    requires BlocksOk(order, bufs, inUse) && AllListed(order) && 0 <= i < |order| && Holds(bufs[order[i]], dev, blockno)
    requires forall j :: 0 <= j < i ==> !Holds(bufs[order[j]], dev, blockno)
    requires forall j, k :: 0 <= j < k < |order| ==> order[j] != order[k]
    ensures var b := order[i];
            && BlocksOk(order, bufs[b := bufs[b].(refcnt := bufs[b].refcnt + 1)], inUse[b := true])
            && forall a :: 0 <= a < NBUF && inUse[a] && Holds(bufs[a], dev, blockno) ==> a == b
  {
    HitIsOnly(order, bufs, inUse, i, dev, blockno);
    var b := order[i];
    var bufs', inUse' := bufs[b := bufs[b].(refcnt := bufs[b].refcnt + 1)], inUse[b := true];
    forall x, y | 0 <= x < y < |order| && !inUse'[order[x]] && inUse'[order[y]] ensures !Holds(bufs'[order[y]], 0, 0) {
      ZeroFirst(order, bufs, inUse, x);
      if order[y] == b {
        assert y == i;
        assert !Holds(bufs[order[x]], dev, blockno);
      }
    }
  }

  lemma HitIsOnly(order: seq<int>, bufs: seq<Buf>, inUse: seq<bool>, i: int, dev: nat, blockno: nat)
    requires BlocksOk(order, bufs, inUse) && AllListed(order) && 0 <= i < |order| && Holds(bufs[order[i]], dev, blockno)
    requires forall j :: 0 <= j < i ==> !Holds(bufs[order[j]], dev, blockno)
    ensures forall a :: 0 <= a < NBUF && inUse[a] && Holds(bufs[a], dev, blockno) ==> a == order[i]
  {
    ZeroFirst(order, bufs, inUse, i);
    forall a | 0 <= a < NBUF && inUse[a] && Holds(bufs[a], dev, blockno) ensures a == order[i] {
      var j := Place(order, a);
    }
  }

  /** Behind an unused buffer there is none in use for block 0 of device 0. */
  lemma ZeroFirst(order: seq<int>, bufs: seq<Buf>, inUse: seq<bool>, i: int)
    requires BlocksOk(order, bufs, inUse) && 0 <= i < |order|
    ensures 0 <= order[i] < NBUF && forall j :: 0 <= j < |order| ==> 0 <= order[j] < NBUF
    ensures !inUse[order[i]] ==> bufs[order[i]] == UNUSED
    ensures !inUse[order[i]] ==> forall j :: i < j < |order| && inUse[order[j]] ==> !Holds(bufs[order[j]], 0, 0)
  {
  }

  /** A buffer without references is recycled for a block that is not in the cache. */
  lemma RecycleKeeps(order: seq<int>, bufs: seq<Buf>, inUse: seq<bool>, b: int, dev: nat, blockno: nat)
    requires BlocksOk(order, bufs, inUse) && AllListed(order) && 0 <= b < NBUF && bufs[b].refcnt == 0
    requires forall j :: 0 <= j < |order| ==> !Holds(bufs[order[j]], dev, blockno)
    ensures forall a :: 0 <= a < NBUF ==> !Holds(bufs[a], dev, blockno)
    ensures BlocksOk(order, bufs[b := Buf(dev, blockno, 1, false)], inUse[b := true])
  {
    forall a | 0 <= a < NBUF ensures !Holds(bufs[a], dev, blockno) {
      var j := Place(order, a);
    }
  }

  /** The list after a buffer has been moved to the front. */
  function InFront(order: seq<int>, k: int): seq<int>
    requires 0 <= k < |order|
  {
    [order[k]] + Without(order, k)
  }

  /** Where the buffer at place `i` of the new list was in the old one. */
  function Behind(k: int, i: int): int {
    if i == 0 then k else if i <= k then i - 1 else i
  }

  lemma InFrontAt(order: seq<int>, k: int, i: int)
    requires 0 <= k < |order| && 0 <= i < |order|
    ensures |InFront(order, k)| == |order| && InFront(order, k)[i] == order[Behind(k, i)] && 0 <= Behind(k, i) < |order|
  {
  }

  lemma MoveListed(order: seq<int>, k: int)
    requires AllListed(order) && 0 <= k < |order|
    ensures AllListed(InFront(order, k))
  {
    forall b: int | 0 <= b < NBUF ensures b in InFront(order, k) {
      var j := Place(order, b);
      InFrontAt(order, k, if j == k then 0 else if j < k then j + 1 else j);
    }
  }

  lemma MoveBlocks(order: seq<int>, bufs: seq<Buf>, inUse: seq<bool>, k: int)
    requires BlocksOk(order, bufs, inUse) && 0 <= k < |order| && 0 <= order[k] < NBUF && inUse[order[k]]
    ensures BlocksOk(InFront(order, k), bufs, inUse)
  {
    var order' := InFront(order, k);
    forall i | 0 <= i < |order'| ensures 0 <= order'[i] < NBUF {
      InFrontAt(order, k, i);
    }
    forall i, j | 0 <= i < j < |order'| && !inUse[order'[i]] && inUse[order'[j]] ensures !Holds(bufs[order'[j]], 0, 0) {
      InFrontAt(order, k, i);
      InFrontAt(order, k, j);
      ZeroFirst(order, bufs, inUse, Behind(k, i));
    }
  }

  lemma MoveStamps(order: seq<int>, stamp: seq<int>, clock: int, k: int)
    requires StampsOk(order, stamp, clock) && 0 <= k < |order| && 0 <= order[k] < NBUF
    requires forall i, j :: 0 <= i < j < |order| ==> order[i] != order[j]
    ensures StampsOk(InFront(order, k), stamp[order[k] := clock], clock + 1)
  {
    var order', stamp' := InFront(order, k), stamp[order[k] := clock];
    forall i | 0 <= i < |order'| ensures 0 <= order'[i] < NBUF && stamp'[order'[i]] < clock + 1 {
      InFrontAt(order, k, i);
    }
    forall i, j | 0 <= i < j < |order'| ensures stamp'[order'[i]] > stamp'[order'[j]] {
      InFrontAt(order, k, i);
      InFrontAt(order, k, j);
      assert i > 0 ==> stamp[order[Behind(k, i)]] > stamp[order[Behind(k, j)]];
    }
  }

  /** Moving a used buffer to the front. */
  lemma MoveKeeps(order: seq<int>, bufs: seq<Buf>, inUse: seq<bool>, stamp: seq<int>, clock: int, k: int)
    requires BlocksOk(order, bufs, inUse) && StampsOk(order, stamp, clock) && AllListed(order)
    requires 0 <= k < |order| && 0 <= order[k] < NBUF && inUse[order[k]]
    requires forall i, j :: 0 <= i < j < |order| ==> order[i] != order[j]
    ensures var order' := InFront(order, k);
            BlocksOk(order', bufs, inUse) && StampsOk(order', stamp[order[k] := clock], clock + 1) && AllListed(order')
  {
    hide BlocksOk, StampsOk, AllListed, InFront;
    BlocksSize(order, bufs, inUse);
    MoveListed(order, k);
    MoveBlocks(order, bufs, inUse, k);
    MoveStamps(order, stamp, clock, k);
  }

  /** Buffer `b` is at place `i` of the list; the head is before the first and behind the last place. */
  predicate PlaceOf(order: seq<int>, b: int, i: int) {
    -1 <= i <= |order| && b == At(order, i)
  }

  /** No buffer listed before `b` holds the block; none at all if `b` is the head. */
  ghost predicate NoneBefore(order: seq<int>, bufs: seq<Buf>, b: int, dev: nat, blockno: nat)
    requires |bufs| == NBUF
  {
    exists i :: PlaceOf(order, b, i) && i >= 0 && (b == HEAD ==> i == |order|)
                && forall j :: 0 <= j < i ==> 0 <= order[j] < NBUF && !Holds(bufs[order[j]], dev, blockno)
  }

  /** Every buffer listed after `b` has references; all buffers if `b` is the head. */
  ghost predicate NoneAfter(order: seq<int>, bufs: seq<Buf>, b: int)
    requires |bufs| == NBUF
  {
    exists i :: PlaceOf(order, b, i) && i < |order| && (b == HEAD ==> i == -1)
                && forall j :: i < j < |order| ==> 0 <= order[j] < NBUF && bufs[order[j]].refcnt > 0
  }

  class Cache {
    var next: seq<int>
    var prev: seq<int>
    var bufs: seq<Buf>
    ghost var order: seq<int>
    ghost var inUse: seq<bool>
    /** When each buffer was last moved to the front of the list. */
    ghost var stamp: seq<int>
    ghost var clock: int

    ghost predicate Valid()
      reads this
    {
      && Ring(order, next, prev) && AllListed(order)
      && BlocksOk(order, bufs, inUse) && StampsOk(order, stamp, clock)
    }

    /** `binit`: the buffers are put into the ring one after the other, each in front. */
    constructor ()
      ensures Valid() && forall b :: 0 <= b < NBUF ==> !inUse[b] && bufs[b].refcnt == 0
    {
      next, prev := seq(NBUF + 1, _ => HEAD), seq(NBUF + 1, _ => HEAD);
      bufs, inUse := seq(NBUF, _ => UNUSED), seq(NBUF, _ => false);
      order, stamp, clock := [], seq(NBUF, i => i), NBUF;
      new;
      assert NodeOk([], next, prev, -1);
      var b := 0;
      while b < NBUF
        invariant 0 <= b <= NBUF && Ring(order, next, prev) && |order| == b
        invariant forall i :: 0 <= i < b ==> order[i] == b - 1 - i
        invariant bufs == seq(NBUF, _ => UNUSED) && inUse == seq(NBUF, _ => false) && stamp == seq(NBUF, i => i) && clock == NBUF
      {
        PushFront(b);
        b := b + 1;
      }
      forall x: int | 0 <= x < NBUF ensures x in order {
        assert order[NBUF - 1 - x] == x;
      }
    }

    /** Link a buffer in right behind the head. */
    method PushFront(b: int)
      requires Ring(order, next, prev) && 0 <= b < NBUF && b !in order
      modifies this`next, this`prev, this`order
      ensures Ring(order, next, prev) && order == [b] + old(order)
    {
      Pushed(order, next, prev, b);
      next := next[b := next[HEAD]];
      prev := prev[b := HEAD];
      prev := prev[next[HEAD] := b];
      next := next[HEAD := b];
      order := [b] + order;
    }

    /** Find the block, or recycle the buffer that was released longest ago; -1 if all are in use. */
    method Bget(dev: nat, blockno: nat) returns (b: int)
      requires Valid()
      modifies this`bufs, this`inUse
      ensures Valid()
      ensures b == -1 <==> forall a :: 0 <= a < NBUF ==> !Holds(old(bufs)[a], dev, blockno) && old(bufs)[a].refcnt > 0
      ensures b == -1 ==> bufs == old(bufs) && inUse == old(inUse)
      ensures b != -1 ==>
                && 0 <= b < NBUF && inUse == old(inUse)[b := true] && Holds(bufs[b], dev, blockno)
                && bufs[b].refcnt == old(bufs)[b].refcnt + 1 && (forall a :: 0 <= a < NBUF && a != b ==> bufs[a] == old(bufs)[a])
                && (Holds(old(bufs)[b], dev, blockno) ==> bufs[b].valid == old(bufs)[b].valid)
                && (forall a :: 0 <= a < NBUF && old(inUse)[a] && Holds(old(bufs)[a], dev, blockno) ==> a == b)
      ensures b != -1 && !Holds(old(bufs)[b], dev, blockno) ==>
                && old(bufs)[b].refcnt == 0 && !bufs[b].valid && (forall a :: 0 <= a < NBUF ==> !Holds(old(bufs)[a], dev, blockno))
                && (forall a :: 0 <= a < NBUF && old(bufs)[a].refcnt == 0 ==> stamp[b] <= stamp[a])
    {
      hide Ring, AllListed, BlocksOk, StampsOk;
      b := Find(dev, blockno);
      ghost var i :| PlaceOf(order, b, i) && i >= 0 && (b == HEAD ==> i == |order|)
                     && forall j :: 0 <= j < i ==> 0 <= order[j] < NBUF && !Holds(bufs[order[j]], dev, blockno);
      if b != HEAD {
        RingDistinct(order, next, prev);
        HitKeeps(order, bufs, inUse, i, dev, blockno);
        BlocksSize(order, bufs, inUse);
        bufs := bufs[b := bufs[b].(refcnt := bufs[b].refcnt + 1)];
        inUse := inUse[b := true];
        return;
      }
      b := FindUnused();
      i :| PlaceOf(order, b, i) && i < |order| && (b == HEAD ==> i == -1)
           && forall j :: i < j < |order| ==> 0 <= order[j] < NBUF && bufs[order[j]].refcnt > 0;
      if b != HEAD {
        RecycleKeeps(order, bufs, inUse, b, dev, blockno);
        BlocksSize(order, bufs, inUse);
        LeastRecent(order, bufs, inUse, stamp, clock, i);
        bufs := bufs[b := Buf(dev, blockno, 1, false)];
        inUse := inUse[b := true];
        return;
      }
      NoneLeft(order, bufs, inUse, dev, blockno);
      return -1;
    }

    /** Search from the most recently released buffer. */
    method Find(dev: nat, blockno: nat) returns (b: int)
      requires Valid()
      ensures |bufs| == NBUF && (b == HEAD || (0 <= b < NBUF && Holds(bufs[b], dev, blockno)))
      ensures NoneBefore(order, bufs, b, dev, blockno)
    {
      RingAt(order, next, prev, -1);
      b := next[HEAD];
      ghost var i := 0;
      while b != HEAD
        invariant 0 <= i <= |order| && b == At(order, i)
        invariant forall j :: 0 <= j < i ==> 0 <= order[j] < NBUF && !Holds(bufs[order[j]], dev, blockno)
        decreases |order| - i
      {
        if Holds(bufs[b], dev, blockno) {
          assert PlaceOf(order, b, i);
          return;
        }
        RingAt(order, next, prev, i);
        b, i := next[b], i + 1;
      }
      assert PlaceOf(order, b, i);
    }

    /** Search from the least recently released buffer for one without references. */
    method FindUnused() returns (b: int)
      requires Valid()
      ensures |bufs| == NBUF && (b == HEAD || (0 <= b < NBUF && bufs[b].refcnt == 0))
      ensures NoneAfter(order, bufs, b)
    {
      RingAt(order, next, prev, |order| - 1);
      b := prev[HEAD];
      ghost var i := |order| - 1;
      while b != HEAD
        invariant -1 <= i < |order| && b == At(order, i)
        invariant forall j :: i < j < |order| ==> 0 <= order[j] < NBUF && bufs[order[j]].refcnt > 0
        decreases i
      {
        if bufs[b].refcnt == 0 {
          assert PlaceOf(order, b, i);
          return;
        }
        RingAt(order, next, prev, i - 1);
        b, i := prev[b], i - 1;
      }
      assert PlaceOf(order, b, i);
    }

    /** Give up a reference; a buffer without any moves to the front. */
    method Brelse(b: int)
      requires Valid() && 0 <= b < NBUF && bufs[b].refcnt > 0
      modifies this`bufs, this`next, this`prev, this`order, this`stamp, this`clock
      ensures Valid() && bufs == old(bufs)[b := old(bufs)[b].(refcnt := old(bufs)[b].refcnt - 1)]
      ensures bufs[b].refcnt > 0 ==> order == old(order) && stamp == old(stamp)
      ensures bufs[b].refcnt == 0 ==>
                && order != [] && order[0] == b && stamp == old(stamp)[b := old(clock)]
                && forall a :: 0 <= a < NBUF && a != b ==> stamp[a] < stamp[b]
    {
      hide Ring, AllListed, BlocksOk, StampsOk;
      BlocksSize(order, bufs, inUse);
      RefKeeps(order, bufs, inUse, b, bufs[b].refcnt - 1);
      bufs := bufs[b := bufs[b].(refcnt := bufs[b].refcnt - 1)];
      if bufs[b].refcnt == 0 {
        MoveToFront(b);
      }
    }

    /** Take a buffer, at place `k` of the list, out of the ring. */
    method Unlink(b: int, ghost k: int)
      requires Ring(order, next, prev) && 0 <= k < |order| && order[k] == b && 0 <= b < NBUF
      modifies this`next, this`prev, this`order
      ensures Ring(order, next, prev) && order == Without(old(order), k) && b !in order
    {
      hide Ring;
      RingDistinct(order, next, prev);
      Unlinked(order, next, prev, k);
      NotTwice(order, next, prev, k);
      prev := prev[next[b] := prev[b]];
      next := next[prev[b] := next[b]];
      order := Without(order, k);
    }

    method MoveToFront(b: int)
      requires Valid() && 0 <= b < NBUF && |inUse| == NBUF && inUse[b]
      modifies this`next, this`prev, this`order, this`stamp, this`clock
      ensures Valid() && order != [] && order[0] == b && stamp == old(stamp)[b := old(clock)]
      ensures forall a :: 0 <= a < NBUF && a != b ==> stamp[a] < stamp[b]
    {
      hide Ring, AllListed, BlocksOk, StampsOk, Without;
      Listed(order, b);
      ghost var k := Place(order, b);
      RingDistinct(order, next, prev);
      MoveKeeps(order, bufs, inUse, stamp, clock, k);
      StampsSize(order, stamp, clock);
      ghost var order0 := order;
      Unlink(b, k);
      PushFront(b);
      assert order == InFront(order0, k);
      stamp := stamp[b := clock];
      clock := clock + 1;
      Latest(order, stamp, clock);
    }

    /** Keep a buffer in the cache. */
    method Bpin(b: int)
      requires Valid() && 0 <= b < NBUF && bufs[b].refcnt > 0
      modifies this`bufs
      ensures Valid() && bufs == old(bufs)[b := old(bufs)[b].(refcnt := old(bufs)[b].refcnt + 1)]
    {
      hide Ring, AllListed, BlocksOk, StampsOk;
      BlocksSize(order, bufs, inUse);
      RefKeeps(order, bufs, inUse, b, bufs[b].refcnt + 1);
      bufs := bufs[b := bufs[b].(refcnt := bufs[b].refcnt + 1)];
    }

    /** Undo a pin. The buffer keeps its place in the list. */
    method Bunpin(b: int)
      requires Valid() && 0 <= b < NBUF && bufs[b].refcnt > 0
      modifies this`bufs
      ensures Valid() && bufs == old(bufs)[b := old(bufs)[b].(refcnt := old(bufs)[b].refcnt - 1)]
    {
      hide Ring, AllListed, BlocksOk, StampsOk;
      BlocksSize(order, bufs, inUse);
      RefKeeps(order, bufs, inUse, b, bufs[b].refcnt - 1);
      bufs := bufs[b := bufs[b].(refcnt := bufs[b].refcnt - 1)];
    }
  }

  lemma BlocksSize(order: seq<int>, bufs: seq<Buf>, inUse: seq<bool>)
    requires BlocksOk(order, bufs, inUse)
    ensures |bufs| == NBUF == |inUse|
    ensures forall b :: 0 <= b < NBUF && bufs[b].refcnt > 0 ==> inUse[b]
  {
  }

  lemma StampsSize(order: seq<int>, stamp: seq<int>, clock: int)
    requires StampsOk(order, stamp, clock)
    ensures |stamp| == NBUF
  {
  }

  lemma RefKeeps(order: seq<int>, bufs: seq<Buf>, inUse: seq<bool>, b: int, refcnt: int)
    requires BlocksOk(order, bufs, inUse) && 0 <= b < NBUF && refcnt >= 0 && inUse[b]
    ensures BlocksOk(order, bufs[b := bufs[b].(refcnt := refcnt)], inUse)
  {
  }

  /** The last buffer of the list without references is the one released longest ago. */
  lemma LeastRecent(order: seq<int>, bufs: seq<Buf>, inUse: seq<bool>, stamp: seq<int>, clock: int, i: int)
    requires BlocksOk(order, bufs, inUse) && StampsOk(order, stamp, clock) && AllListed(order) && 0 <= i < |order|
    requires forall j :: i < j < |order| ==> bufs[order[j]].refcnt > 0
    ensures |stamp| == NBUF && 0 <= order[i] < NBUF
    ensures forall a :: 0 <= a < NBUF && bufs[a].refcnt == 0 ==> stamp[order[i]] <= stamp[a]
  {
    forall a | 0 <= a < NBUF && bufs[a].refcnt == 0 ensures stamp[order[i]] <= stamp[a] {
      var j := Place(order, a);
    }
  }

  lemma NoneLeft(order: seq<int>, bufs: seq<Buf>, inUse: seq<bool>, dev: nat, blockno: nat)
    requires BlocksOk(order, bufs, inUse) && AllListed(order)
    requires forall j :: 0 <= j < |order| ==> !Holds(bufs[order[j]], dev, blockno) && bufs[order[j]].refcnt > 0
    ensures forall a :: 0 <= a < NBUF ==> !Holds(bufs[a], dev, blockno) && bufs[a].refcnt > 0
  {
    forall a | 0 <= a < NBUF ensures !Holds(bufs[a], dev, blockno) && bufs[a].refcnt > 0 {
      var j := Place(order, a);
    }
  }

  ghost function Place(order: seq<int>, b: int): (k: int)
    requires b in order
    ensures 0 <= k < |order| && order[k] == b
  {
    if order[0] == b then 0 else Place(order[1..], b) + 1
  }

  lemma Listed(order: seq<int>, b: int)
    requires AllListed(order) && 0 <= b < NBUF
    ensures b in order
  {
  }

  lemma RingDistinct(order: seq<int>, next: seq<int>, prev: seq<int>)
    requires Ring(order, next, prev)
    ensures |next| == NBUF + 1 == |prev| && forall i, j :: 0 <= i < j < |order| ==> order[i] != order[j]
  {
  }

  lemma NotTwice(order: seq<int>, next: seq<int>, prev: seq<int>, k: int)
    requires Ring(order, next, prev) && 0 <= k < |order|
    ensures order[k] !in Without(order, k)
  {
  }

  lemma Latest(order: seq<int>, stamp: seq<int>, clock: int)
    requires StampsOk(order, stamp, clock) && AllListed(order) && order != []
    ensures |stamp| == NBUF && 0 <= order[0] < NBUF
    ensures forall a :: 0 <= a < NBUF && a != order[0] ==> stamp[a] < stamp[order[0]]
  {
    forall a | 0 <= a < NBUF && a != order[0] ensures stamp[a] < stamp[order[0]] {
      var j := Place(order, a);
    }
  }
}
