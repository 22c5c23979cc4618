/** Recovery in the mirrored file system unpins buffers that it never pinned. What that does to reference
    counts, which are 32-bit numbers: while nobody reads a recovered block, its buffer cannot be recycled;
    while exactly one reader does, it can be, under the reader's hands. */
module RecoveryBuffers {
  import Counting
  import BufferCache

  const NBUF := BufferCache.NBUF
  const WORD: nat := 0x1_0000_0000
  const NONE := -1

  /** A buffer: the block it holds, if any, and its reference count. */
  datatype Slot = Slot(blockno: int, refcnt: nat)

  /** Each block of `lost` is held by one buffer, whose count has wrapped to the largest number; all other
      buffers are unreferenced. */
  ghost predicate Lost(slots: seq<Slot>, lost: set<int>) {
    && |slots| == NBUF && NONE !in lost
    && (forall b :: 0 <= b < NBUF ==> slots[b].refcnt == if slots[b].blockno in lost then WORD - 1 else 0)
    && (forall a, b :: 0 <= a < b < NBUF && slots[a].blockno == slots[b].blockno ==> slots[a].blockno == NONE)
    && (forall p :: p in lost ==> exists b :: 0 <= b < NBUF && slots[b].blockno == p)
  }

  // ---- Counts and references ----

  /** `held[b]` references to buffer `b` are held by somebody, and it has been unpinned `short[b]` times
      without having been pinned; its count is the difference, as far as 32 bits go. */
  ghost predicate Balanced(slots: seq<Slot>, held: seq<nat>, short: seq<nat>) {
    && |slots| == NBUF == |held| == |short|
    && forall b :: 0 <= b < NBUF ==> Fits(slots[b].refcnt, held[b], short[b])
  }

  predicate Fits(refcnt: nat, held: nat, short: nat) {
    refcnt < WORD && (refcnt + short - held) % WORD == 0
  }

  lemma FitsMore(refcnt: nat, held: nat, short: nat)
    requires Fits(refcnt, held, short)
    ensures Fits((refcnt + 1) % WORD, held + 1, short)
    ensures held > 0 ==> Fits((refcnt + WORD - 1) % WORD, held - 1, short)
    ensures Fits((refcnt + WORD - 1) % WORD, held, short + 1)
  {
  }

  /** When a buffer may be recycled, in any run: exactly when as many references to it are held as it has been
      unpinned without a pin. A buffer that nobody holds is thus out of circulation exactly if it was so
      unpinned; and a buffer that was so unpinned once may be recycled exactly while it has one holder. */
  lemma OpenExactly(slots: seq<Slot>, held: seq<nat>, short: seq<nat>, b: int)
    requires Balanced(slots, held, short) && 0 <= b < NBUF && held[b] < WORD && short[b] < WORD
    ensures slots[b].refcnt == 0 <==> held[b] == short[b]
    ensures held[b] == 0 ==> (slots[b].refcnt == 0 <==> short[b] == 0)
    ensures short[b] <= 1 && held[b] > 0 ==> (slots[b].refcnt == 0 <==> short[b] == 1 && held[b] == 1)
  {
    assert Fits(slots[b].refcnt, held[b], short[b]);
    SmallMultiple(slots[b].refcnt + short[b] - held[b]);
  }

  lemma SmallMultiple(x: int)
    requires 0 < x + WORD && x < 2 * WORD && x % WORD == 0
    ensures x == 0 || x == WORD
  {
  }

  // ---- The ring ----

  /** Buffer `b` has been moved to the front of the ring. */
  ghost predicate MovedToFront(order: seq<int>, b: int, order': seq<int>) {
    exists k :: 0 <= k < |order| && order[k] == b && order' == BufferCache.InFront(order, k)
  }

  /** The ring lists every buffer once. */
  ghost predicate Listed(order: seq<int>) {
    && BufferCache.AllListed(order)
    && (forall i :: 0 <= i < |order| ==> 0 <= order[i] < NBUF)
    && (forall i, j :: 0 <= i < j < |order| ==> order[i] != order[j])
  }

  /** Referenced buffers are behind all others. */
  ghost predicate Behind(order: seq<int>, slots: seq<Slot>)
    requires |slots| == NBUF && Listed(order)
  {
    forall i, j :: 0 <= i < j < |order| && slots[order[i]].refcnt != 0 ==> slots[order[j]].refcnt != 0
  }

  /** Buffer `b` is the last one in the ring without references: the one released longest ago. */
  ghost predicate LastUnused(order: seq<int>, slots: seq<Slot>, b: int)
    requires |slots| == NBUF && Listed(order)
  {
    exists i :: LastUnusedAt(order, slots, b, i)
  }

  ghost predicate LastUnusedAt(order: seq<int>, slots: seq<Slot>, b: int, i: int)
    requires |slots| == NBUF && Listed(order)
  {
    && 0 <= i < |order| && order[i] == b && slots[b].refcnt == 0
    && forall j :: i < j < |order| ==> slots[order[j]].refcnt != 0
  }

  /** Behind buffer `h` in the ring there is no unreferenced one, but perhaps `l`. */
  ghost predicate LastBesides(order: seq<int>, slots: seq<Slot>, l: int, h: int)
    requires |slots| == NBUF && Listed(order)
  {
    exists i :: 0 <= i < |order| && order[i] == h && forall j :: i < j < |order| && order[j] != l ==> slots[order[j]].refcnt != 0
  }

  lemma MovedListed(order: seq<int>, k: int)
    requires Listed(order) && 0 <= k < |order|
    ensures Listed(BufferCache.InFront(order, k))
  {
    BufferCache.MoveListed(order, k);
    var order' := BufferCache.InFront(order, k);
    forall i, j | 0 <= i < j < |order'| ensures order'[i] != order'[j] {
      BufferCache.InFrontAt(order, k, i);
      BufferCache.InFrontAt(order, k, j);
    }
    forall i | 0 <= i < |order'| ensures 0 <= order'[i] < NBUF {
      BufferCache.InFrontAt(order, k, i);
    }
  }

  /** An unreferenced buffer moves to the front, while the last other one without references is lost, or none. */
  lemma MovedBehind(order: seq<int>, slots: seq<Slot>, k: int, h: int, slots': seq<Slot>)
    requires |slots| == NBUF == |slots'| && Listed(order) && Behind(order, slots) && 0 <= k < |order|
    requires slots[order[k]].refcnt == 0 == slots'[order[k]].refcnt
    requires forall b :: 0 <= b < NBUF ==> (slots'[b].refcnt != 0 <==> slots[b].refcnt != 0 || b == h)
    requires h == NONE || LastBesides(order, slots, order[k], h)
    ensures Listed(BufferCache.InFront(order, k)) && Behind(BufferCache.InFront(order, k), slots')
  {
    MovedListed(order, k);
    var order' := BufferCache.InFront(order, k);
    forall i, j | 0 <= i < j < |order'| && slots'[order'[i]].refcnt != 0 ensures slots'[order'[j]].refcnt != 0 {
      BufferCache.InFrontAt(order, k, i);
      BufferCache.InFrontAt(order, k, j);
      var a, b := BufferCache.Behind(k, i), BufferCache.Behind(k, j);
      if i > 0 {
        assert a < b && b != k;
      }
    }
  }

  // ---- After recovery ----

  function Flags(slots: seq<Slot>): (flags: seq<bool>)
    ensures |flags| == |slots| && forall b :: 0 <= b < |slots| ==> flags[b] == (slots[b].refcnt != 0)
  {
    seq(|slots|, b requires 0 <= b < |slots| => slots[b].refcnt != 0)
  }

  function Keys(slots: seq<Slot>): (keys: seq<int>)
    ensures |keys| == |slots| && forall b :: 0 <= b < |slots| ==> keys[b] == slots[b].blockno
  {
    seq(|slots|, b requires 0 <= b < |slots| => slots[b].blockno)
  }

  /** As long as nobody reads a lost block, exactly as many buffers are out of circulation as there are lost
      blocks. */
  lemma LostCount(slots: seq<Slot>, lost: set<int>)
    requires Lost(slots, lost)
    ensures |slots| == NBUF && Counting.Count(Flags(slots)) == |lost| <= NBUF
    ensures |lost| == NBUF <==> forall b :: 0 <= b < NBUF ==> slots[b].refcnt != 0
  {
    hide Lost, Counting.Count, Counting.KeySet, Flags, Keys;
    LostKeys(slots, lost);
    Counting.CountKeys(Flags(slots), Keys(slots));
    Counting.CountAll(Flags(slots));
    assert forall b :: 0 <= b < NBUF ==> Flags(slots)[b] == (slots[b].refcnt != 0);
  }

  lemma LostKeys(slots: seq<Slot>, lost: set<int>)
    requires Lost(slots, lost)
    ensures |slots| == NBUF && Counting.KeySet(Flags(slots), Keys(slots)) == lost
    ensures forall a, b :: 0 <= a < b < NBUF && Flags(slots)[a] && Flags(slots)[b] ==> Keys(slots)[a] != Keys(slots)[b]
  {
    forall p | p in lost ensures p in Counting.KeySet(Flags(slots), Keys(slots)) {
      var b :| 0 <= b < NBUF && slots[b].blockno == p;
      assert Flags(slots)[b] && Keys(slots)[b] == p;
    }
  }

  /** A buffer without references now holds block `p`, once; or it held it already. */
  ghost predicate Fetched(slots: seq<Slot>, p: nat, b: int, slots': seq<Slot>)
    requires |slots| == NBUF
  {
    && 0 <= b < NBUF && (slots[b].blockno == p || (slots[b].refcnt == 0 && forall a :: 0 <= a < NBUF ==> slots[a].blockno != p))
    && slots' == slots[b := Slot(p, (slots[b].refcnt + 1) % WORD)]
  }

  /** Reading and releasing a block that is not lost loses nothing. */
  lemma PassingKeeps(slots: seq<Slot>, lost: set<int>, p: nat, b: int, slots1: seq<Slot>)
    requires Lost(slots, lost) && p !in lost && |slots| == NBUF && Fetched(slots, p, b, slots1)
    ensures 0 <= b < NBUF && slots[b].refcnt == 0 && slots1 == slots[b := Slot(p, 1)]
    ensures Lost(slots[b := Slot(p, 0)], lost)
  {
    var slots' := slots[b := Slot(p, 0)];
    forall q | q in lost ensures exists c :: 0 <= c < NBUF && slots'[c].blockno == q {
      var c :| 0 <= c < NBUF && slots[c].blockno == q;
      assert slots'[c].blockno == q;
    }
  }

  /** A second block fetched while the first is in use is fetched as if it were not. */
  lemma SecondFetched(slots: seq<Slot>, l: int, p: nat, q: nat, h: int, slots1: seq<Slot>)
    requires |slots| == NBUF && 0 <= l < NBUF && slots[l] == Slot(p, 0) && p != q
    requires Fetched(slots[l := Slot(p, 1)], q, h, slots1)
    ensures h != l && 0 <= h < NBUF && |slots1| == NBUF
    ensures Fetched(slots, q, h, slots1[l := Slot(p, 0)]) && slots1[l] == Slot(p, 1)
  {
    var taken := slots[l := Slot(p, 1)];
    assert forall a :: 0 <= a < NBUF ==> slots[a].blockno == taken[a].blockno;
    assert slots1[l := Slot(p, 0)] == slots[h := slots1[h]];
  }

  /** A buffer whose count wraps is lost. */
  lemma WrapLoses(slots: seq<Slot>, lost: set<int>, p: nat, b: int)
    requires Lost(slots, lost) && p !in lost && 0 <= b < NBUF && slots[b] == Slot(p, 0)
    ensures Lost(slots[b := Slot(p, WORD - 1)], lost + {p})
  {
    var slots' := slots[b := Slot(p, WORD - 1)];
    forall q | q in lost + {p} ensures exists c :: 0 <= c < NBUF && slots'[c].blockno == q {
      if q == p {
        assert slots'[b].blockno == q;
      } else {
        var c :| 0 <= c < NBUF && slots[c].blockno == q;
        assert slots'[c].blockno == q;
      }
    }
  }

  /** The blocks that recovery reads: the log area from `start` on, and the blocks it copies home. */
  predicate InLog(start: nat, n: nat, p: int) {
    start <= p <= start + n
  }

  /** None of these blocks is in the cache. */
  ghost predicate Absent(slots: seq<Slot>, blocks: set<int>) {
    forall b :: 0 <= b < |slots| ==> slots[b].blockno !in blocks
  }

  /** Nobody holds a reference; the buffers unpinned without a pin are those of the lost blocks, once each. */
  ghost predicate Resting(slots: seq<Slot>, held: seq<nat>, short: seq<nat>, lost: set<int>) {
    && |slots| == NBUF == |held| == |short|
    && forall b :: 0 <= b < NBUF ==> held[b] == 0 && short[b] == if slots[b].blockno in lost then 1 else 0
  }

  /** The buffers of the mirrored file system. `order` is the ring from front to back. Ghost: how many
      references to each buffer are held, and how often it has been unpinned without having been pinned. */
  class Buffers {
    var slots: seq<Slot>
    var order: seq<int>
    ghost var held: seq<nat>
    ghost var short: seq<nat>

    /** What every sequence of calls keeps. */
    ghost predicate Valid()
      reads this
    {
      && Balanced(slots, held, short) && Listed(order)
      && forall a, b :: 0 <= a < b < NBUF && slots[a].blockno == slots[b].blockno ==> slots[a].blockno == NONE
    }

    /** At boot every buffer is unreferenced and holds nothing. */
    constructor ()
      ensures Valid() && Lost(slots, {}) && Resting(slots, held, short, {}) && Behind(order, slots)
      ensures forall b :: 0 <= b < NBUF ==> slots[b].blockno == NONE
    {
      slots := seq(NBUF, _ => Slot(NONE, 0));
      order := seq(NBUF, i requires 0 <= i < NBUF => NBUF - 1 - i);
      held, short := seq(NBUF, _ => 0), seq(NBUF, _ => 0);
      new;
      forall b: int | 0 <= b < NBUF ensures b in order {
        assert order[NBUF - 1 - b] == b;
      }
    }

    /** Find the block, or recycle the unreferenced buffer released longest ago; -1 stands for the panic. A
        buffer is recycled only while it has been unpinned without a pin as often as references to it are held. */
    method Bget(p: nat) returns (b: int)
      requires Valid()
      modifies this`slots, this`held
      ensures Valid()
      ensures b == -1 <==> forall a :: 0 <= a < NBUF ==> old(slots)[a].blockno != p && old(slots)[a].refcnt != 0
      ensures b == -1 ==> slots == old(slots) && held == old(held)
      ensures b != -1 ==> Fetched(old(slots), p, b, slots) && |old(held)| == NBUF && held == old(held)[b := old(held)[b] + 1]
      ensures b != -1 && old(slots)[b].blockno != p ==> LastUnused(order, old(slots), b)
      ensures b != -1 && old(slots)[b].blockno != p && |short| == NBUF && old(held)[b] < WORD && short[b] < WORD ==>
                old(held)[b] == short[b]
    {
      hide Balanced, Listed;
      BalancedSizes(slots, held, short);
      b := Find(p);
      if b != -1 {
        CountUp(slots, held, short, b, p);
        slots := slots[b := slots[b].(refcnt := (slots[b].refcnt + 1) % WORD)];
        held := held[b := held[b] + 1];
        return;
      }
      b := FindUnused();
      if b != -1 {
        if held[b] < WORD && short[b] < WORD {
          OpenExactly(slots, held, short, b);
        }
        CountUp(slots, held, short, b, p);
        slots := slots[b := Slot(p, 1)];
        held := held[b := held[b] + 1];
      }
    }

    method Find(p: nat) returns (b: int)
      requires Valid()
      ensures |slots| == NBUF
      ensures b == -1 <==> forall a :: 0 <= a < NBUF ==> slots[a].blockno != p
      ensures b != -1 ==> 0 <= b < NBUF && slots[b].blockno == p
    {
      hide Balanced;
      BalancedSizes(slots, held, short);
      var i := 0;
      while i < |order|
        invariant 0 <= i <= |order| && forall j :: 0 <= j < i ==> slots[order[j]].blockno != p
      {
        if slots[order[i]].blockno == p {
          return order[i];
        }
        i := i + 1;
      }
      forall a: int | 0 <= a < NBUF ensures slots[a].blockno != p {
        var j := BufferCache.Place(order, a);
      }
      return -1;
    }

    method FindUnused() returns (b: int)
      requires Valid()
      ensures |slots| == NBUF && Listed(order)
      ensures b == -1 <==> forall a :: 0 <= a < NBUF ==> slots[a].refcnt != 0
      ensures b != -1 ==> 0 <= b < NBUF && slots[b].refcnt == 0 && LastUnused(order, slots, b)
    {
      hide Balanced;
      BalancedSizes(slots, held, short);
      var i := |order| - 1;
      while i >= 0
        invariant -1 <= i < |order| && forall j :: i < j < |order| ==> slots[order[j]].refcnt != 0
      {
        if slots[order[i]].refcnt == 0 {
          assert LastUnusedAt(order, slots, order[i], i);
          return order[i];
        }
        i := i - 1;
      }
      forall a: int | 0 <= a < NBUF ensures slots[a].refcnt != 0 {
        var j := BufferCache.Place(order, a);
      }
      return -1;
    }

    /** Give up a reference. A buffer whose count becomes 0 moves to the front of the ring. */
    method Brelse(b: int)
      requires Valid() && 0 <= b < NBUF && |held| == NBUF && held[b] > 0
      modifies this`slots, this`order, this`held
      ensures Valid() && held == old(held)[b := old(held)[b] - 1]
      ensures |old(slots)| == NBUF && slots == old(slots)[b := Less(old(slots)[b])]
      ensures slots[b].refcnt != 0 ==> order == old(order)
      ensures slots[b].refcnt == 0 ==> MovedToFront(old(order), b, order)
    {
      hide Balanced, Listed;
      BalancedSizes(slots, held, short);
      CountDown(slots, held, short, b);
      slots := slots[b := Less(slots[b])];
      held := held[b := held[b] - 1];
      if slots[b].refcnt == 0 {
        ListedAt(order, b);
        ghost var k := BufferCache.Place(order, b);
        MovedListed(order, k);
        order := MoveToFront(b, k);
      }
    }

    /** The ring with buffer `b`, at place `k`, in front. */
    method MoveToFront(b: int, ghost k: int) returns (moved: seq<int>)
      requires Listed(order) && 0 <= k < |order| && order[k] == b
      ensures moved == BufferCache.InFront(order, k)
    {
      var i := 0;
      while order[i] != b
        invariant 0 <= i <= k
        decreases k - i
      {
        i := i + 1;
      }
      assert i == k;
      return [b] + order[..i] + order[i + 1..];
    }

    /** Unpin a buffer; in recovery no reference had been taken for it. */
    method Bunpin(b: int, ghost pinned: bool)
      requires Valid() && 0 <= b < NBUF && |held| == NBUF && (pinned ==> held[b] > 0)
      modifies this`slots, this`held, this`short
      ensures Valid() && |old(slots)| == NBUF == |old(short)| && slots == old(slots)[b := Less(old(slots)[b])]
      ensures held == if pinned then old(held)[b := old(held)[b] - 1] else old(held)
      ensures short == if pinned then old(short) else old(short)[b := old(short)[b] + 1]
    {
      hide Balanced, Listed;
      BalancedSizes(slots, held, short);
      CountDown(slots, held, short, b);
      slots := slots[b := Less(slots[b])];
      if pinned {
        held := held[b := held[b] - 1];
      } else {
        short := short[b := short[b] + 1];
      }
    }

    /** Pin a buffer. */
    method Bpin(b: int)
      requires Valid() && 0 <= b < NBUF && |held| == NBUF
      modifies this`slots, this`held
      ensures Valid() && |old(slots)| == NBUF && held == old(held)[b := old(held)[b] + 1]
      ensures slots == old(slots)[b := old(slots)[b].(refcnt := (old(slots)[b].refcnt + 1) % WORD)]
    {
      hide Balanced, Listed;
      BalancedSizes(slots, held, short);
      CountUp(slots, held, short, b, slots[b].blockno);
      slots := slots[b := slots[b].(refcnt := (slots[b].refcnt + 1) % WORD)];
      held := held[b := held[b] + 1];
    }

    // ---- Recovery ----

    /** Between the steps of recovery: `lost` have been copied home, and the blocks `absent`, among them those
        still to be copied home, are not in the cache. Any other block may be, in a buffer nobody holds. */
    ghost predicate Recovering(absent: set<int>, lost: set<int>)
      reads this
    {
      && Valid() && Lost(slots, lost) && Resting(slots, held, short, lost) && Behind(order, slots) && Absent(slots, absent)
    }

    /** Read a block, and release it. */
    method Visit(p: nat, ghost absent: set<int>, ghost lost: set<int>) returns (ok: bool)
      requires Recovering(absent, lost) && p !in absent && p !in lost
      modifies this
      ensures Recovering(absent, lost) && (ok <==> |lost| < NBUF)
    {
      hide Lost, Fetched, Balanced, Listed, Behind, Resting, Absent, Fits;
      ghost var before, order0, held0 := slots, order, held;
      LostCount(slots, lost);
      FullHolds(slots, lost, p);
      var b := Bget(p);
      if b == -1 {
        return false;
      }
      PassingKeeps(before, lost, p, b, slots);
      Brelse(b);
      assert slots == before[b := Slot(p, 0)];
      assert held == held0;
      VisitRests(before, held, short, lost, absent, b, p);
      ghost var k :| 0 <= k < |order0| && order0[k] == b && order == BufferCache.InFront(order0, k);
      MovedBehind(order0, before, k, NONE, slots);
      return true;
    }

    /** Copy one logged block home: it takes two buffers at once, and the buffer of the home block is unpinned
        without having been pinned. */
    method InstallOne(logBlock: nat, home: nat, ghost absent: set<int>, ghost lost: set<int>) returns (ok: bool)
      requires Recovering(absent, lost) && logBlock !in absent && logBlock !in lost && home in absent && home !in lost
      modifies this
      ensures ok <==> |lost| + 1 < NBUF
      ensures ok ==> Recovering(absent - {home}, lost + {home})
    {
      hide Lost, Fetched, Balanced, Listed, Behind, Resting, Absent, Fits, LastUnused;
      ghost var before, order0, held0, short0 := slots, order, held, short;
      LostCount(before, lost);
      FullHolds(before, lost, logBlock);
      var l := Bget(logBlock);
      if l == -1 {
        return false;
      }
      PassingKeeps(before, lost, logBlock, l, slots);
      ghost var passed := before[l := Slot(logBlock, 0)];
      OneTaken(passed, lost, logBlock, l, home);
      assert slots == passed[l := Slot(logBlock, 1)];
      VisitRests(before, held0, short, lost, absent, l, logBlock);
      NotThere(before, absent, l, logBlock, home);
      var h := Bget(home);
      if h == -1 {
        return false;
      }
      SecondFetched(passed, l, logBlock, home, h, slots);
      PassingKeeps(passed, lost, home, h, slots[l := Slot(logBlock, 0)]);
      LastBut(order0, before, l, logBlock, h);
      ghost var without := slots[l := Slot(logBlock, 0)];
      assert without == passed[h := Slot(home, 1)] && slots[h] == without[h] == Slot(home, 1);
      GiveBack(l, logBlock, h, home);
      WrapLoses(passed[h := Slot(home, 0)], lost, home, h);
      assert passed[h := Slot(home, 0)][h := Slot(home, WORD - 1)] == passed[h := Slot(home, WORD - 1)];
      assert slots == passed[h := Slot(home, WORD - 1)];
      assert held == held0 && short == short0[h := short0[h] + 1];
      InstallRests(passed, held, short0, lost, absent, h, home);
      ghost var k :| 0 <= k < |order0| && order0[k] == l && order == BufferCache.InFront(order0, k);
      MovedBehind(order0, before, k, h, slots);
      return true;
    }

    /** `bunpin` and `brelse` of the home block's buffer, and `brelse` of the log block's, in the order of
        `install_trans`. The first count goes below zero, the second buffer moves to the front of the ring. */
    method GiveBack(l: int, p: nat, h: int, q: nat)
      requires Valid() && |slots| == NBUF == |held| == |short| && 0 <= l < NBUF && 0 <= h < NBUF && l != h
      requires slots[l] == Slot(p, 1) && slots[h] == Slot(q, 1) && held[l] > 0 && held[h] > 0
      modifies this
      ensures Valid() && slots == old(slots)[l := Slot(p, 0)][h := Slot(q, WORD - 1)]
      ensures held == old(held)[l := old(held)[l] - 1][h := old(held)[h] - 1] && short == old(short)[h := old(short)[h] + 1]
      ensures MovedToFront(old(order), l, order)
    {
      hide Valid;
      Bunpin(h, false);
      Brelse(l);
      Brelse(h);
    }

    /** Recovery of a transaction of the blocks `lh`, as the cache sees it, whatever other blocks it holds. It
        finds the buffers it needs if and only if there are fewer than NBUF blocks. Then exactly as many buffers
        as blocks are left with a count other than 0 though nobody holds them, and they are at the end of the
        ring. Blocks that recovery does not read stay out of the cache. */
    method RecoverFromLog(start: nat, lh: seq<nat>, ghost absent: set<int>) returns (ok: bool)
      requires Recovering(absent, {}) && Counting.Different(lh) && Counting.Blocks(lh) <= absent
      requires forall p :: p in absent ==> !InLog(start, |lh|, p)
      modifies this
      ensures ok <==> |lh| < NBUF
      ensures ok ==> Recovering(absent - Counting.Blocks(lh), Counting.Blocks(lh)) && Counting.Count(Flags(slots)) == |lh|
    {
      hide Lost, Counting.Different, Valid, Resting, Behind, Absent;
      var seen := Visit(start, absent, {});
      var tail := 0;
      assert lh[..0] == [] && Counting.Blocks([]) == {} && absent - {} == absent;
      while tail < |lh|
        invariant 0 <= tail <= |lh| && tail < NBUF && seen
        invariant Recovering(absent - Counting.Blocks(lh[..tail]), Counting.Blocks(lh[..tail]))
      {
        PrefixBlocks(lh, tail);
        ghost var left := absent - Counting.Blocks(lh[..tail]);
        assert lh[tail] in Counting.Blocks(lh);
        NotLost(start, lh, absent, tail, start + tail + 1);
        var installed := InstallOne(start + tail + 1, lh[tail], left, Counting.Blocks(lh[..tail]));
        if !installed {
          return false;
        }
        assert left - {lh[tail]} == absent - Counting.Blocks(lh[..tail + 1]);
        tail := tail + 1;
      }
      assert lh[..tail] == lh;
      Counting.BlocksNumber(lh);
      NotLost(start, lh, absent, tail, start);
      var erased := Visit(start, absent - Counting.Blocks(lh), Counting.Blocks(lh));
      LostCount(slots, Counting.Blocks(lh));
      return erased;
    }
  }

  /** The superblock, which is read before recovery starts. */
  const SUPERBLOCK: nat := 1

  /** A buffer in use is given away: after a boot that recovers at least one block, one process reads a recovered
      block, and while it does, another reads any block that is not in the cache. Both get the same buffer. */
  method GivenAway(start: nat, lh: seq<nat>, k: nat, q: nat) returns (c: Buffers, b: int, b2: int)
    requires Counting.Different(lh) && k < |lh| < NBUF && q !in lh && SUPERBLOCK !in lh && q != SUPERBLOCK
    requires !InLog(start, |lh|, q) && forall i :: 0 <= i < |lh| ==> !InLog(start, |lh|, lh[i])
    ensures fresh(c) && c.Valid() && b == b2 && 0 <= b < NBUF
    ensures |c.slots| == NBUF == |c.held| == |c.short|
    ensures c.slots[b] == Slot(q, 1) && c.held[b] == 2 && c.short[b] == 1
  {
    hide Lost, Balanced, Listed, Behind, Resting, Fits, LastUnused, Counting.Different;
    c := new Buffers();
    ghost var absent := Counting.Blocks(lh) + {q};
    var mounted := c.Visit(SUPERBLOCK, absent, {});
    var ok := c.RecoverFromLog(start, lh, absent);
    assert mounted && ok && q in absent - Counting.Blocks(lh);
    ghost var slots, held := c.slots, c.held;
    BalancedSizes(slots, held, c.short);
    LostAt(slots, held, c.short, Counting.Blocks(lh), lh[k]);
    b := c.Bget(lh[k]);
    HitWraps(slots, Counting.Blocks(lh), lh[k], b, c.slots);
    assert c.slots[b].refcnt == 0;
    RestingAt(slots, held, c.short, Counting.Blocks(lh), b);
    b2 := c.Bget(q);
    LastIsLost(c.order, slots, b, lh[k], b2);
  }

  /** A recovered block is in the cache. */
  lemma LostAt(slots: seq<Slot>, held: seq<nat>, short: seq<nat>, lost: set<int>, p: nat)
    requires Lost(slots, lost) && p in lost
    ensures |slots| == NBUF && exists a :: 0 <= a < NBUF && slots[a].blockno == p
  {
  }

  /** Reading a recovered block makes the count of its buffer 0. */
  lemma HitWraps(slots: seq<Slot>, lost: set<int>, p: nat, b: int, slots1: seq<Slot>)
    requires Lost(slots, lost) && p in lost && |slots| == NBUF && Fetched(slots, p, b, slots1)
    ensures 0 <= b < NBUF && slots[b] == Slot(p, WORD - 1) && slots1 == slots[b := Slot(p, 0)]
  {
    var a :| 0 <= a < NBUF && slots[a].blockno == p;
  }

  lemma RestingAt(slots: seq<Slot>, held: seq<nat>, short: seq<nat>, lost: set<int>, b: int)
    requires Resting(slots, held, short, lost) && 0 <= b < NBUF && |slots| == NBUF && slots[b].blockno in lost
    ensures |held| == NBUF == |short| && held[b] == 0 && short[b] == 1
  {
  }

  /** The buffer whose count has just become 0 is the last one without references. */
  lemma LastIsLost(order: seq<int>, slots: seq<Slot>, b: int, p: nat, b2: int)
    requires |slots| == NBUF && Listed(order) && Behind(order, slots) && 0 <= b < NBUF && slots[b].refcnt != 0
    requires LastUnused(order, slots[b := Slot(p, 0)], b2)
    ensures b2 == b
  {
    var i :| LastUnusedAt(order, slots[b := Slot(p, 0)], b2, i);
    ListedAt(order, b);
    var j := BufferCache.Place(order, b);
  }

  lemma NotLost(start: nat, lh: seq<nat>, absent: set<int>, k: nat, p: nat)
    requires k <= |lh| && InLog(start, |lh|, p) && Counting.Blocks(lh) <= absent
    requires forall a :: a in absent ==> !InLog(start, |lh|, a)
    ensures p !in Counting.Blocks(lh[..k]) && p !in absent
  {
    assert forall i :: 0 <= i < |lh| ==> lh[i] in Counting.Blocks(lh);
  }

  /** Passing a block through an unreferenced buffer leaves everything at rest. */
  lemma VisitRests(slots: seq<Slot>, held: seq<nat>, short: seq<nat>, lost: set<int>, absent: set<int>, b: int, p: nat)
    requires Lost(slots, lost) && Resting(slots, held, short, lost) && Absent(slots, absent)
    requires 0 <= b < NBUF && slots[b].refcnt == 0 && p !in absent && p !in lost
    ensures var slots' := slots[b := Slot(p, 0)];
            Resting(slots', held, short, lost) && Absent(slots', absent)
  {
  }

  /** The buffer of a block copied home is now unpinned without a pin. */
  lemma InstallRests(slots: seq<Slot>, held: seq<nat>, short: seq<nat>, lost: set<int>, absent: set<int>, h: int, home: nat)
    requires Lost(slots, lost) && Resting(slots, held, short, lost) && Absent(slots, absent)
    requires 0 <= h < NBUF && slots[h].refcnt == 0 && home !in lost
    requires forall a :: 0 <= a < NBUF ==> slots[a].blockno != home
    ensures |short| == NBUF
    ensures var slots' := slots[h := Slot(home, WORD - 1)];
            && Resting(slots', held, short[h := short[h] + 1], lost + {home}) && Absent(slots', absent - {home})
  {
  }

  lemma NotThere(slots: seq<Slot>, absent: set<int>, l: int, p: nat, q: nat)
    requires Absent(slots, absent) && |slots| == NBUF && 0 <= l < NBUF && q in absent && p != q
    ensures var taken, passed := slots[l := Slot(p, 1)], slots[l := Slot(p, 0)];
            forall a :: 0 <= a < NBUF ==> taken[a].blockno != q && passed[a].blockno != q
  {
  }

  /** The last buffer without references, but for buffer `l`. */
  lemma LastBut(order: seq<int>, slots: seq<Slot>, l: int, p: nat, h: int)
    requires Listed(order) && |slots| == NBUF && 0 <= l < NBUF && h != NONE && LastUnused(order, slots[l := Slot(p, 1)], h)
    ensures LastBesides(order, slots, l, h)
  {
    var i :| LastUnusedAt(order, slots[l := Slot(p, 1)], h, i);
    assert 0 <= i < |order| && order[i] == h;
  }

  /** One reference less, with wrap-around. */
  function Less(s: Slot): Slot {
    s.(refcnt := (s.refcnt + WORD - 1) % WORD)
  }

  lemma BalancedSizes(slots: seq<Slot>, held: seq<nat>, short: seq<nat>)
    requires Balanced(slots, held, short)
    ensures |slots| == NBUF == |held| == |short| && forall b :: 0 <= b < NBUF ==> slots[b].refcnt < WORD
  {
    assert forall b :: 0 <= b < NBUF ==> Fits(slots[b].refcnt, held[b], short[b]);
  }

  lemma ListedAt(order: seq<int>, b: int)
    requires Listed(order) && 0 <= b < NBUF
    ensures b in order
  {
  }

  lemma CountUp(slots: seq<Slot>, held: seq<nat>, short: seq<nat>, b: int, p: int)
    requires Balanced(slots, held, short) && 0 <= b < NBUF
    ensures |slots| == NBUF == |held|
    ensures Balanced(slots[b := Slot(p, (slots[b].refcnt + 1) % WORD)], held[b := held[b] + 1], short)
  {
    hide Fits;
    assert Fits(slots[b].refcnt, held[b], short[b]);
    FitsMore(slots[b].refcnt, held[b], short[b]);
  }

  lemma CountDown(slots: seq<Slot>, held: seq<nat>, short: seq<nat>, b: int)
    requires Balanced(slots, held, short) && 0 <= b < NBUF
    ensures |slots| == NBUF == |held| == |short|
    ensures held[b] > 0 ==> Balanced(slots[b := Less(slots[b])], held[b := held[b] - 1], short)
    ensures Balanced(slots[b := Less(slots[b])], held, short[b := short[b] + 1])
  {
    hide Fits;
    assert Fits(slots[b].refcnt, held[b], short[b]);
    FitsMore(slots[b].refcnt, held[b], short[b]);
  }

  lemma PrefixBlocks(lh: seq<nat>, k: nat)
    requires Counting.Different(lh) && k < |lh|
    ensures |Counting.Blocks(lh[..k])| == k && lh[k] !in Counting.Blocks(lh[..k])
    ensures Counting.Blocks(lh[..k + 1]) == Counting.Blocks(lh[..k]) + {lh[k]}
  {
    Counting.BlocksNumber(lh[..k]);
    assert lh[..k + 1] == lh[..k] + [lh[k]];
  }

  /** When every buffer is lost, no other block is in the cache. */
  lemma FullHolds(slots: seq<Slot>, lost: set<int>, p: nat)
    requires Lost(slots, lost) && p !in lost
    ensures (forall b :: 0 <= b < NBUF ==> slots[b].refcnt != 0) ==> forall b :: 0 <= b < NBUF ==> slots[b].blockno != p
  {
  }

  /** With one more buffer in use, another block can be read exactly when a second one is free. */
  lemma OneTaken(slots: seq<Slot>, lost: set<int>, p: nat, l: int, q: nat)
    requires Lost(slots, lost) && p !in lost && 0 <= l < NBUF && slots[l] == Slot(p, 0) && q !in lost && q != p
    ensures |lost| < NBUF
    ensures var taken := slots[l := Slot(p, 1)];
            |lost| + 1 < NBUF <==> !forall a :: 0 <= a < NBUF ==> taken[a].blockno != q && taken[a].refcnt != 0
  {
    hide Lost;
    LostCount(slots, lost);
    WrapLoses(slots, lost, p, l);
    var wrapped, taken := slots[l := Slot(p, WORD - 1)], slots[l := Slot(p, 1)];
    LostCount(wrapped, lost + {p});
    FullHolds(wrapped, lost + {p}, q);
    assert forall a :: 0 <= a < NBUF ==> taken[a].blockno == wrapped[a].blockno && (taken[a].refcnt != 0 <==> wrapped[a].refcnt != 0);
    assert |lost + {p}| == |lost| + 1;
  }
}
