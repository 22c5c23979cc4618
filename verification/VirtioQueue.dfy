/** The split virtqueue shared by driver and device: descriptors, available ring, used ring. */
module VirtioQueue {

  const NUM: nat := 8

  /** Ring indices are 16 bits wide and never reduced to the ring size. */
  const WRAP: nat := 0x1_0000

  const F_NEXT: nat := 1
  const F_WRITE: nat := 2
  const HEADER_LEN: nat := 16
  const BSIZE: nat := 1024
  const T_IN: nat := 0
  const T_OUT: nat := 1
  const NOBODY := -1

  /** What the address in a descriptor points to. */
  datatype Target = Null | Header(i: nat) | Data(buf: nat) | Status(i: nat)

  datatype Desc = Desc(addr: Target, len: nat, flags: nat, next: nat)

  /** The first part of a disk request: type and place. */
  datatype Request = Request(kind: nat, sector: nat)

  /** Driver book-keeping by head of chain. Buffer 0 is the null pointer. */
  datatype Info = Info(b: nat, status: nat)

  /** The contents of a block: two sectors of 512 bytes. */
  type Sectors = s: seq<int> | |s| == 2 witness [0, 0]

  /** A block buffer: which block, whether the device owns it, contents. */
  datatype Buffer = Buffer(blockno: nat, disk: bool, data: Sectors)

  datatype Phase = Posted | Taken | Done | Seen

  /** A request in flight: its three descriptors, what was asked for, how far it has come. */
  datatype Flight = Flight(a: nat, b: nat, c: nat, buf: nat, write: bool, sector: nat, phase: Phase)

  type Flights = map<int, Flight>

  predicate InChain(f: Flight, d: int) {
    d == f.a || d == f.b || d == f.c
  }

  /** Every descriptor is free or belongs to exactly one chain of three. `holder[d]` names the head of
      the chain that descriptor `d` is in. */
  ghost predicate Partition(free: seq<bool>, holder: seq<int>, live: Flights) {
    && |free| == NUM == |holder|
    && (forall d :: 0 <= d < NUM ==> (free[d] <==> holder[d] == NOBODY))
    && (forall d :: 0 <= d < NUM && holder[d] != NOBODY ==> holder[d] in live && InChain(live[holder[d]], d))
    && (forall h :: h in live ==> ChainHeld(holder, h, live[h]))
  }

  predicate ChainHeld(holder: seq<int>, h: int, f: Flight)
    requires |holder| == NUM
  {
    && h == f.a && f.a < NUM && f.b < NUM && f.c < NUM && f.a != f.b && f.a != f.c && f.b != f.c
    && holder[f.a] == holder[f.b] == holder[f.c] == h
  }

  /** Descriptors belong to one chain only. */
  lemma ChainsDisjoint(free: seq<bool>, holder: seq<int>, live: Flights, h: int, g: int, d: int)
    requires Partition(free, holder, live) && h in live && g in live && InChain(live[h], d) && InChain(live[g], d)
    ensures h == g
  {
    assert ChainHeld(holder, h, live[h]) && ChainHeld(holder, g, live[g]);
  }

  /** Eight descriptors make at most two chains of three. */
  lemma AtMostTwo(free: seq<bool>, holder: seq<int>, live: Flights, s: seq<nat>)
    requires Partition(free, holder, live) && DistinctHeads(s) && forall k :: 0 <= k < |s| ==> s[k] in live
    ensures |s| <= 2
  {
    if |s| > 2 {
      var f, g, k := live[s[0]], live[s[1]], live[s[2]];
      assert ChainHeld(holder, s[0], f) && ChainHeld(holder, s[1], g) && ChainHeld(holder, s[2], k);
      assert s[0] != s[1] && s[0] != s[2] && s[1] != s[2];
      NineOfEight(f.a, f.b, f.c, g.a, g.b, g.c, k.a, k.b, k.c);
    }
  }

  ghost predicate DistinctHeads(s: seq<nat>) {
    forall i, j :: 0 <= i < j < |s| ==> s[i] != s[j]
  }

  lemma NineOfEight(a: nat, b: nat, c: nat, d: nat, e: nat, f: nat, g: nat, h: nat, i: nat)
    requires a < 8 && b < 8 && c < 8 && d < 8 && e < 8 && f < 8 && g < 8 && h < 8 && i < 8
    ensures |{a, b, c, d, e, f, g, h, i}| < 9
  {
    var s := {a, b, c, d, e, f, g, h, i};
    UpToEight(s, 8);
  }

  lemma {:induction false} UpToEight(s: set<nat>, n: nat)
    requires forall x :: x in s ==> x < n
    ensures |s| <= n
  {
    if n > 0 {
      UpToEight(s - {n - 1}, n - 1);
    } else {
      assert s == {};
    }
  }

  /** Fewer than three descriptors are free. */
  ghost predicate FewFree(free: seq<bool>)
    requires |free| == NUM
  {
    exists idx: seq<nat> :: |idx| < 3 && forall d :: 0 <= d < NUM && free[d] ==> d in idx
  }

  /** With fewer than three descriptors free, two requests are in flight. */
  lemma FreeOrTwo(free: seq<bool>, holder: seq<int>, live: Flights)
    requires Partition(free, holder, live)
    ensures FewFree(free) ==> |live| >= 2
  {
    if FewFree(free) && |live| < 2 {
      var idx: seq<nat> :| |idx| < 3 && forall d :: 0 <= d < NUM && free[d] ==> d in idx;
      var f := if |live| == 0 then Flight(0, 0, 0, 0, false, 0, Posted) else live[Some(live)];
      OneChain(free, holder, live, f);
      FiveCover(free, idx, f);
    }
  }

  /** With at most one request in flight, a descriptor is free or in its chain. */
  lemma OneChain(free: seq<bool>, holder: seq<int>, live: Flights, f: Flight)
    requires Partition(free, holder, live) && |live| < 2
    requires |live| == 1 ==> f == live[Some(live)]
    ensures forall d: int :: 0 <= d < NUM && !free[d] ==> InChain(f, d)
  {
    forall d: int | 0 <= d < NUM && !free[d] ensures InChain(f, d) {
      OnlyOne(live, holder[d]);
      assert Some(live) in live.Keys;
    }
  }

  /** Two descriptors and a chain of three are not all descriptors. */
  lemma FiveCover(free: seq<bool>, idx: seq<nat>, f: Flight)
    requires |free| == NUM && |idx| < 3
    requires forall d :: 0 <= d < NUM && free[d] ==> d in idx
    ensures exists d: int :: 0 <= d < NUM && !free[d] && !InChain(f, d)
  {
    var x: int := if |idx| > 0 then idx[0] else 0;
    var y: int := if |idx| > 1 then idx[1] else 0;
    EightInFive(x, y, f.a, f.b, f.c);
    var d: int :| 0 <= d < 8 && !OneOf(d, x, y, f.a, f.b, f.c);
    assert 0 <= d < NUM && !free[d] && !InChain(f, d);
  }

  ghost function Some(live: Flights): (h: int)
    requires |live| > 0
    ensures h in live
  {
    assert live.Keys != {};
    Element(live.Keys)
  }

  ghost function Element<T>(s: set<T>): (x: T)
    requires s != {}
    ensures x in s
  {
    var x :| x in s;
    x
  }

  predicate OneOf(x: int, a: int, b: int, c: int, d: int, e: int) {
    x == a || x == b || x == c || x == d || x == e
  }

  lemma EightInFive(a: int, b: int, c: int, d: int, e: int)
    ensures exists x: int :: 0 <= x < 8 && !OneOf(x, a, b, c, d, e)
  {
    var all, some := {0, 1, 2, 3, 4, 5, 6, 7}, {a, b, c, d, e};
    if forall x: int :: 0 <= x < 8 ==> OneOf(x, a, b, c, d, e) {
      forall x | x in all ensures x in some {
        assert OneOf(x, a, b, c, d, e);
      }
      Larger(all, some);
    }
  }

  lemma Larger(s: set<int>, t: set<int>)
    requires s <= t
    ensures |s| <= |t|
  {
    assert t == s + (t - s);
  }

  lemma OnlyOne(live: Flights, h: int)
    requires h in live && |live| < 2
    ensures live.Keys == {h}
  {
    assert |live.Keys - {h}| == |live.Keys| - 1 == 0;
  }

  /** At most two requests are in flight. */
  lemma LiveAtMostTwo(free: seq<bool>, holder: seq<int>, live: Flights)
    requires Partition(free, holder, live)
    ensures |live| <= 2
  {
    if |live| > 2 {
      var keys: set<int> := live.Keys;
      assert |keys| > 2;
      var x := Element(keys);
      assert |keys - {x}| == |keys| - 1;
      var y := Element(keys - {x});
      assert |keys - {x} - {y}| == |keys| - 2;
      var z := Element(keys - {x} - {y});
      assert ChainHeld(holder, x, live[x]) && ChainHeld(holder, y, live[y]) && ChainHeld(holder, z, live[z]);
      AtMostTwo(free, holder, live, [x, y, z]);
    }
  }

  // ---- Rings ----

  lemma RingSizes(ring: seq<nat>, count: nat, pending: seq<nat>)
    requires RingHolds(ring, count, pending)
    ensures |ring| == NUM && |pending| <= 2 && |pending| <= count
  {
  }

  /** The entries `count - |pending|` to `count` of a ring of NUM entries are the pending heads. */
  ghost predicate RingHolds(ring: seq<nat>, count: nat, pending: seq<nat>) {
    && |ring| == NUM && |pending| <= 2 && |pending| <= count
    && forall k :: 0 <= k < |pending| ==> ring[(count - |pending| + k) % NUM] == pending[k]
  }

  /** A 16-bit index leads to the same ring entry as the true count. */
  lemma IndexMod(count: nat)
    ensures count % WRAP % NUM == count % NUM && (count % WRAP + 1) % WRAP == (count + 1) % WRAP
  {
    assert count == count / WRAP * WRAP + count % WRAP;
    Multiple(count / WRAP, count % WRAP);
    Successor(count);
  }

  lemma Multiple(q: nat, r: nat)
    ensures (q * WRAP + r) % NUM == r % NUM
  {
    assert q * WRAP + r == (q * 8192 + r / 8) * 8 + r % 8;
    ByEight(q * 8192 + r / 8, r % 8);
  }

  lemma ByEight(q: nat, r: nat)
    requires r < 8
    ensures (q * 8 + r) % 8 == r
  {
  }

  lemma Successor(count: nat)
    ensures (count % WRAP + 1) % WRAP == (count + 1) % WRAP
  {
  }

  /** With at most two entries pending, two 16-bit indices are equal only when none is. */
  lemma WrapEmpty(count: nat, pending: nat)
    requires pending <= 2 && pending <= count
    ensures (count - pending) % WRAP == count % WRAP <==> pending == 0
  {
  }

  /** A new entry goes behind the pending ones. */
  lemma RingPush(ring: seq<nat>, count: nat, pending: seq<nat>, h: nat)
    requires RingHolds(ring, count, pending) && |pending| < 2
    ensures RingHolds(ring[count % NUM := h], count + 1, pending + [h])
  {
  }

  lemma RingPop(ring: seq<nat>, count: nat, pending: seq<nat>)
    requires RingHolds(ring, count, pending) && |pending| > 0
    ensures ring[(count - |pending|) % NUM] == pending[0] && RingHolds(ring, count, pending[1..])
  {
  }
}
