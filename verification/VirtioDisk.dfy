/** The disk driver and the device, taking turns in any order on the shared queue. */
module VirtioDisk {
  import opened VirtioQueue

  /** The chain in memory says what the flight stands for. */
  predicate ChainOk(desc: seq<Desc>, ops: seq<Request>, f: Flight)
    requires |desc| == NUM == |ops| && f.a < NUM && f.b < NUM && f.c < NUM
  {
    && desc[f.a] == Desc(Header(f.a), HEADER_LEN, F_NEXT, f.b)
    && desc[f.b] == Desc(Data(f.buf), BSIZE, if f.write then F_NEXT else F_WRITE + F_NEXT, f.c)
    && desc[f.c] == Desc(Status(f.a), 1, F_WRITE, 0)
    && ops[f.a] == Request(if f.write then T_OUT else T_IN, f.sector)
  }

  ghost predicate FlightOk(desc: seq<Desc>, ops: seq<Request>, info: seq<Info>, bufs: map<nat, Buffer>,
                           posted: seq<nat>, done: seq<nat>, f: Flight)
    requires |desc| == NUM == |ops| == |info| && f.a < NUM && f.b < NUM && f.c < NUM
  {
    && ChainOk(desc, ops, f)
    && f.buf != 0 && f.buf in bufs && bufs[f.buf].disk == (f.phase != Seen) && f.sector == bufs[f.buf].blockno * 2
    && info[f.a].b == f.buf
    && info[f.a].status == (if f.phase == Posted || f.phase == Taken then 0xff else 0)
    && (f.phase == Posted <==> f.a in posted) && (f.phase == Done <==> f.a in done)
  }

  ghost predicate FlightsOk(free: seq<bool>, holder: seq<int>, live: Flights, desc: seq<Desc>, ops: seq<Request>,
                            info: seq<Info>, bufs: map<nat, Buffer>, posted: seq<nat>, done: seq<nat>)
  {
    && Partition(free, holder, live)
    && |desc| == NUM == |ops| == |info|
    && (forall h :: h in live ==> ChainHeld(holder, h, live[h]) && FlightOk(desc, ops, info, bufs, posted, done, live[h]))
    && (forall h, g :: h in live && g in live && live[h].buf == live[g].buf ==> h == g)
    && DistinctHeads(posted) && DistinctHeads(done)
    && (forall k :: 0 <= k < |posted| ==> posted[k] in live) && (forall k :: 0 <= k < |done| ==> done[k] in live)
  }

  function Claimed(holder: seq<int>, a: nat, b: nat, c: nat): seq<int>
    requires |holder| == NUM && a < NUM && b < NUM && c < NUM
  {
    holder[a := a][b := a][c := a]
  }

  lemma PartitionGrows(free: seq<bool>, holder: seq<int>, live: Flights, f: Flight, free': seq<bool>)
    requires Partition(free, holder, live) && |free'| == NUM
    requires f.a < NUM && f.b < NUM && f.c < NUM && f.a != f.b && f.a != f.c && f.b != f.c
    requires free[f.a] && free[f.b] && free[f.c]
    requires forall d :: 0 <= d < NUM ==> (free'[d] <==> free[d] && !InChain(f, d))
    ensures f.a !in live && Partition(free', Claimed(holder, f.a, f.b, f.c), live[f.a := f])
  {
    var holder', live' := Claimed(holder, f.a, f.b, f.c), live[f.a := f];
    assert f.a in live ==> ChainHeld(holder, f.a, live[f.a]);
    forall h | h in live' ensures ChainHeld(holder', h, live'[h]) {
      assert h in live ==> ChainHeld(holder, h, live[h]);
    }
  }

  /** What queueing a request leads to; there was at most one other. */
  lemma Launched(free: seq<bool>, holder: seq<int>, live: Flights, desc: seq<Desc>, ops: seq<Request>, info: seq<Info>,
                 bufs: map<nat, Buffer>, posted: seq<nat>, done: seq<nat>,
                 f: Flight, free': seq<bool>, desc': seq<Desc>, ops': seq<Request>, info': seq<Info>, bufs': map<nat, Buffer>)
    requires FlightsOk(free, holder, live, desc, ops, info, bufs, posted, done)
    requires |free| == NUM == |desc| && |ops| == NUM == |info|
    requires Prepared(free, desc, ops, info, bufs, f, free', desc', ops', info', bufs')
    requires f.buf != 0 && f.sector == bufs[f.buf].blockno * 2 && forall h :: h in live ==> live[h].buf != f.buf
    ensures f.a !in live && f.a < NUM && f.b < NUM && f.c < NUM && |live| <= 1 && |posted| < 2
    ensures FlightsOk(free', Claimed(holder, f.a, f.b, f.c), live[f.a := f], desc', ops', info', bufs', posted + [f.a], done)
  {
    hide FlightsOk, Prepared, Claimed;
    FlightPosted(free, holder, live, desc, ops, info, bufs, posted, done, f, free', desc', ops', info', bufs');
    PostedBelowTwo(free', Claimed(holder, f.a, f.b, f.c), live[f.a := f], desc', ops', info', bufs', posted, done, f.a);
    NeverThree(free', Claimed(holder, f.a, f.b, f.c), live[f.a := f], desc', ops', info', bufs', posted + [f.a], done);
    assert |live[f.a := f]| == |live| + 1;
  }

  /** A flight whose records have not been touched is as it was. */
  lemma FlightSame(desc: seq<Desc>, ops: seq<Request>, info: seq<Info>, bufs: map<nat, Buffer>, posted: seq<nat>, done: seq<nat>,
                   desc': seq<Desc>, ops': seq<Request>, info': seq<Info>, bufs': map<nat, Buffer>, posted': seq<nat>, done': seq<nat>,
                   f: Flight)
    requires |desc| == NUM == |ops| == |info| && f.a < NUM && f.b < NUM && f.c < NUM
    requires |desc'| == NUM == |ops'| == |info'|
    requires FlightOk(desc, ops, info, bufs, posted, done, f)
    requires desc'[f.a] == desc[f.a] && desc'[f.b] == desc[f.b] && desc'[f.c] == desc[f.c]
    requires ops'[f.a] == ops[f.a] && info'[f.a] == info[f.a]
    requires f.buf in bufs' && bufs'[f.buf].disk == bufs[f.buf].disk && bufs'[f.buf].blockno == bufs[f.buf].blockno
    requires (f.a in posted' <==> f.a in posted) && (f.a in done' <==> f.a in done)
    ensures FlightOk(desc', ops', info', bufs', posted', done', f)
  {
  }

  /** Three free descriptors have been taken and filled in for flight `f`, and its buffer handed over. */
  ghost predicate Prepared(free: seq<bool>, desc: seq<Desc>, ops: seq<Request>, info: seq<Info>, bufs: map<nat, Buffer>, f: Flight,
                           free': seq<bool>, desc': seq<Desc>, ops': seq<Request>, info': seq<Info>, bufs': map<nat, Buffer>)
    requires |free| == NUM == |desc| && |ops| == NUM == |info|
  {
    && f.a < NUM && f.b < NUM && f.c < NUM && f.a != f.b && f.a != f.c && f.b != f.c
    && free[f.a] && free[f.b] && free[f.c] && f.phase == Posted
    && |free'| == NUM && (forall d :: 0 <= d < NUM ==> (free'[d] <==> free[d] && !InChain(f, d)))
    && |desc'| == NUM == |ops'| == |info'|
    && (forall d :: 0 <= d < NUM && !free[d] ==> desc'[d] == desc[d] && ops'[d] == ops[d] && info'[d] == info[d])
    && ChainOk(desc', ops', f) && info'[f.a] == Info(f.buf, 0xff)
    && f.buf in bufs && bufs' == bufs[f.buf := bufs[f.buf].(disk := true)]
  }

  /** A new request: three free descriptors filled in, the buffer handed over, the head posted. */
  lemma FlightPosted(free: seq<bool>, holder: seq<int>, live: Flights, desc: seq<Desc>, ops: seq<Request>, info: seq<Info>,
                     bufs: map<nat, Buffer>, posted: seq<nat>, done: seq<nat>,
                     f: Flight, free': seq<bool>, desc': seq<Desc>, ops': seq<Request>, info': seq<Info>, bufs': map<nat, Buffer>)
    requires FlightsOk(free, holder, live, desc, ops, info, bufs, posted, done)
    requires |free| == NUM == |desc| && |ops| == NUM == |info|
    requires Prepared(free, desc, ops, info, bufs, f, free', desc', ops', info', bufs')
    requires f.buf != 0 && f.sector == bufs[f.buf].blockno * 2
    requires forall h :: h in live ==> live[h].buf != f.buf
    ensures f.a !in live && f.a < NUM && f.b < NUM && f.c < NUM && |holder| == NUM
    ensures FlightsOk(free', Claimed(holder, f.a, f.b, f.c), live[f.a := f], desc', ops', info', bufs', posted + [f.a], done)
  {
    hide ChainOk, FlightOk, InChain, Prepared, Claimed, ChainHeld, Partition;
    PreparedParts(free, desc, ops, info, bufs, f, free', desc', ops', info', bufs');
    AllHeld(free, holder, live);
    PartitionGrows(free, holder, live, f, free');
    var live' := live[f.a := f];
    assert FlightOk(desc', ops', info', bufs', posted + [f.a], done, f) by {
      NotYetListed(live, posted, done, f.a);
      FlightFresh(desc', ops', info', bufs', posted, done, f);
    }
    forall h | h in live ensures FlightOk(desc', ops', info', bufs', posted + [f.a], done, live[h]) {
      OthersPosted(free, holder, live, desc, ops, info, bufs, posted, done, f, free', desc', ops', info', bufs', h);
    }
    AllHeld(free', Claimed(holder, f.a, f.b, f.c), live');
    NotYetListed(live, posted, done, f.a);
    BufsDiffer(live, f, live');
  }

  lemma AllHeld(free: seq<bool>, holder: seq<int>, live: Flights)
    requires Partition(free, holder, live)
    ensures |holder| == NUM && forall h :: h in live ==> ChainHeld(holder, h, live[h]) && live[h].a < NUM && live[h].b < NUM && live[h].c < NUM
  {
  }

  lemma PreparedParts(free: seq<bool>, desc: seq<Desc>, ops: seq<Request>, info: seq<Info>, bufs: map<nat, Buffer>, f: Flight,
                      free': seq<bool>, desc': seq<Desc>, ops': seq<Request>, info': seq<Info>, bufs': map<nat, Buffer>)
    requires |free| == NUM == |desc| && |ops| == NUM == |info|
    requires Prepared(free, desc, ops, info, bufs, f, free', desc', ops', info', bufs')
    ensures f.a < NUM && f.b < NUM && f.c < NUM && f.a != f.b && f.a != f.c && f.b != f.c
    ensures free[f.a] && free[f.b] && free[f.c] && f.phase == Posted
    ensures |free'| == NUM && (forall d :: 0 <= d < NUM ==> (free'[d] <==> free[d] && !InChain(f, d)))
    ensures |desc'| == NUM == |ops'| == |info'|
    ensures ChainOk(desc', ops', f) && info'[f.a] == Info(f.buf, 0xff)
    ensures f.buf in bufs && bufs' == bufs[f.buf := bufs[f.buf].(disk := true)]
  {
  }

  lemma NotYetListed(live: Flights, posted: seq<nat>, done: seq<nat>, head: nat)
    requires head !in live && DistinctHeads(posted)
    requires (forall k :: 0 <= k < |posted| ==> posted[k] in live) && (forall k :: 0 <= k < |done| ==> done[k] in live)
    ensures head !in posted && head !in done && DistinctHeads(posted + [head])
  {
  }

  lemma BufsDiffer(live: Flights, f: Flight, live': Flights)
    requires forall h, g :: h in live && g in live && live[h].buf == live[g].buf ==> h == g
    requires live' == live[f.a := f] && forall h :: h in live ==> live[h].buf != f.buf
    ensures forall h, g :: h in live' && g in live' && live'[h].buf == live'[g].buf ==> h == g
  {
  }

  lemma FlightFresh(desc: seq<Desc>, ops: seq<Request>, info: seq<Info>, bufs: map<nat, Buffer>, posted: seq<nat>, done: seq<nat>, f: Flight)
    requires |desc| == NUM == |ops| == |info| && f.a < NUM && f.b < NUM && f.c < NUM
    requires ChainOk(desc, ops, f) && info[f.a] == Info(f.buf, 0xff) && f.phase == Posted && f.a !in done
    requires f.buf != 0 && f.buf in bufs && bufs[f.buf].disk && f.sector == bufs[f.buf].blockno * 2
    ensures FlightOk(desc, ops, info, bufs, posted + [f.a], done, f)
  {
  }

  /** The other flights are as they were. */
  lemma OthersPosted(free: seq<bool>, holder: seq<int>, live: Flights, desc: seq<Desc>, ops: seq<Request>, info: seq<Info>,
                     bufs: map<nat, Buffer>, posted: seq<nat>, done: seq<nat>,
                     f: Flight, free': seq<bool>, desc': seq<Desc>, ops': seq<Request>, info': seq<Info>, bufs': map<nat, Buffer>, h: int)
    requires FlightsOk(free, holder, live, desc, ops, info, bufs, posted, done) && h in live
    requires |free| == NUM == |desc| && |ops| == NUM == |info|
    requires Prepared(free, desc, ops, info, bufs, f, free', desc', ops', info', bufs')
    requires live[h].buf != f.buf
    ensures |desc'| == NUM == |ops'| == |info'| && live[h].a < NUM && live[h].b < NUM && live[h].c < NUM
    ensures FlightOk(desc', ops', info', bufs', posted + [f.a], done, live[h])
  {
    hide ChainOk;
    assert ChainHeld(holder, h, live[h]);
    FlightSame(desc, ops, info, bufs, posted, done, desc', ops', info', bufs', posted + [f.a], done, live[h]);
  }

  /** Flight `h` moves on to its next phase; the others are left alone. */
  lemma FlightMoves(free: seq<bool>, holder: seq<int>, live: Flights, desc: seq<Desc>, ops: seq<Request>, info: seq<Info>,
                    bufs: map<nat, Buffer>, posted: seq<nat>, done: seq<nat>, h: int, p: Phase,
                    info': seq<Info>, bufs': map<nat, Buffer>, posted': seq<nat>, done': seq<nat>)
    requires FlightsOk(free, holder, live, desc, ops, info, bufs, posted, done) && h in live && |info'| == NUM
    requires live[h].a < NUM && live[h].b < NUM && live[h].c < NUM
    requires FlightOk(desc, ops, info', bufs', posted', done', live[h].(phase := p))
    requires forall d :: 0 <= d < NUM && d != h ==> info'[d] == info[d]
    requires forall b :: b in bufs && b != live[h].buf ==> b in bufs' && bufs'[b] == bufs[b]
    requires forall g :: g != h ==> (g in posted' <==> g in posted) && (g in done' <==> g in done)
    requires DistinctHeads(posted') && DistinctHeads(done')
    ensures FlightsOk(free, holder, live[h := live[h].(phase := p)], desc, ops, info', bufs', posted', done')
  {
    hide ChainOk;
    var live' := live[h := live[h].(phase := p)];
    assert ChainHeld(holder, h, live[h]);
    forall g | g in live' ensures ChainHeld(holder, g, live'[g]) && FlightOk(desc, ops, info', bufs', posted', done', live'[g]) {
      assert ChainHeld(holder, g, live[g]);
      if g != h {
        FlightSame(desc, ops, info, bufs, posted, done, desc, ops, info', bufs', posted', done', live[g]);
      }
    }
    forall k | 0 <= k < |posted'| ensures posted'[k] in live' {
      assert posted'[k] != h ==> posted'[k] in posted;
    }
    forall k | 0 <= k < |done'| ensures done'[k] in live' {
      assert done'[k] != h ==> done'[k] in done;
    }
  }

  lemma FlightAt(free: seq<bool>, holder: seq<int>, live: Flights, desc: seq<Desc>, ops: seq<Request>, info: seq<Info>,
                 bufs: map<nat, Buffer>, posted: seq<nat>, done: seq<nat>, h: int)
    requires FlightsOk(free, holder, live, desc, ops, info, bufs, posted, done) && h in live
    ensures |holder| == NUM == |desc| && |ops| == NUM == |info|
    ensures ChainHeld(holder, h, live[h]) && live[h].a == h && live[h].a < NUM && live[h].b < NUM && live[h].c < NUM
    ensures FlightOk(desc, ops, info, bufs, posted, done, live[h]) && ChainOk(desc, ops, live[h])
  {
  }

  lemma HeadsOk(free: seq<bool>, holder: seq<int>, live: Flights, desc: seq<Desc>, ops: seq<Request>, info: seq<Info>,
                bufs: map<nat, Buffer>, posted: seq<nat>, done: seq<nat>)
    requires FlightsOk(free, holder, live, desc, ops, info, bufs, posted, done)
    ensures DistinctHeads(posted) && DistinctHeads(done)
    ensures (forall k :: 0 <= k < |posted| ==> posted[k] in live) && (forall k :: 0 <= k < |done| ==> done[k] in live)
  {
  }

  lemma FirstIsLive(free: seq<bool>, holder: seq<int>, live: Flights, desc: seq<Desc>, ops: seq<Request>, info: seq<Info>,
                    bufs: map<nat, Buffer>, posted: seq<nat>, done: seq<nat>)
    requires FlightsOk(free, holder, live, desc, ops, info, bufs, posted, done)
    ensures |posted| > 0 ==> posted[0] in live && live[posted[0]].phase == Posted
    ensures |done| > 0 ==> done[0] in live && live[done[0]].phase == Done
    ensures |posted| > 0 ==> DistinctHeads(posted[1..]) && forall g :: g != posted[0] ==> (g in posted[1..] <==> g in posted)
    ensures |posted| > 0 ==> posted[0] !in posted[1..]
    ensures |done| > 0 ==> DistinctHeads(done[1..]) && forall g :: g != done[0] ==> (g in done[1..] <==> g in done)
    ensures |done| > 0 ==> done[0] !in done[1..]
  {
    if |posted| > 0 {
      FlightAt(free, holder, live, desc, ops, info, bufs, posted, done, posted[0]);
      assert posted == [posted[0]] + posted[1..];
    }
    if |done| > 0 {
      FlightAt(free, holder, live, desc, ops, info, bufs, posted, done, done[0]);
      assert done == [done[0]] + done[1..];
    }
  }

  lemma DoneGrows(free: seq<bool>, holder: seq<int>, live: Flights, desc: seq<Desc>, ops: seq<Request>, info: seq<Info>,
                  bufs: map<nat, Buffer>, posted: seq<nat>, done: seq<nat>, h: nat)
    requires FlightsOk(free, holder, live, desc, ops, info, bufs, posted, done) && h in live && live[h].phase == Taken
    ensures h !in done && h !in posted && |done| < 2 && DistinctHeads(done + [h])
  {
    FlightAt(free, holder, live, desc, ops, info, bufs, posted, done, h);
    AtMostTwo(free, holder, live, done + [h]);
  }

  /** The first posted request moves on when the device takes it. */
  lemma TakenNext(free: seq<bool>, holder: seq<int>, live: Flights, desc: seq<Desc>, ops: seq<Request>, info: seq<Info>,
                  bufs: map<nat, Buffer>, posted: seq<nat>, done: seq<nat>)
    requires FlightsOk(free, holder, live, desc, ops, info, bufs, posted, done) && |posted| > 0
    ensures posted[0] in live && live[posted[0]].phase == Posted
    ensures FlightsOk(free, holder, live[posted[0] := live[posted[0]].(phase := Taken)], desc, ops, info, bufs, posted[1..], done)
  {
    hide FlightsOk, FlightOk, ChainOk, ChainHeld, DistinctHeads;
    var h := posted[0];
    FirstIsLive(free, holder, live, desc, ops, info, bufs, posted, done);
    HeadsOk(free, holder, live, desc, ops, info, bufs, posted, done);
    FlightAt(free, holder, live, desc, ops, info, bufs, posted, done, h);
    TakenOk(desc, ops, info, bufs, posted, done, live[h]);
    FlightMoves(free, holder, live, desc, ops, info, bufs, posted, done, h, Taken, info, bufs, posted[1..], done);
  }

  /** The first reported request: what the handler finds, and that it moves on when its buffer is handed
      back. */
  lemma SeenNext(free: seq<bool>, holder: seq<int>, live: Flights, desc: seq<Desc>, ops: seq<Request>, info: seq<Info>,
                 bufs: map<nat, Buffer>, posted: seq<nat>, done: seq<nat>)
    requires FlightsOk(free, holder, live, desc, ops, info, bufs, posted, done) && |done| > 0
    ensures done[0] in live && live[done[0]].phase == Done && DistinctHeads(done) && |info| == NUM && done[0] < NUM
    ensures info[done[0]].status == 0 && info[done[0]].b == live[done[0]].buf && live[done[0]].buf in bufs
    ensures var h := done[0];
            var b := live[h].buf;
            FlightsOk(free, holder, live[h := live[h].(phase := Seen)], desc, ops, info, bufs[b := bufs[b].(disk := false)], posted, done[1..])
  {
    hide FlightsOk, FlightOk, ChainOk, DistinctHeads;
    var h := done[0];
    FirstIsLive(free, holder, live, desc, ops, info, bufs, posted, done);
    HeadsOk(free, holder, live, desc, ops, info, bufs, posted, done);
    FlightAt(free, holder, live, desc, ops, info, bufs, posted, done, h);
    DoneFacts(desc, ops, info, bufs, posted, done, live[h]);
    var bufs' := bufs[live[h].buf := bufs[live[h].buf].(disk := false)];
    SeenOk(desc, ops, info, bufs, posted, done, live[h], bufs');
    FlightMoves(free, holder, live, desc, ops, info, bufs, posted, done, h, Seen, info, bufs', posted, done[1..]);
  }

  /** The device has in hand exactly the requests it has taken and not completed. */
  ghost predicate InHand(live: Flights, inHand: set<int>) {
    forall h :: h in inHand <==> h in live && live[h].phase == Taken
  }

  lemma HandIs(live: Flights, inHand: set<int>, h: int)
    requires InHand(live, inHand)
    ensures h in inHand <==> h in live && live[h].phase == Taken
  {
  }

  lemma HandLaunch(live: Flights, inHand: set<int>, f: Flight)
    requires InHand(live, inHand) && f.a !in live && f.phase == Posted
    ensures InHand(live[f.a := f], inHand)
  {
  }

  lemma HandMoves(live: Flights, inHand: set<int>, h: int, p: Phase)
    requires InHand(live, inHand) && h in live
    ensures InHand(live[h := live[h].(phase := p)], if p == Taken then inHand + {h} else inHand - {h})
    ensures live[h].phase != Taken ==> inHand - {h} == inHand
  {
  }

  lemma HandGone(live: Flights, inHand: set<int>, h: int)
    requires InHand(live, inHand) && h in live && live[h].phase != Taken
    ensures InHand(live - {h}, inHand)
  {
  }

  // ---- What the device knows of descriptors and sectors ----

  /** VIRTQ_DESC_F_NEXT is set. */
  predicate Continues(d: Desc) {
    d.flags % 2 == 1
  }

  /** VIRTQ_DESC_F_WRITE is set. */
  predicate DeviceWrites(d: Desc) {
    d.flags / 2 % 2 == 1
  }

  function SectorsAt(store: map<nat, int>, sector: nat, n: nat): (s: seq<int>)
    ensures |s| == n
  {
    seq(n, k requires 0 <= k => var at := sector + k; if at in store then store[at] else 0)
  }

  function WithSectors(store: map<nat, int>, sector: nat, data: seq<int>): map<nat, int> {
    store + map at: nat | sector <= at < sector + |data| :: Placed(sector, data, at)
  }

  function Placed(sector: nat, data: seq<int>, at: nat): int
    requires sector <= at < sector + |data|
  {
    data[at - sector]
  }

  /** Blocks do not overlap on the disk: what has been written to a block is read back, and every other block
      is as it was. */
  lemma BlocksApart(store: map<nat, int>, b: nat, data: Sectors, c: nat)
    ensures SectorsAt(WithSectors(store, b * 2, data), c * 2, 2) == if c == b then data else SectorsAt(store, c * 2, 2)
  {
  }

  class Disk {
    var desc: seq<Desc>
    var avail: seq<nat>
    var availIdx: nat
    var used: seq<nat>
    var usedIdx: nat
    var free: seq<bool>
    var seenIdx: nat
    var info: seq<Info>
    var ops: seq<Request>
    /** Block buffers by address, and the device's own state: contents by sector, how far it has read the
        available ring, and the requests it has taken but not completed. */
    var bufs: map<nat, Buffer>
    var store: map<nat, int>
    var takenIdx: nat
    var inHand: set<int>

    ghost var live: Flights
    ghost var holder: seq<int>
    ghost var posted: seq<nat>
    ghost var done: seq<nat>
    ghost var availCount: nat
    ghost var usedCount: nat

    ghost predicate RingsOk()
      reads this`avail, this`availIdx, this`used, this`usedIdx, this`seenIdx, this`takenIdx, this`posted, this`done, this`availCount, this`usedCount
    {
      && RingHolds(avail, availCount, posted) && RingHolds(used, usedCount, done)
      && availIdx == availCount % WRAP && takenIdx == (availCount - |posted|) % WRAP
      && usedIdx == usedCount % WRAP && seenIdx == (usedCount - |done|) % WRAP
    }

    ghost predicate Valid()
      reads this
    {
      FlightsOk(free, holder, live, desc, ops, info, bufs, posted, done) && RingsOk() && InHand(live, inHand)
    }

    /** The state `virtio_disk_init` sets up. */
    constructor (bufs: map<nat, Buffer>, store: map<nat, int>)
      ensures Valid() && live == map[] && free == seq(NUM, _ => true) && this.bufs == bufs && this.store == store
    {
      desc, ops, info := seq(NUM, _ => Desc(Null, 0, 0, 0)), seq(NUM, _ => Request(0, 0)), seq(NUM, _ => Info(0, 0));
      avail, used, free := seq(NUM, _ => 0), seq(NUM, _ => 0), seq(NUM, _ => true);
      availIdx, usedIdx, seenIdx, takenIdx := 0, 0, 0, 0;
      this.bufs, this.store, inHand := bufs, store, {};
      live, holder, posted, done, availCount, usedCount := map[], seq(NUM, _ => NOBODY), [], [], 0, 0;
    }

    /** Take the first free descriptor; -1 if there is none. */
    method AllocDesc() returns (d: int)
      requires |free| == NUM
      modifies this`free
      ensures d == -1 ==> free == old(free) && forall i :: 0 <= i < NUM ==> !free[i]
      ensures d != -1 ==> 0 <= d < NUM && old(free)[d] && (forall i :: 0 <= i < d ==> !old(free)[i]) && free == old(free)[d := false]
    {
      var i := 0;
      while i < NUM
        invariant 0 <= i <= NUM && free == old(free) && forall k :: 0 <= k < i ==> !free[k]
      {
        if free[i] {
          free := free[i := false];
          return i;
        }
        i := i + 1;
      }
      return -1;
    }

    /** Give a descriptor back. Neither of the source's panics can occur for a descriptor in use. */
    method FreeDesc(i: nat)
      requires |free| == NUM == |desc| && i < NUM && !free[i]
      modifies this`free, this`desc
      ensures free == old(free)[i := true] && desc == old(desc)[i := Desc(Null, 0, 0, 0)]
    {
      desc := desc[i := Desc(Null, 0, 0, 0)];
      free := free[i := true];
    }

    /** Take three descriptors, or none. */
    method Alloc3Desc() returns (ok: bool, idx: seq<nat>)
      requires |free| == NUM == |desc|
      modifies this`free, this`desc
      ensures |desc| == NUM == |free| && forall d :: 0 <= d < NUM && !old(free)[d] ==> desc[d] == old(desc)[d]
      ensures ok ==> |idx| == 3 && DistinctHeads(idx) && (forall k :: 0 <= k < 3 ==> idx[k] < NUM && old(free)[idx[k]])
      ensures ok ==> forall d :: 0 <= d < NUM ==> (free[d] <==> old(free)[d] && d !in idx)
      ensures !ok ==> free == old(free) && |idx| < 3 && forall d :: 0 <= d < NUM && free[d] ==> d in idx
    {
      idx := [];
      var i := 0;
      while i < 3
        invariant 0 <= i <= 3 && i == |idx| && |free| == NUM && desc == old(desc)
        invariant DistinctHeads(idx) && forall k :: 0 <= k < |idx| ==> idx[k] < NUM && old(free)[idx[k]]
        invariant forall d :: 0 <= d < NUM ==> (free[d] <==> old(free)[d] && d !in idx)
      {
        var d := AllocDesc();
        if d < 0 {
          FreeSome(idx, old(free));
          return false, idx;
        }
        idx := idx + [d];
        i := i + 1;
      }
      return true, idx;
    }

    /** Give back the descriptors of a failed allocation. */
    method FreeSome(idx: seq<nat>, ghost free0: seq<bool>)
      requires |free| == NUM == |desc| == |free0| && DistinctHeads(idx)
      requires forall k :: 0 <= k < |idx| ==> idx[k] < NUM && free0[idx[k]]
      requires forall d :: 0 <= d < NUM ==> (free[d] <==> free0[d] && d !in idx)
      modifies this`free, this`desc
      ensures free == free0 && |desc| == NUM && forall d :: 0 <= d < NUM && !free0[d] ==> desc[d] == old(desc)[d]
    {
      var j := 0;
      while j < |idx|
        invariant 0 <= j <= |idx| && |free| == NUM == |desc|
        invariant forall d :: 0 <= d < NUM ==> (free[d] <==> free0[d] && d !in idx[j..])
        invariant forall d :: 0 <= d < NUM && !free0[d] ==> desc[d] == old(desc)[d]
      {
        assert idx[j..] == [idx[j]] + idx[j + 1..];
        assert idx[j] !in idx[j + 1..];
        FreeDesc(idx[j]);
        j := j + 1;
      }
    }

    /** The first part of a transfer: queue a request for buffer `b`. If fewer than three descriptors are
        free nothing happens, and the caller sleeps until some are. */
    method Submit(b: nat, write: bool) returns (ok: bool, head: nat)
      requires Valid() && b != 0 && b in bufs && forall h :: h in live ==> live[h].buf != b
      modifies this`desc, this`avail, this`availIdx, this`free, this`info, this`ops, this`bufs,
               this`live, this`holder, this`posted, this`availCount
      ensures Valid()
      ensures ok <==> |old(live)| <= 1
      ensures !ok ==> live == old(live) && free == old(free) && bufs == old(bufs) && posted == old(posted)
      ensures ok ==>
                && head !in old(live) && live.Keys == old(live).Keys + {head}
                && (forall h :: h in old(live) ==> live[h] == old(live)[h])
                && live[head].buf == b && live[head].write == write && live[head].sector == bufs[b].blockno * 2 && live[head].phase == Posted
                && posted == old(posted) + [head]
                && bufs == old(bufs)[b := old(bufs)[b].(disk := true)]
    {
      hide FlightsOk, RingHolds, Claimed, Prepared, Disk.RingsOk, InHand;
      SizesOk(free, holder, live, desc, ops, info, bufs, posted, done);
      ghost var f;
      ok, head, f := Prepare(b, write);
      if !ok {
        DescUntouched(free, holder, live, old(desc), desc, ops, info, bufs, posted, done);
        NeedsTwo(free, holder, live, desc, ops, info, bufs, posted, done);
        return;
      }
      Enter(f, old(free), old(desc), old(ops), old(info), old(bufs), head);
    }

    /** Queue a chain that has been filled in. */
    method Enter(ghost f: Flight, ghost free0: seq<bool>, ghost desc0: seq<Desc>, ghost ops0: seq<Request>, ghost info0: seq<Info>,
                 ghost bufs0: map<nat, Buffer>, head: nat)
      requires FlightsOk(free0, holder, live, desc0, ops0, info0, bufs0, posted, done) && RingsOk() && InHand(live, inHand)
      requires |free0| == NUM == |desc0| && |ops0| == NUM == |info0| && head == f.a
      requires Prepared(free0, desc0, ops0, info0, bufs0, f, free, desc, ops, info, bufs)
      requires f.buf != 0 && f.sector == bufs0[f.buf].blockno * 2 && f.phase == Posted && forall h :: h in live ==> live[h].buf != f.buf
      modifies this`avail, this`availIdx, this`live, this`holder, this`posted, this`availCount
      ensures Valid() && |old(live)| <= 1
      ensures head !in old(live) && live == old(live)[head := f] && posted == old(posted) + [head]
    {
      hide FlightsOk, RingHolds, Claimed, Prepared, Disk.RingsOk, InHand;
      SizesOk(free0, holder, live, desc0, ops0, info0, bufs0, posted, done);
      Launched(free0, holder, live, desc0, ops0, info0, bufs0, posted, done, f, free, desc, ops, info, bufs);
      HandLaunch(live, inHand, f);
      holder := Claimed(holder, f.a, f.b, f.c);
      live := live[head := f];
      PostHead(head);
    }

    /** Allocate and fill in a chain for buffer `b`. */
    method Prepare(b: nat, write: bool) returns (ok: bool, head: nat, ghost f: Flight)
      requires |free| == NUM == |desc| && |ops| == NUM == |info| && b in bufs
      modifies this`desc, this`free, this`info, this`ops, this`bufs
      ensures !ok ==> free == old(free) && ops == old(ops) && info == old(info) && bufs == old(bufs) && |desc| == NUM
      ensures !ok ==> FewFree(free) && forall d :: 0 <= d < NUM && !free[d] ==> desc[d] == old(desc)[d]
      ensures ok ==> f.a == head && f.buf == b && f.write == write && f.sector == old(bufs)[b].blockno * 2 && f.phase == Posted
      ensures ok ==> bufs == old(bufs)[b := old(bufs)[b].(disk := true)]
      ensures ok ==> Prepared(old(free), old(desc), old(ops), old(info), old(bufs), f, free, desc, ops, info, bufs)
    {
      hide ChainOk, DistinctHeads;
      var sector := bufs[b].blockno * 2;
      var idx;
      ok, idx := Alloc3Desc();
      if ok {
        head := idx[0];
        f := Flight(idx[0], idx[1], idx[2], b, write, sector, Posted);
        ThreeOf(idx, f);
        FormatRequest(idx, b, write, sector);
      } else {
        assert FewFree(free);
        head := 0;
        f := Flight(0, 0, 0, b, write, sector, Posted);
      }
    }

    /** Fill in the three descriptors and hand the buffer to the device. */
    method FormatRequest(idx: seq<nat>, b: nat, write: bool, sector: nat)
      requires |idx| == 3 && idx[0] < NUM && idx[1] < NUM && idx[2] < NUM && DistinctHeads(idx)
      requires |desc| == NUM == |ops| == |info| && b in bufs
      modifies this`desc, this`info, this`ops, this`bufs
      ensures |desc| == NUM == |ops| == |info|
      ensures ChainOk(desc, ops, Flight(idx[0], idx[1], idx[2], b, write, sector, Posted)) && info[idx[0]] == Info(b, 0xff)
      ensures forall d :: 0 <= d < NUM && d !in idx ==> desc[d] == old(desc)[d] && ops[d] == old(ops)[d] && info[d] == old(info)[d]
      ensures bufs == old(bufs)[b := old(bufs)[b].(disk := true)]
    {
      assert idx[0] != idx[1] && idx[0] != idx[2] && idx[1] != idx[2];
      ops := ops[idx[0] := Request(if write then T_OUT else T_IN, sector)];
      desc := desc[idx[0] := Desc(Header(idx[0]), HEADER_LEN, F_NEXT, idx[1])];
      desc := desc[idx[1] := Desc(Data(b), BSIZE, if write then 0 else F_WRITE, 0)];
      desc := desc[idx[1] := desc[idx[1]].(flags := desc[idx[1]].flags + F_NEXT, next := idx[2])];
      info := info[idx[0] := info[idx[0]].(status := 0xff)];
      desc := desc[idx[2] := Desc(Status(idx[0]), 1, F_WRITE, 0)];
      bufs := bufs[b := bufs[b].(disk := true)];
      info := info[idx[0] := info[idx[0]].(b := b)];
    }

    /** Put the head of a chain in the available ring. */
    method PostHead(head: nat)
      requires RingsOk() && |posted| < 2
      modifies this`avail, this`availIdx, this`posted, this`availCount
      ensures RingsOk() && posted == old(posted) + [head]
    {
      IndexMod(availCount);
      RingPush(avail, availCount, posted, head);
      avail := avail[availIdx % NUM := head];
      availIdx := (availIdx + 1) % WRAP;
      posted := posted + [head];
      availCount := availCount + 1;
    }

    /** The device reads the next entry of the available ring, if there is one. */
    method DeviceTake() returns (found: bool, head: nat)
      requires Valid()
      modifies this`takenIdx, this`inHand, this`live, this`posted
      ensures Valid() && found == (old(posted) != [])
      ensures found ==> head == old(posted)[0] && posted == old(posted)[1..] && head in old(live) && old(live)[head].phase == Posted
                        && live == old(live)[head := old(live)[head].(phase := Taken)]
      ensures !found ==> live == old(live) && posted == old(posted)
    {
      hide FlightsOk, FlightOk, ChainOk, ChainHeld, RingHolds, DistinctHeads, InHand;
      RingSizes(avail, availCount, posted);
      WrapEmpty(availCount, |posted|);
      if takenIdx == availIdx {
        return false, 0;
      }
      TakenNext(free, holder, live, desc, ops, info, bufs, posted, done);
      IndexMod(availCount - |posted|);
      RingPop(avail, availCount, posted);
      head := avail[takenIdx % NUM];
      takenIdx := (takenIdx + 1) % WRAP;
      HandMoves(live, inHand, head, Taken);
      inHand := inHand + {head};
      live := live[head := live[head].(phase := Taken)];
      posted := posted[1..];
      return true, head;
    }

    /** The device carries out a request it has taken: it follows the chain in memory, moves the data,
        writes the status and reports the head in the used ring. What it does is what was asked for. */
    method DeviceComplete(head: nat)
      requires Valid() && head in live && live[head].phase == Taken
      modifies this`inHand, this`store, this`bufs, this`info, this`used, this`usedIdx, this`live, this`done, this`usedCount
      ensures Valid() && done == old(done) + [head] && live == old(live)[head := old(live)[head].(phase := Done)]
      ensures var f := old(live)[head];
              f.buf in old(bufs) &&
              if f.write then store == WithSectors(old(store), f.sector, old(bufs)[f.buf].data) && bufs == old(bufs)
              else store == old(store) && bufs == old(bufs)[f.buf := old(bufs)[f.buf].(data := SectorsAt(old(store), f.sector, 2))]
    {
      hide FlightsOk, FlightOk, DistinctHeads, RingHolds, ChainOk, ChainHeld, Disk.RingsOk, InHand;
      FlightAt(free, holder, live, desc, ops, info, bufs, posted, done, head);
      ghost var f := live[head];
      DoneFacts(desc, ops, info, bufs, posted, done, f);
      ghost var info0, bufs0 := info, bufs;
      Transfer(head, f);
      Report(head, info0, bufs0);
    }

    /** Report a request whose data has been transferred. */
    method Report(head: nat, ghost info0: seq<Info>, ghost bufs0: map<nat, Buffer>)
      requires FlightsOk(free, holder, live, desc, ops, info0, bufs0, posted, done) && RingsOk() && InHand(live, inHand)
      requires head in live && live[head].phase == Taken
      requires |info0| == NUM && head < NUM && info == info0[head := info0[head].(status := 0)]
      requires var b := live[head].buf;
               b in bufs0 && (bufs == bufs0 || exists data: Sectors :: bufs == bufs0[b := bufs0[b].(data := data)])
      modifies this`inHand, this`used, this`usedIdx, this`live, this`done, this`usedCount
      ensures Valid() && done == old(done) + [head] && live == old(live)[head := old(live)[head].(phase := Done)]
    {
      hide FlightsOk, RingHolds, Disk.RingsOk, InHand;
      Completed(free, holder, live, desc, ops, info0, bufs0, posted, done, head, info, bufs);
      HandMoves(live, inHand, head, Done);
      inHand := inHand - {head};
      live := live[head := live[head].(phase := Done)];
      ReportUsed(head);
    }

    /** Follow the chain in memory, move the data, write the status, as section 5.2.6 of the VIRTIO 1.1
        specification has it. The device refuses a chain unless its header is 16 bytes to be read, its data whole
        sectors to be written exactly if the request is a read, and its status one byte to be written, with which
        the chain ends. It never has reason to. */
    method Transfer(head: nat, ghost f: Flight)
      requires |desc| == NUM == |ops| && |info| == NUM && f.a < NUM && f.b < NUM && f.c < NUM && head == f.a
      requires ChainOk(desc, ops, f) && f.buf in bufs
      modifies this`store, this`bufs, this`info
      ensures info == old(info)[f.a := old(info)[f.a].(status := 0)]
      ensures if f.write then store == WithSectors(old(store), f.sector, old(bufs)[f.buf].data) && bufs == old(bufs)
              else store == old(store) && bufs == old(bufs)[f.buf := old(bufs)[f.buf].(data := SectorsAt(old(store), f.sector, 2))]
    {
      var d0 := desc[head];
      if !(d0.addr.Header? && d0.len == 16 && Continues(d0) && !DeviceWrites(d0)) {
        assert false;
      }
      var request := ops[d0.addr.i];
      var d1 := desc[d0.next];
      if !(d1.addr.Data? && d1.len % 512 == 0 && Continues(d1) && (DeviceWrites(d1) <==> request.kind == 0)) {
        assert false;
      }
      var d2 := desc[d1.next];
      if !(d2.addr.Status? && d2.len == 1 && !Continues(d2) && DeviceWrites(d2)) {
        assert false;
      }
      match request.kind {
        case 0 => bufs := bufs[d1.addr.buf := bufs[d1.addr.buf].(data := SectorsAt(store, request.sector, d1.len / 512))];
        case 1 => store := WithSectors(store, request.sector, bufs[d1.addr.buf].data[..d1.len / 512]);
        case _ => assert false;
      }
      info := info[d2.addr.i := info[d2.addr.i].(status := 0)];
    }

    /** Put a completed head in the used ring. */
    method ReportUsed(head: nat)
      requires RingsOk() && |done| < 2
      modifies this`used, this`usedIdx, this`done, this`usedCount
      ensures RingsOk() && done == old(done) + [head]
    {
      IndexMod(usedCount);
      RingPush(used, usedCount, done, head);
      used := used[usedIdx % NUM := head];
      usedIdx := (usedIdx + 1) % WRAP;
      done := done + [head];
      usedCount := usedCount + 1;
    }

    /** The interrupt handler: everything the device has reported so far is marked as finished, each
        buffer exactly once, and nothing else changes. */
    method Intr()
      requires Valid()
      modifies this`bufs, this`seenIdx, this`live, this`done
      ensures Valid() && done == []
      ensures live.Keys == old(live).Keys && bufs.Keys == old(bufs).Keys
      ensures forall h :: h in live ==> live[h] == if h in old(done) then old(live)[h].(phase := Seen) else old(live)[h]
      ensures forall h :: h in old(done) ==> h in live && live[h].buf in bufs && !bufs[live[h].buf].disk
      ensures forall b :: b in bufs && !Reported(old(live), old(done), b) ==> bufs[b] == old(bufs)[b]
      ensures forall b :: b in bufs ==> bufs[b].data == old(bufs)[b].data && bufs[b].blockno == old(bufs)[b].blockno
    {
      hide FlightsOk, RingHolds, Reported, FlightOk, Handled, InHand;
      ghost var live0, bufs0, done0 := live, bufs, done;
      HeadsOk(free, holder, live, desc, ops, info, bufs, posted, done);
      HandledNone(live, bufs, done);
      NoneLeft();
      while seenIdx != usedIdx
        invariant Valid() && Handled(live0, bufs0, done0, live, bufs, done)
        invariant seenIdx == usedIdx <==> done == []
        decreases |done|
      {
        IntrOne(live0, bufs0, done0);
        NoneLeft();
      }
      HandledAll(live0, bufs0, done0, live, bufs);
      DoneAreSeen(live0, bufs0, done0);
    }

    /** What the device does while the handler is at work, in any order. */
    method DeviceRun(steps: seq<DeviceStep>)
      requires Valid()
      modifies this`takenIdx, this`inHand, this`store, this`bufs, this`info, this`used, this`usedIdx, this`live,
        this`posted, this`done, this`usedCount
      ensures Valid() && Advanced(old(live), old(bufs), live, bufs) && Unseen(live) == Unseen(old(live))
      ensures old(done) <= done
    {
      hide FlightsOk, Disk.RingsOk, Advanced, InHand;
      AdvancedNot(live, bufs);
      for i := 0 to |steps|
        invariant Valid() && Advanced(old(live), old(bufs), live, bufs) && Unseen(live) == Unseen(old(live))
        invariant old(done) <= done
      {
        ghost var live1, bufs1 := live, bufs;
        match steps[i] {
          case Take =>
            var found, head := DeviceTake();
            TakeAdvances(live1, bufs1, live);
          case Complete(head) =>
            HandIs(live, inHand, head);
            if head in inHand {
              DeviceComplete(head);
              CompleteAdvances(live1, bufs1, head, live, bufs);
            } else {
              AdvancedNot(live, bufs);
            }
        }
        AdvancedTrans(old(live), old(bufs), live1, bufs1, live, bufs);
      }
    }

    /** The interrupt handler while the device goes on working: before each test of the loop, and between the
        test and the turn that follows it, the device takes the steps listed for it. The handler ends; every
        request whose completion was reported before its last look at the ring has been handed back, including
        those reported meanwhile. */
    method IntrMeanwhile(script: seq<seq<DeviceStep>>)
      requires Valid()
      modifies this`takenIdx, this`inHand, this`store, this`bufs, this`info, this`used, this`usedIdx, this`seenIdx,
        this`live, this`posted, this`done, this`usedCount
      ensures Valid() && done == [] && Advanced(old(live), old(bufs), live, bufs)
      ensures forall h :: h in live ==> live[h].phase != Done && live[h].buf in bufs && (bufs[live[h].buf].disk <==> live[h].phase != Seen)
      ensures forall h :: h in old(live) && old(live)[h].phase == Done ==> h in live && live[h].phase == Seen
    {
      hide FlightsOk, Disk.RingsOk, Advanced, Unseen, Handled, InHand;
      ghost var live0, bufs0 := live, bufs;
      AdvancedNot(live, bufs);
      var k := 0;
      NoneLeft();
      if k < |script| {
        DeviceRun(script[k]);
      }
      NoneLeft();
      while seenIdx != usedIdx
        invariant Valid() && Advanced(live0, bufs0, live, bufs)
        invariant seenIdx == usedIdx <==> done == []
        decreases Unseen(live)
      {
        ghost var live2, bufs2 := live, bufs;
        k := k + 1;
        if k < |script| {
          DeviceRun(script[k]);
          AdvancedTrans(live0, bufs0, live2, bufs2, live, bufs);
        }
        HandOver(live0, bufs0);
        live2, bufs2 := live, bufs;
        k := k + 1;
        if k < |script| {
          DeviceRun(script[k]);
          AdvancedTrans(live0, bufs0, live2, bufs2, live, bufs);
        }
        NoneLeft();
      }
      PhasesAtEnd(free, holder, live, desc, ops, info, bufs, posted);
      DoneIsSeen(live0, bufs0, live, bufs);
    }

    /** One turn of the handler's loop, as a step of the flights. */
    method HandOver(ghost live0: Flights, ghost bufs0: map<nat, Buffer>)
      requires Valid() && done != [] && Advanced(live0, bufs0, live, bufs)
      modifies this`bufs, this`seenIdx, this`live, this`done
      ensures Valid() && Advanced(live0, bufs0, live, bufs) && Unseen(live) < Unseen(old(live))
    {
      hide FlightsOk, Disk.RingsOk, Advanced, Unseen, Handled, InHand;
      ghost var live1, bufs1, done1 := live, bufs, done;
      HeadsOk(free, holder, live, desc, ops, info, bufs, posted, done);
      HandledNone(live, bufs, done);
      DoneFlights(free, holder, live, desc, ops, info, bufs, posted, done);
      IntrOne(live1, bufs1, done1);
      IntrAdvances(live1, bufs1, done1, live, bufs, done);
      AdvancedTrans(live0, bufs0, live1, bufs1, live, bufs);
    }

    lemma NoneLeft()
      requires RingsOk()
      ensures seenIdx == usedIdx <==> done == []
    {
      WrapEmpty(usedCount, |done|);
    }

    /** One turn of the interrupt handler. The status it finds is never an error, the buffer never null. */
    method IntrOne(ghost live0: Flights, ghost bufs0: map<nat, Buffer>, ghost done0: seq<nat>)
      requires Valid() && done != [] && Handled(live0, bufs0, done0, live, bufs, done)
      modifies this`bufs, this`seenIdx, this`live, this`done
      ensures Valid() && done == old(done)[1..] && Handled(live0, bufs0, done0, live, bufs, done)
    {
      hide FlightsOk, FlightOk, ChainOk, Handled, ChainHeld, RingHolds, DistinctHeads, InHand;
      SeenNext(free, holder, live, desc, ops, info, bufs, posted, done);
      RingSizes(used, usedCount, done);
      IndexMod(usedCount - |done|);
      RingPop(used, usedCount, done);
      var id := used[seenIdx % NUM];
      if info[id].status != 0 {
        assert false;
      }
      var b := info[id].b;
      ghost var bufs1 := bufs;
      bufs := bufs[b := bufs[b].(disk := false)];
      HandledOne(live0, bufs0, done0, live, bufs1, done);
      HandMoves(live, inHand, id, Seen);
      live := live[id := live[id].(phase := Seen)];
      done := done[1..];
      seenIdx := (seenIdx + 1) % WRAP;
    }

    lemma DoneAreSeen(live0: Flights, bufs0: map<nat, Buffer>, done0: seq<nat>)
      requires Valid() && Handled(live0, bufs0, done0, live, bufs, [])
      ensures forall h :: h in done0 ==> h in live && live[h].buf in bufs && !bufs[live[h].buf].disk
    {
      forall h | h in done0 ensures h in live && live[h].buf in bufs && !bufs[live[h].buf].disk {
        FlightAt(free, holder, live, desc, ops, info, bufs, posted, done, h);
      }
    }

    /** Give back a chain of three, following its links. */
    method FreeChain(head: nat, ghost f: Flight)
      requires |free| == NUM == |desc| && |ops| == NUM && head == f.a
      requires f.a < NUM && f.b < NUM && f.c < NUM && f.a != f.b && f.a != f.c && f.b != f.c
      requires ChainOk(desc, ops, f) && !free[f.a] && !free[f.b] && !free[f.c]
      modifies this`free, this`desc
      ensures |desc| == NUM && free == old(free)[f.a := true][f.b := true][f.c := true]
      ensures forall d :: 0 <= d < NUM && !InChain(f, d) ==> desc[d] == old(desc)[d]
    {
      var i := head;
      ghost var k := 0;
      while true
        invariant 0 <= k <= 2 && i == (if k == 0 then f.a else if k == 1 then f.b else f.c)
        invariant free == if k == 0 then old(free) else if k == 1 then old(free)[f.a := true] else old(free)[f.a := true][f.b := true]
        invariant |desc| == NUM && forall d :: 0 <= d < NUM && !InChain(f, d) ==> desc[d] == old(desc)[d]
        invariant (k < 1 ==> desc[f.a] == old(desc)[f.a]) && (k < 2 ==> desc[f.b] == old(desc)[f.b]) && desc[f.c] == old(desc)[f.c]
        decreases 2 - k
      {
        var flag, next := desc[i].flags, desc[i].next;
        FreeDesc(i);
        if flag % 2 == F_NEXT {
          i := next;
          k := k + 1;
        } else {
          break;
        }
      }
    }

    /** The last part of a transfer, once the interrupt handler has handed the buffer back: the three
        descriptors are free again. */
    method Finish(head: nat)
      requires Valid() && head in live && live[head].buf in bufs && !bufs[live[head].buf].disk
      modifies this`free, this`desc, this`info, this`live, this`holder
      ensures Valid() && live == old(live) - {head}
      ensures head in old(live) && forall d :: 0 <= d < NUM ==> (free[d] <==> old(free)[d] || InChain(old(live)[head], d))
    {
      hide FlightsOk, FlightOk, RingHolds, ChainOk, ChainHeld, Disk.RingsOk, InHand;
      FlightAt(free, holder, live, desc, ops, info, bufs, posted, done, head);
      ghost var f := live[head];
      DoneFacts(desc, ops, info, bufs, posted, done, f);
      ghost var free0, desc0, info0 := free, desc, info;
      HeldNotFree(free, holder, live, desc, ops, info, bufs, posted, done, head);
      info := info[head := info[head].(b := 0)];
      FreeChain(head, f);
      FlightGone(free0, holder, live, desc0, ops, info0, bufs, posted, done, head, desc, info);
      holder := holder[f.a := NOBODY][f.b := NOBODY][f.c := NOBODY];
      HandGone(live, inHand, head);
      live := live - {head};
    }
  }

  lemma DoneFlights(free: seq<bool>, holder: seq<int>, live: Flights, desc: seq<Desc>, ops: seq<Request>, info: seq<Info>,
                    bufs: map<nat, Buffer>, posted: seq<nat>, done: seq<nat>)
    requires FlightsOk(free, holder, live, desc, ops, info, bufs, posted, done)
    ensures forall h :: h in done ==> h in live && live[h].phase == Done
  {
    forall h | h in done ensures h in live && live[h].phase == Done {
      FlightAt(free, holder, live, desc, ops, info, bufs, posted, done, h);
    }
  }

  /** A step of the device: it takes the next posted request, or completes one that it has taken. */
  datatype DeviceStep = Take | Complete(head: nat)

  function Rank(p: Phase): nat {
    match p
    case Posted => 0
    case Taken => 1
    case Done => 2
    case Seen => 3
  }

  ghost function Unseen(live: Flights): set<int> {
    set h | h in live && live[h].phase != Seen
  }

  /** Some flights have moved on. Only the buffers of flights have changed, and the data only where the
      device was asked to write it there. */
  ghost predicate Advanced(live0: Flights, bufs0: map<nat, Buffer>, live: Flights, bufs: map<nat, Buffer>) {
    && live.Keys == live0.Keys && bufs.Keys == bufs0.Keys
    && (forall h :: h in live0 ==> live[h] == live0[h].(phase := live[h].phase) && Rank(live[h].phase) >= Rank(live0[h].phase))
    && (forall b :: b in bufs0 && bufs[b] != bufs0[b] ==> exists h :: h in live0 && live0[h].buf == b)
    && (forall b :: b in bufs0 && bufs[b].data != bufs0[b].data ==> exists h :: h in live0 && live0[h].buf == b && !live0[h].write)
    && (forall b :: b in bufs0 ==> bufs[b].blockno == bufs0[b].blockno)
  }

  lemma AdvancedNot(live: Flights, bufs: map<nat, Buffer>)
    ensures Advanced(live, bufs, live, bufs)
  {
  }

  lemma AdvancedTrans(live0: Flights, bufs0: map<nat, Buffer>, live1: Flights, bufs1: map<nat, Buffer>, live2: Flights, bufs2: map<nat, Buffer>)
    requires Advanced(live0, bufs0, live1, bufs1) && Advanced(live1, bufs1, live2, bufs2)
    ensures Advanced(live0, bufs0, live2, bufs2)
  {
    forall b | b in bufs0 && bufs2[b] != bufs0[b] ensures exists h :: h in live0 && live0[h].buf == b {
      if bufs1[b] == bufs0[b] {
        var h :| h in live1 && live1[h].buf == b;
        assert live0[h].buf == b;
      }
    }
    forall b | b in bufs0 && bufs2[b].data != bufs0[b].data ensures exists h :: h in live0 && live0[h].buf == b && !live0[h].write {
      if bufs1[b].data == bufs0[b].data {
        var h :| h in live1 && live1[h].buf == b && !live1[h].write;
        assert live0[h].buf == b && !live0[h].write;
      }
    }
  }

  lemma TakeAdvances(live: Flights, bufs: map<nat, Buffer>, live': Flights)
    requires live' == live || exists h :: h in live && live[h].phase == Posted && live' == live[h := live[h].(phase := Taken)]
    ensures Advanced(live, bufs, live', bufs) && Unseen(live') == Unseen(live)
  {
  }

  lemma CompleteAdvances(live: Flights, bufs: map<nat, Buffer>, h: nat, live': Flights, bufs': map<nat, Buffer>)
    requires h in live && live[h].phase == Taken && live' == live[h := live[h].(phase := Done)] && live[h].buf in bufs
    requires bufs' == bufs || (!live[h].write && exists data: Sectors :: bufs' == bufs[live[h].buf := bufs[live[h].buf].(data := data)])
    ensures Advanced(live, bufs, live', bufs') && Unseen(live') == Unseen(live)
  {
  }

  lemma IntrAdvances(live: Flights, bufs: map<nat, Buffer>, done: seq<nat>, live': Flights, bufs': map<nat, Buffer>, done': seq<nat>)
    requires Handled(live, bufs, done, live', bufs', done') && |done| > 0 && done' == done[1..] && DistinctHeads(done)
    requires forall h :: h in done ==> h in live && live[h].phase == Done
    ensures Advanced(live, bufs, live', bufs') && Unseen(live') < Unseen(live)
  {
    forall b | b in bufs && bufs'[b] != bufs[b] ensures exists h :: h in live && live[h].buf == b {
      assert Reported(live, done, b);
    }
    assert done == [done[0]] + done[1..];
    assert done[0] !in done[1..];
    forall h | h in Unseen(live') ensures h in Unseen(live) {
      assert h in live;
    }
    assert done[0] in Unseen(live) && done[0] !in Unseen(live');
  }

  lemma PhasesAtEnd(free: seq<bool>, holder: seq<int>, live: Flights, desc: seq<Desc>, ops: seq<Request>, info: seq<Info>,
                    bufs: map<nat, Buffer>, posted: seq<nat>)
    requires FlightsOk(free, holder, live, desc, ops, info, bufs, posted, [])
    ensures forall h :: h in live ==> live[h].phase != Done && live[h].buf in bufs && (bufs[live[h].buf].disk <==> live[h].phase != Seen)
  {
    forall h | h in live
      ensures live[h].phase != Done && live[h].buf in bufs && (bufs[live[h].buf].disk <==> live[h].phase != Seen)
    {
      FlightAt(free, holder, live, desc, ops, info, bufs, posted, [], h);
    }
  }

  lemma DoneIsSeen(live0: Flights, bufs0: map<nat, Buffer>, live: Flights, bufs: map<nat, Buffer>)
    requires Advanced(live0, bufs0, live, bufs) && forall h :: h in live ==> live[h].phase != Done
    ensures forall h :: h in live0 && live0[h].phase == Done ==> h in live && live[h].phase == Seen
  {
  }

  lemma HeldNotFree(free: seq<bool>, holder: seq<int>, live: Flights, desc: seq<Desc>, ops: seq<Request>, info: seq<Info>,
                    bufs: map<nat, Buffer>, posted: seq<nat>, done: seq<nat>, h: int)
    requires FlightsOk(free, holder, live, desc, ops, info, bufs, posted, done) && h in live
    ensures |free| == NUM && live[h].a < NUM && live[h].b < NUM && live[h].c < NUM
    ensures !free[live[h].a] && !free[live[h].b] && !free[live[h].c]
    ensures live[h].a != live[h].b && live[h].a != live[h].c && live[h].b != live[h].c
  {
    assert ChainHeld(holder, h, live[h]);
  }

  lemma PartitionShrinks(free: seq<bool>, holder: seq<int>, live: Flights, h: int)
    requires Partition(free, holder, live) && h in live
    ensures ChainHeld(holder, h, live[h])
    ensures var f := live[h];
            Partition(free[f.a := true][f.b := true][f.c := true], holder[f.a := NOBODY][f.b := NOBODY][f.c := NOBODY], live - {h})
  {
    var f := live[h];
    assert ChainHeld(holder, h, f);
    var holder' := holder[f.a := NOBODY][f.b := NOBODY][f.c := NOBODY];
    forall g | g in live - {h} ensures ChainHeld(holder', g, live[g]) {
      assert ChainHeld(holder, g, live[g]);
    }
  }

  lemma FlightGone(free: seq<bool>, holder: seq<int>, live: Flights, desc: seq<Desc>, ops: seq<Request>, info: seq<Info>,
                   bufs: map<nat, Buffer>, posted: seq<nat>, done: seq<nat>, h: int, desc': seq<Desc>, info': seq<Info>)
    requires FlightsOk(free, holder, live, desc, ops, info, bufs, posted, done) && h in live && live[h].phase == Seen
    requires |desc'| == NUM == |info'| && forall d :: 0 <= d < NUM && !InChain(live[h], d) ==> desc'[d] == desc[d]
    requires forall d :: 0 <= d < NUM && d != h ==> info'[d] == info[d]
    ensures ChainHeld(holder, h, live[h])
    ensures var f := live[h];
            FlightsOk(free[f.a := true][f.b := true][f.c := true], holder[f.a := NOBODY][f.b := NOBODY][f.c := NOBODY],
                      live - {h}, desc', ops, info', bufs, posted, done)
  {
    hide ChainOk;
    PartitionShrinks(free, holder, live, h);
    var f := live[h];
    assert h !in posted && h !in done by {
      assert ChainHeld(holder, h, f);
    }
    forall g | g in live - {h} ensures FlightOk(desc', ops, info', bufs, posted, done, live[g]) {
      assert ChainHeld(holder, g, live[g]) && ChainHeld(holder, h, f);
      FlightSame(desc, ops, info, bufs, posted, done, desc', ops, info', bufs, posted, done, live[g]);
    }
  }

  /** Buffer `b` belongs to a flight reported in the used ring. */
  ghost predicate Reported(live: Flights, done: seq<nat>, b: nat) {
    exists h :: h in done && h in live && live[h].buf == b
  }

  /** The handler has dealt with the reports of `done0` down to the remaining `done`. */
  ghost predicate Handled(live0: Flights, bufs0: map<nat, Buffer>, done0: seq<nat>, live: Flights, bufs: map<nat, Buffer>, done: seq<nat>) {
    && live.Keys == live0.Keys && bufs.Keys == bufs0.Keys
    && |done| <= |done0| && done == done0[|done0| - |done|..]
    && (forall h :: h in done0 ==> h in live0)
    && (forall h :: h in live0 ==> live[h] == if h in done0 && h !in done then live0[h].(phase := Seen) else live0[h])
    && (forall b :: b in bufs0 && !Reported(live0, done0, b) ==> bufs[b] == bufs0[b])
    && (forall b :: b in bufs0 ==> bufs[b].data == bufs0[b].data && bufs[b].blockno == bufs0[b].blockno)
  }

  lemma HandledNone(live: Flights, bufs: map<nat, Buffer>, done: seq<nat>)
    requires forall k :: 0 <= k < |done| ==> done[k] in live
    ensures Handled(live, bufs, done, live, bufs, done)
  {
  }

  lemma HandledAll(live0: Flights, bufs0: map<nat, Buffer>, done0: seq<nat>, live: Flights, bufs: map<nat, Buffer>)
    requires Handled(live0, bufs0, done0, live, bufs, [])
    ensures live.Keys == live0.Keys && bufs.Keys == bufs0.Keys
    ensures forall h :: h in live0 ==> live[h] == if h in done0 then live0[h].(phase := Seen) else live0[h]
    ensures forall b :: b in bufs0 && !Reported(live0, done0, b) ==> bufs[b] == bufs0[b]
    ensures forall b :: b in bufs0 ==> bufs[b].data == bufs0[b].data && bufs[b].blockno == bufs0[b].blockno
  {
  }

  lemma HandledOne(live0: Flights, bufs0: map<nat, Buffer>, done0: seq<nat>, live: Flights, bufs: map<nat, Buffer>, done: seq<nat>)
    requires Handled(live0, bufs0, done0, live, bufs, done) && |done| > 0 && DistinctHeads(done)
    requires done[0] in live && live[done[0]].buf in bufs
    ensures var h := done[0];
            var b := live[h].buf;
            Handled(live0, bufs0, done0, live[h := live[h].(phase := Seen)], bufs[b := bufs[b].(disk := false)], done[1..])
  {
    var h := done[0];
    assert done == [h] + done[1..];
    assert h in done0;
    assert live[h].buf == live0[h].buf;
    assert Reported(live0, done0, live[h].buf);
    assert done[1..] == done0[|done0| - |done[1..]|..];
  }

  lemma DoneFacts(desc: seq<Desc>, ops: seq<Request>, info: seq<Info>, bufs: map<nat, Buffer>, posted: seq<nat>, done: seq<nat>, f: Flight)
    requires |desc| == NUM == |ops| == |info| && f.a < NUM && f.b < NUM && f.c < NUM
    requires FlightOk(desc, ops, info, bufs, posted, done, f)
    ensures f.phase == Done || f.phase == Seen ==> info[f.a].status == 0
    ensures info[f.a].b == f.buf && f.buf != 0 && f.buf in bufs && (bufs[f.buf].disk <==> f.phase != Seen)
  {
  }

  lemma CompletedOk(desc: seq<Desc>, ops: seq<Request>, info: seq<Info>, bufs: map<nat, Buffer>, posted: seq<nat>, done: seq<nat>,
                    f: Flight, info': seq<Info>, bufs': map<nat, Buffer>)
    requires |desc| == NUM == |ops| == |info| && f.a < NUM && f.b < NUM && f.c < NUM
    requires FlightOk(desc, ops, info, bufs, posted, done, f) && f.phase == Taken
    requires info' == info[f.a := info[f.a].(status := 0)]
    requires f.buf in bufs' && bufs'[f.buf].disk == bufs[f.buf].disk && bufs'[f.buf].blockno == bufs[f.buf].blockno
    ensures FlightOk(desc, ops, info', bufs', posted, done + [f.a], f.(phase := Done))
  {
  }

  /** The device has finished with flight `h`. */
  lemma Completed(free: seq<bool>, holder: seq<int>, live: Flights, desc: seq<Desc>, ops: seq<Request>, info: seq<Info>,
                  bufs: map<nat, Buffer>, posted: seq<nat>, done: seq<nat>, h: nat, info': seq<Info>, bufs': map<nat, Buffer>)
    requires FlightsOk(free, holder, live, desc, ops, info, bufs, posted, done) && h in live && live[h].phase == Taken
    requires |info| == NUM && h < NUM && info' == info[h := info[h].(status := 0)]
    requires var b := live[h].buf;
             b in bufs && (bufs' == bufs || exists data: Sectors :: bufs' == bufs[b := bufs[b].(data := data)])
    ensures |done| < 2
    ensures FlightsOk(free, holder, live[h := live[h].(phase := Done)], desc, ops, info', bufs', posted, done + [h])
  {
    hide FlightsOk, FlightOk, ChainOk, ChainHeld;
    FlightAt(free, holder, live, desc, ops, info, bufs, posted, done, h);
    DoneGrows(free, holder, live, desc, ops, info, bufs, posted, done, h);
    HeadsOk(free, holder, live, desc, ops, info, bufs, posted, done);
    CompletedOk(desc, ops, info, bufs, posted, done, live[h], info', bufs');
    FlightMoves(free, holder, live, desc, ops, info, bufs, posted, done, h, Done, info', bufs', posted, done + [h]);
  }

  lemma SeenOk(desc: seq<Desc>, ops: seq<Request>, info: seq<Info>, bufs: map<nat, Buffer>, posted: seq<nat>, done: seq<nat>,
               f: Flight, bufs': map<nat, Buffer>)
    requires |desc| == NUM == |ops| == |info| && f.a < NUM && f.b < NUM && f.c < NUM
    requires FlightOk(desc, ops, info, bufs, posted, done, f) && f.phase == Done && |done| > 0 && f.a !in done[1..]
    requires bufs' == bufs[f.buf := bufs[f.buf].(disk := false)]
    ensures FlightOk(desc, ops, info, bufs', posted, done[1..], f.(phase := Seen))
  {
  }

  lemma TakenOk(desc: seq<Desc>, ops: seq<Request>, info: seq<Info>, bufs: map<nat, Buffer>, posted: seq<nat>, done: seq<nat>, f: Flight)
    requires |desc| == NUM == |ops| == |info| && f.a < NUM && f.b < NUM && f.c < NUM
    requires FlightOk(desc, ops, info, bufs, posted, done, f) && f.phase == Posted && |posted| > 0 && f.a !in posted[1..]
    ensures FlightOk(desc, ops, info, bufs, posted[1..], done, f.(phase := Taken))
  {
  }

  lemma ThreeOf(idx: seq<nat>, f: Flight)
    requires |idx| == 3 && f.a == idx[0] && f.b == idx[1] && f.c == idx[2] && DistinctHeads(idx)
    ensures forall d :: 0 <= d < NUM ==> (d in idx <==> InChain(f, d))
    ensures f.a != f.b && f.a != f.c && f.b != f.c
  {
  }

  lemma SizesOk(free: seq<bool>, holder: seq<int>, live: Flights, desc: seq<Desc>, ops: seq<Request>, info: seq<Info>,
                bufs: map<nat, Buffer>, posted: seq<nat>, done: seq<nat>)
    requires FlightsOk(free, holder, live, desc, ops, info, bufs, posted, done)
    ensures |free| == NUM == |holder| && |desc| == NUM == |ops| == |info|
  {
  }

  lemma DescUntouched(free: seq<bool>, holder: seq<int>, live: Flights, desc: seq<Desc>, desc': seq<Desc>, ops: seq<Request>,
                      info: seq<Info>, bufs: map<nat, Buffer>, posted: seq<nat>, done: seq<nat>)
    requires FlightsOk(free, holder, live, desc, ops, info, bufs, posted, done) && |desc'| == NUM
    requires forall d :: 0 <= d < NUM && !free[d] ==> desc'[d] == desc[d]
    ensures FlightsOk(free, holder, live, desc', ops, info, bufs, posted, done)
  {
    forall h | h in live ensures FlightOk(desc', ops, info, bufs, posted, done, live[h]) {
      assert ChainHeld(holder, h, live[h]);
      FlightSame(desc, ops, info, bufs, posted, done, desc', ops, info, bufs, posted, done, live[h]);
    }
  }

  lemma NeedsTwo(free: seq<bool>, holder: seq<int>, live: Flights, desc: seq<Desc>, ops: seq<Request>, info: seq<Info>,
                 bufs: map<nat, Buffer>, posted: seq<nat>, done: seq<nat>)
    requires FlightsOk(free, holder, live, desc, ops, info, bufs, posted, done) && |free| == NUM && FewFree(free)
    ensures |live| >= 2
  {
    FreeOrTwo(free, holder, live);
  }

  lemma NeverThree(free: seq<bool>, holder: seq<int>, live: Flights, desc: seq<Desc>, ops: seq<Request>, info: seq<Info>,
                   bufs: map<nat, Buffer>, posted: seq<nat>, done: seq<nat>)
    requires FlightsOk(free, holder, live, desc, ops, info, bufs, posted, done)
    ensures |live| <= 2
  {
    LiveAtMostTwo(free, holder, live);
  }

  /** There are never more than two heads posted. */
  lemma PostedBelowTwo(free: seq<bool>, holder: seq<int>, live: Flights, desc: seq<Desc>, ops: seq<Request>, info: seq<Info>,
                       bufs: map<nat, Buffer>, posted: seq<nat>, done: seq<nat>, head: nat)
    requires FlightsOk(free, holder, live, desc, ops, info, bufs, posted + [head], done)
    ensures |posted| < 2
  {
    AtMostTwo(free, holder, live, posted + [head]);
  }

  // ---- One request from end to end ----

  /** A request on an idle queue, from `virtio_disk_rw` through the device and the interrupt handler and back:
      a write leaves the contents of the buffer on the disk, a read the contents of the disk in the buffer, and
      nothing else changes. */
  method Rw(d: Disk, b: nat, write: bool)
    requires d.Valid() && d.live == map[] && b != 0 && b in d.bufs
    modifies d
    ensures d.Valid() && d.live == map[] && d.bufs.Keys == old(d.bufs).Keys
    ensures var sector := old(d.bufs)[b].blockno * 2;
            && d.store == (if write then WithSectors(old(d.store), sector, old(d.bufs)[b].data) else old(d.store))
            && d.bufs[b] == old(d.bufs)[b].(disk := false, data := if write then old(d.bufs)[b].data else SectorsAt(old(d.store), sector, 2))
    ensures forall c :: c in d.bufs && c != b ==> d.bufs[c] == old(d.bufs)[c]
  {
    hide Disk.Valid, WithSectors, SectorsAt;
    var head := Carry(d, b, write);
    OnlyReported(d.live, head, b);
    d.Intr();
    d.Finish(head);
    assert d.live.Keys == {};
  }

  /** The first half: the request is queued, taken and carried out. */
  method Carry(d: Disk, b: nat, write: bool) returns (head: nat)
    requires d.Valid() && d.live == map[] && b != 0 && b in d.bufs
    modifies d
    ensures d.Valid() && d.live.Keys == {head} && d.done == [head] && d.live[head].buf == b && d.bufs.Keys == old(d.bufs).Keys
    ensures var sector := old(d.bufs)[b].blockno * 2;
            && d.store == (if write then WithSectors(old(d.store), sector, old(d.bufs)[b].data) else old(d.store))
            && d.bufs[b] == old(d.bufs)[b].(disk := true, data := if write then old(d.bufs)[b].data else SectorsAt(old(d.store), sector, 2))
    ensures forall c :: c in d.bufs && c != b ==> d.bufs[c] == old(d.bufs)[c]
  {
    hide Disk.Valid, WithSectors, SectorsAt;
    NothingListed(d);
    var ok;
    ok, head := d.Submit(b, write);
    var found, h := d.DeviceTake();
    assert h == head && d.live.Keys == {head};
    d.DeviceComplete(h);
  }

  lemma NothingListed(d: Disk)
    requires d.Valid() && d.live == map[]
    ensures d.posted == [] && d.done == []
  {
    FirstIsLive(d.free, d.holder, d.live, d.desc, d.ops, d.info, d.bufs, d.posted, d.done);
  }

  lemma OnlyReported(live: Flights, head: nat, b: nat)
    requires live.Keys == {head} && live[head].buf == b
    ensures forall c :: Reported(live, [head], c) ==> c == b
  {
  }

  /** A block written from one buffer and read into another arrives there; a block that is not written
      reads as before. */
  method WriteThenRead(d: Disk, b: nat, c: nat)
    requires d.Valid() && d.live == map[] && b != 0 && c != 0 && b != c && b in d.bufs && c in d.bufs
    modifies d
    ensures d.Valid() && d.live == map[] && b in d.bufs && c in d.bufs && d.bufs[c].blockno == old(d.bufs)[c].blockno
    ensures d.bufs[c].data == if old(d.bufs)[c].blockno == old(d.bufs)[b].blockno then old(d.bufs)[b].data
                              else SectorsAt(old(d.store), old(d.bufs)[c].blockno * 2, 2)
  {
    BlocksApart(d.store, d.bufs[b].blockno, d.bufs[b].data, d.bufs[c].blockno);
    Rw(d, b, true);
    Rw(d, c, false);
  }
}
