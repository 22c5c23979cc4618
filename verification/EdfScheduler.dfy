/** The EDF + CBS scheduler: the loops over the run queue and the release queue, updating thread
    structures in place, proved to carry out one step of the rules. */
module EdfScheduler {
  import opened EdfRules
  import EdfTheorems

  class Thread {
    const id: int
    const isHardRt: bool
    const period: int
    const budget: int
    var remainingBudget: int
    var isThrottled: bool
    var throttledArrivedTime: int
    var currentDeadline: int
    var remainingTime: int

    constructor (id: int, isHardRt: bool, period: int, budget: int, deadline: int, work: int)
      ensures Snap() == Snapshot(id, isHardRt, period, budget, budget, false, 0, deadline, work)
    {
      this.id, this.isHardRt, this.period, this.budget := id, isHardRt, period, budget;
      remainingBudget, isThrottled, throttledArrivedTime := budget, false, 0;
      currentDeadline, remainingTime := deadline, work;
    }

    ghost function Snap(): Snapshot
      reads this
    {
      Snapshot(id, isHardRt, period, budget, remainingBudget, isThrottled, throttledArrivedTime, currentDeadline, remainingTime)
    }
  }

  datatype ReleaseEntry = ReleaseEntry(thrd: Thread, releaseTime: int)

  ghost function Snaps(q: seq<Thread>): (s: seq<Snapshot>)
    reads q
    ensures |s| == |q|
    ensures forall i :: 0 <= i < |q| ==> s[i] == q[i].Snap()
  {
    seq(|q|, i requires 0 <= i < |q| reads q => q[i].Snap())
  }

  /** The releases still to come, as seen by a selected thread (null if none is selected). */
  function Arrivals(rq: seq<ReleaseEntry>, best: Thread?): (a: seq<Arrival>)
    ensures |a| == |rq|
  {
    seq(|rq|, k requires 0 <= k < |rq| =>
      Arrival(rq[k].releaseTime, rq[k].thrd.id, rq[k].thrd.period, rq[k].thrd == best))
  }

  /** The nodes of a linked run queue are distinct. */
  predicate DistinctNodes(q: seq<Thread>) {
    forall i, j :: 0 <= i < j < |q| ==> q[i] != q[j]
  }

  function EdfThreadCmp(a: Thread, b: Thread): (r: int)
    reads a, b
    ensures r > 0 <==> Beats(a.Snap(), b.Snap())
    ensures a.id != b.id ==> (r < 0 <==> Beats(b.Snap(), a.Snap()))
  {
    if a.currentDeadline < b.currentDeadline then 1
    else if a.currentDeadline > b.currentDeadline then -1
    else if a.id < b.id then 1 else -1
  }

  method RefillThrottled(q: seq<Thread>, now: int)
    requires DistinctNodes(q)
    modifies q
    ensures Snaps(q) == UnthrottleAll(old(Snaps(q)), now)
  {
    for i := 0 to |q|
      invariant forall k :: 0 <= k < i ==> q[k].Snap() == old(q[k].Snap()).Unthrottle(now)
      invariant forall k :: i <= k < |q| ==> q[k].Snap() == old(q[k].Snap())
    {
      var th := q[i];
      if !th.isHardRt && th.isThrottled && now >= th.currentDeadline {
        th.remainingBudget := th.budget;
        th.currentDeadline := th.currentDeadline + th.period;
        th.isThrottled := false;
      }
    }
  }

  method CheckDeadlineMiss(q: seq<Thread>, now: int) returns (missed: int)
    ensures if missed == -1 then NoneMissed(Snaps(q), now) else FirstMissed(Snaps(q), now, missed)
  {
    missed := -1;
    for i := 0 to |q|
      invariant missed == -1 ==> forall k :: 0 <= k < i ==> q[k].currentDeadline > now
      invariant missed != -1 ==>
        && 0 <= missed < i && q[missed].currentDeadline <= now
        && forall k :: 0 <= k < i && q[k].currentDeadline <= now ==> q[missed].id <= q[k].id
    {
      if q[i].currentDeadline <= now {
        if missed == -1 {
          missed := i;
        } else if q[i].id < q[missed].id {
          missed := i;
        }
      }
    }
  }

  method IdleTime(rq: seq<ReleaseEntry>, now: int) returns (slice: int)
    ensures IsIdleTime(slice, Arrivals(rq, null), now)
  {
    var earliest := INT_MAX;
    ghost var at := -1;
    ghost var arrivals := Arrivals(rq, null);
    for k := 0 to |rq|
      invariant forall m :: 0 <= m < k ==> earliest <= arrivals[m].time
      invariant earliest <= INT_MAX
      invariant earliest != INT_MAX ==> 0 <= at < k && arrivals[at].time == earliest
    {
      if rq[k].releaseTime < earliest {
        earliest := rq[k].releaseTime;
        at := k;
      }
    }
    if earliest != INT_MAX {
      var sleepTime := earliest - now;
      slice := if sleepTime > 0 then sleepTime else 1;
      assert IsEarliest(arrivals, at);
    } else {
      slice := 1;
    }
  }

  method ThrottleExhausted(q: seq<Thread>, now: int)
    requires DistinctNodes(q)
    modifies q
    ensures Snaps(q) == ThrottleAll(old(Snaps(q)), now)
  {
    for i := 0 to |q|
      invariant forall k :: 0 <= k < i ==> q[k].Snap() == old(q[k].Snap()).Throttle(now)
      invariant forall k :: i <= k < |q| ==> q[k].Snap() == old(q[k].Snap())
    {
      var th := q[i];
      if !th.isHardRt && !th.isThrottled && th.remainingBudget <= 0 {
        th.isThrottled := true;
        th.throttledArrivedTime := now;
      }
    }
  }

  /** The eligible thread with the earliest deadline, or -1. */
  method SelectBest(q: seq<Thread>) returns (best: int)
    requires DistinctIds(Snaps(q))
    ensures if best == -1 then NoneEligible(Snaps(q)) else IsBest(Snaps(q), best)
  {
    best := -1;
    ghost var s := Snaps(q);
    for i := 0 to |q|
      invariant best == -1 ==> forall k :: 0 <= k < i ==> !s[k].Eligible()
      invariant best != -1 ==>
        && 0 <= best < i && s[best].Eligible()
        && forall k :: 0 <= k < i && k != best && s[k].Eligible() ==> Beats(s[best], s[k])
    {
      if !q[i].isHardRt && q[i].isThrottled {
        continue;
      }
      if best == -1 || EdfThreadCmp(q[i], q[best]) > 0 {
        best := i;
      } else {
        assert s[i].id != s[best].id;
      }
    }
  }

  // ---------- The postponing loop ----------

  /** Some eligible violating threads have been postponed. */
  ghost predicate Postponing(q0: seq<Snapshot>, now: int, q: seq<Snapshot>) {
    && |q| == |q0|
    && (forall i :: 0 <= i < |q| ==>
          q[i] == q0[i] || (q0[i].Eligible() && q0[i].Violates(now) && q[i] == q0[i].Postpone(now)))
  }

  /** Each postponed thread was ahead, by its old deadline, of every thread still eligible. */
  ghost predicate InOrder(q0: seq<Snapshot>, q: seq<Snapshot>)
    requires |q| == |q0|
  {
    forall i, j :: 0 <= i < |q| && 0 <= j < |q| && q[i] != q0[i] && q[j].Eligible() ==> Beats(q0[i], q[j])
  }

  lemma NothingPostponed(q: seq<Snapshot>)
    ensures InOrder(q, q)
  {
  }

  ghost function Violators(q: seq<Snapshot>, now: int): set<int> {
    set i | 0 <= i < |q| && q[i].Eligible() && q[i].Violates(now)
  }

  /** No thread is postponed twice, if no deadline had passed when the loop began. */
  lemma PostponeStep(q0: seq<Snapshot>, now: int, q: seq<Snapshot>, b: int)
    requires NoneMissed(q0, now) && Postponing(q0, now, q) && IsBest(q, b) && q[b].Violates(now)
    ensures Postponing(q0, now, q[b := q[b].Postpone(now)])
    ensures Violators(q[b := q[b].Postpone(now)], now) < Violators(q, now)
  {
    var q' := q[b := q[b].Postpone(now)];
    if q[b] != q0[b] {
      EdfTheorems.PostponeSettles(q0[b], now);
      assert false;
    }
    EdfTheorems.PostponeSettles(q[b], now);
    assert b in Violators(q, now) && b !in Violators(q', now);
  }

  lemma PostponeOrder(q0: seq<Snapshot>, now: int, q: seq<Snapshot>, b: int)
    requires NoneMissed(q0, now) && Postponing(q0, now, q) && IsBest(q, b) && q[b].Violates(now)
    requires Valid(q0) && InOrder(q0, q)
    ensures InOrder(q0, q[b := q[b].Postpone(now)])
  {
    if q[b] != q0[b] {
      EdfTheorems.PostponeSettles(q0[b], now);
      assert false;
    }
    assert q0[b].ServerValid();
    EdfTheorems.PostponeIsLater(q[b], now);
  }

  lemma PostponingEnds(q0: seq<Snapshot>, now: int, q: seq<Snapshot>, b: int)
    requires Valid(q0) && Postponing(q0, now, q) && InOrder(q0, q) && IsBest(q, b) && !q[b].Violates(now)
    ensures SettledTo(q0, now, q, b)
  {
  }

  lemma PostponingIds(q0: seq<Snapshot>, now: int, q: seq<Snapshot>)
    requires DistinctIds(q0) && Postponing(q0, now, q)
    ensures DistinctIds(q)
    ensures NoneEligible(q) ==> NoneEligible(q0)
    ensures forall i :: 0 <= i < |q| ==> q[i].Eligible() == q0[i].Eligible()
  {
  }

  /** The postponing loop. It ends for every queue in which no deadline has passed, whatever the
      parameters of the servers. */
  method Settle(q: seq<Thread>, now: int) returns (best: int)
    requires DistinctNodes(q) && DistinctIds(Snaps(q)) && NoneMissed(Snaps(q), now)
    modifies q
    ensures if best == -1 then NoneEligible(old(Snaps(q))) && Snaps(q) == old(Snaps(q))
            else PostponedTo(old(Snaps(q)), now, Snaps(q), best)
    ensures best != -1 && Valid(old(Snaps(q))) ==> SettledTo(old(Snaps(q)), now, Snaps(q), best)
  {
    hide Valid, InOrder, DistinctIds, Beats;
    ghost var q0 := Snaps(q);
    NothingPostponed(q0);
    best := -1;
    var changesMade := true;
    while changesMade
      invariant Postponing(q0, now, Snaps(q)) && (Valid(q0) ==> InOrder(q0, Snaps(q)))
      invariant !changesMade ==> IsBest(Snaps(q), best) && !Snaps(q)[best].Violates(now)
      decreases Violators(Snaps(q), now), changesMade
    {
      changesMade := false;
      ghost var q1 := Snaps(q);
      PostponingIds(q0, now, q1);
      best := SelectBest(q);
      if best == -1 {
        assert forall i :: 0 <= i < |q1| ==> q1[i] == q0[i];
        assert Snaps(q) == q0;
        break;
      }
      if !q[best].isHardRt && q[best].remainingBudget > 0 {
        var timeUntilDeadline := q[best].currentDeadline - now;
        if timeUntilDeadline <= 0
           || q[best].remainingBudget * q[best].period > q[best].budget * timeUntilDeadline
        {
          PostponeStep(q0, now, q1, best);
          if Valid(q0) { PostponeOrder(q0, now, q1, best); }
          q[best].currentDeadline := now + q[best].period;
          q[best].remainingBudget := q[best].budget;
          changesMade := true;
          assert Snaps(q) == q1[best := q1[best].Postpone(now)];
        }
      }
    }
    if best != -1 && Valid(q0) {
      PostponingEnds(q0, now, Snaps(q), best);
    }
  }

  // ---------- The slice ----------

  /** `slice` is the least of `limit` and the delays of the preempting releases among the first
      `k`. */
  predicate LeastDelay(slice: int, limit: int, arrivals: seq<Arrival>, k: int, now: int, best: Snapshot)
    requires 0 <= k <= |arrivals|
  {
    && slice <= limit
    && (forall m :: 0 <= m < k && Preempts(arrivals[m], now, best) ==> slice <= AtLeastOne(arrivals[m].time - now))
    && (slice == limit
        || exists m :: 0 <= m < k && Preempts(arrivals[m], now, best) && slice == AtLeastOne(arrivals[m].time - now))
  }

  /** Likewise over the refills among the first `k` threads of the queue. */
  predicate LeastRefill(slice: int, limit: int, q: seq<Snapshot>, k: int, now: int, best: Snapshot)
    requires 0 <= k <= |q|
  {
    && slice <= limit
    && (forall i :: 0 <= i < k && RefillPreempts(q[i], now, best) ==> slice <= AtLeastOne(q[i].currentDeadline - now))
    && (slice == limit
        || exists i :: 0 <= i < k && RefillPreempts(q[i], now, best) && slice == AtLeastOne(q[i].currentDeadline - now))
  }

  ghost function Released(rq: seq<ReleaseEntry>): set<Thread> {
    set e | e in rq :: e.thrd
  }

  /** Compare a thread, with the deadline it will have when released, against the selected one. */
  method ArrivalWins(entry: ReleaseEntry, best: Thread) returns (wins: bool)
    modifies entry.thrd
    ensures entry.thrd.Snap() == old(entry.thrd.Snap()) && best.Snap() == old(best.Snap())
    ensures wins <==> entry.thrd != best && Before(entry.releaseTime + entry.thrd.period, entry.thrd.id, best.Snap())
  {
    var arrival := entry.thrd;
    var originalDeadline := arrival.currentDeadline;
    arrival.currentDeadline := entry.releaseTime + arrival.period;
    wins := EdfThreadCmp(arrival, best) > 0;
    arrival.currentDeadline := originalDeadline;
  }

  /** Compare a throttled thread, as it will be once refilled, against the selected one. */
  method RefillWins(th: Thread, best: Thread) returns (wins: bool)
    modifies th
    ensures th.Snap() == old(th.Snap()) && best.Snap() == old(best.Snap())
    ensures wins <==> th != best && Before(th.currentDeadline + th.period, th.id, best.Snap())
  {
    var originalThrottled := th.isThrottled;
    var originalBudget := th.remainingBudget;
    var originalDeadline := th.currentDeadline;
    th.isThrottled := false;
    th.remainingBudget := th.budget;
    var newDeadline := th.currentDeadline + th.period;
    th.currentDeadline := newDeadline;
    wins := EdfThreadCmp(th, best) > 0 && th != best;
    th.isThrottled := originalThrottled;
    th.remainingBudget := originalBudget;
    th.currentDeadline := originalDeadline;
  }

  method ScanReleases(rq: seq<ReleaseEntry>, best: Thread, now: int, limit: int) returns (slice: int)
    modifies Released(rq)
    ensures forall t :: t in Released(rq) ==> t.Snap() == old(t.Snap())
    ensures best.Snap() == old(best.Snap())
    ensures limit >= 1 ==> slice >= 1 && LeastDelay(slice, limit, Arrivals(rq, best), |rq|, now, best.Snap())
    ensures limit < 1 ==> slice == limit
  {
    slice := limit;
    ghost var arrivals := Arrivals(rq, best);
    for k := 0 to |rq|
      invariant forall t :: t in Released(rq) ==> t.Snap() == old(t.Snap())
      invariant best.Snap() == old(best.Snap())
      invariant limit >= 1 ==> slice >= 1 && LeastDelay(slice, limit, arrivals, k, now, best.Snap())
      invariant limit < 1 ==> slice == limit
    {
      var entry := rq[k];
      assert entry.thrd in Released(rq);
      if entry.releaseTime >= now && entry.releaseTime < now + slice {
        var wins := ArrivalWins(entry, best);
        assert wins <==> Preempts(arrivals[k], now, best.Snap());
        if wins {
          var timeUntilArrival := entry.releaseTime - now;
          if timeUntilArrival < slice {
            slice := if timeUntilArrival > 0 then timeUntilArrival else 1;
          }
        }
      }
    }
  }

  method ScanRefills(q: seq<Thread>, best: Thread, now: int, limit: int) returns (slice: int)
    requires DistinctIds(Snaps(q)) && best in q
    modifies q
    ensures Snaps(q) == old(Snaps(q)) && best.Snap() == old(best.Snap())
    ensures limit >= 1 ==> slice >= 1 && LeastRefill(slice, limit, Snaps(q), |q|, now, best.Snap())
    ensures limit < 1 ==> slice == limit
  {
    slice := limit;
    ghost var s := Snaps(q);
    for i := 0 to |q|
      invariant Snaps(q) == s && best.Snap() == old(best.Snap())
      invariant limit >= 1 ==> slice >= 1 && LeastRefill(slice, limit, s, i, now, best.Snap())
      invariant limit < 1 ==> slice == limit
    {
      var th := q[i];
      assert th.Snap() == s[i];
      if !th.isHardRt && th.isThrottled {
        if th.currentDeadline >= now && th.currentDeadline < now + slice {
          var wins := RefillWins(th, best);
          assert forall k :: 0 <= k < |q| ==> q[k].Snap() == s[k];
          SameNode(q, i, best);
          if wins {
            var timeUntilRefill := th.currentDeadline - now;
            if timeUntilRefill < slice {
              slice := if timeUntilRefill > 0 then timeUntilRefill else 1;
            }
          }
        }
      }
    }
  }

  /** In a queue with distinct IDs the ID tells the threads apart. */
  lemma SameNode(q: seq<Thread>, i: nat, t: Thread)
    requires i < |q| && DistinctIds(Snaps(q)) && t in q
    ensures q[i] == t <==> q[i].id == t.id
  {
    var k :| 0 <= k < |q| && q[k] == t;
    assert Snaps(q)[k].id == t.id && Snaps(q)[i].id == q[i].id;
  }

  lemma SliceFromScans(slice: int, mid: int, limit: int, arrivals: seq<Arrival>, q: seq<Snapshot>, now: int, best: Snapshot)
    requires LeastDelay(mid, limit, arrivals, |arrivals|, now, best)
    requires LeastRefill(slice, mid, q, |q|, now, best)
    ensures IsSlice(slice, limit, arrivals, q, now, best)
  {
  }

  method AllocateTime(q: seq<Thread>, rq: seq<ReleaseEntry>, best: Thread, now: int) returns (slice: int)
    requires DistinctIds(Snaps(q)) && best in q
    modifies q, Released(rq)
    ensures Snaps(q) == old(Snaps(q)) && forall t :: t in Released(rq) ==> t.Snap() == old(t.Snap())
    ensures SliceRule(slice, Arrivals(rq, best), Snaps(q), now, best.Snap())
  {
    var limit;
    if !best.isHardRt {
      limit := if best.remainingTime < best.remainingBudget then best.remainingTime else best.remainingBudget;
    } else {
      limit := best.remainingTime;
    }
    var minPreemption := ScanReleases(rq, best, now, limit);
    assert Snaps(q) == old(Snaps(q));
    ghost var mid := minPreemption;
    minPreemption := ScanRefills(q, best, now, minPreemption);
    if limit >= 1 {
      SliceFromScans(minPreemption, mid, limit, Arrivals(rq, best), Snaps(q), now, best.Snap());
    }
    assert limit == best.Snap().Limit();
    assert forall t :: t in q ==> t.Snap() == old(t.Snap()) by {
      forall t | t in q ensures t.Snap() == old(t.Snap()) {
        var k :| 0 <= k < |q| && q[k] == t;
        assert Snaps(q)[k] == old(Snaps(q))[k];
      }
    }
    slice := if minPreemption > 0 then minPreemption else 1;
  }

  lemma StillDistinct(q: seq<Snapshot>, now: int)
    requires DistinctIds(q) && NoneMissed(UnthrottleAll(q, now), now)
    ensures DistinctIds(ThrottleAll(UnthrottleAll(q, now), now)) && NoneMissed(ThrottleAll(UnthrottleAll(q, now), now), now)
  {
  }

  // ---------- The scheduler ----------

  /** Selects a thread of the run queue (by position, -1 for none) and the ticks it is allocated. */
  method ScheduleEdfCbs(q: seq<Thread>, rq: seq<ReleaseEntry>, now: int) returns (chosen: int, slice: int)
    requires DistinctNodes(q) && DistinctIds(Snaps(q))
    modifies q, Released(rq)
    ensures Schedules(old(Snaps(q)), Arrivals(rq, if 0 <= chosen < |q| then q[chosen] else null), now, Snaps(q), chosen, slice)
    ensures forall t :: t in Released(rq) && t !in q ==> t.Snap() == old(t.Snap())
  {
    ghost var q0 := Snaps(q);
    RefillThrottled(q, now);
    ghost var q1 := Snaps(q);
    chosen := CheckDeadlineMiss(q, now);
    if chosen != -1 {
      slice := 0;
      return;
    }
    if q == [] {
      slice := IdleTime(rq, now);
      return;
    }
    ThrottleExhausted(q, now);
    ghost var q2 := Snaps(q);
    StillDistinct(q0, now);
    chosen := Settle(q, now);
    if chosen == -1 {
      slice := 1;
      return;
    }
    assert DistinctIds(Snaps(q));
    slice := AllocateTime(q, rq, q[chosen], now);
  }
}
