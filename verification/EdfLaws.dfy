/** The scheduling rules in plain arithmetic: what one call does to budgets and deadlines, which thread it
    selects, and for how long. */
module EdfLaws {
  import opened EdfRules
  import EdfTheorems

  // ---------- Budgets and deadlines ----------

  /** The server could use more than its bandwidth by the time `d`. */
  predicate TooMuchBy(t: Snapshot, now: int, d: int) {
    t.remainingBudget * t.period > t.budget * (d - now)
  }

  /** The server has its full budget, which is exactly its bandwidth up to its deadline: with any earlier
      deadline it could use more. */
  ghost predicate FullAt(t: Snapshot, now: int) {
    && t.remainingBudget == t.budget && t.remainingBudget * t.period == t.budget * (t.currentDeadline - now)
    && forall d :: d < t.currentDeadline ==> TooMuchBy(t, now, d)
  }

  lemma PostponedExactly(t: Snapshot, now: int)
    requires !t.hard && t.period > 0 && t.budget > 0
    ensures FullAt(t.Postpone(now), now) && SameButServer(t, t.Postpone(now))
  {
    forall d | d < now + t.period ensures TooMuchBy(t.Postpone(now), now, d) {
      EdfTheorems.MulMono(d - now + 1, t.period, t.budget);
      assert t.budget * (d - now + 1) == t.budget * (d - now) + t.budget;
    }
  }

  predicate FullUntil(t: Snapshot, deadline: int) {
    t.remainingBudget == t.budget && t.currentDeadline == deadline
  }

  /** The thread with another budget and another deadline. */
  predicate SameButServer(t: Snapshot, t': Snapshot) {
    t' == t.(remainingBudget := t'.remainingBudget, currentDeadline := t'.currentDeadline)
  }

  lemma AfterRules(q: seq<Snapshot>, arrivals: seq<Arrival>, now: int, q': seq<Snapshot>, chosen: int, slice: int, i: nat)
    requires Schedules(q, arrivals, now, q', chosen, slice) && i < |q|
    ensures |q'| == |q|
    ensures var t1 := q[i].Unthrottle(now); var t2 := t1.Throttle(now);
            if slice == 0 && !NoneMissed(UnthrottleAll(q, now), now) then q'[i] == t1
            else q'[i] == t2 || (t2.Eligible() && t2.Violates(now) && q'[i] == t2.Postpone(now))
  {
    hide IsBest, FirstMissed, SettledTo, SliceRule, IsIdleTime, Snapshot.Unthrottle, Snapshot.Throttle, Snapshot.Postpone,
      Snapshot.Violates;
    if NoneMissed(UnthrottleAll(q, now), now) && !NoneEligible(ThrottleAll(UnthrottleAll(q, now), now)) {
      assert PostponedTo(ThrottleAll(UnthrottleAll(q, now), now), now, q', chosen);
    }
  }

  /** What one call may do to a thread. Hard threads are left alone, and so are throttled servers before
      their deadline. At its deadline a throttled server gets its full budget until one period later, or
      until its bandwidth allows it. An exhausted server is throttled, unless a deadline has been missed. Any
      other server is left alone or gets a full budget and the deadline its bandwidth allows. */
  lemma CallOnThread(q: seq<Snapshot>, arrivals: seq<Arrival>, now: int, q': seq<Snapshot>, chosen: int, slice: int, i: nat)
    requires Schedules(q, arrivals, now, q', chosen, slice) && i < |q| && q[i].Sound()
    ensures |q'| == |q|
    ensures q[i].hard || (q[i].throttled && now < q[i].currentDeadline) ==> q'[i] == q[i]
    ensures !q[i].hard && q[i].throttled && now >= q[i].currentDeadline ==>
              && SameButServer(q[i].(throttled := false), q'[i])
              && (FullUntil(q'[i], q[i].currentDeadline + q[i].period) || FullAt(q'[i], now))
    ensures !q[i].hard && !q[i].throttled && q[i].remainingBudget <= 0 ==>
              q'[i] == q[i].(throttled := true, throttledAt := now) || (slice == 0 && q'[i] == q[i])
    ensures !q[i].hard && !q[i].throttled && q[i].remainingBudget > 0 ==>
              q'[i] == q[i] || (SameButServer(q[i], q'[i]) && FullAt(q'[i], now))
  {
    hide Schedules, NoneMissed;
    AfterRules(q, arrivals, now, q', chosen, slice, i);
    var t2 := q[i].Unthrottle(now).Throttle(now);
    if !t2.hard {
      PostponedExactly(t2, now);
    }
  }

  /** Which servers are postponed: those that would use more than their bandwidth by their deadline, and have
      priority over the thread finally selected. */
  lemma WhoIsPostponed(q: seq<Snapshot>, arrivals: seq<Arrival>, now: int, q': seq<Snapshot>, chosen: int, slice: int, i: nat)
    requires Schedules(q, arrivals, now, q', chosen, slice) && i < |q| && Valid(q)
    requires !q[i].hard && !q[i].throttled && q[i].remainingBudget > 0 && chosen >= 0 && slice > 0
    ensures |q'| == |q| && chosen < |q|
    ensures q'[i].currentDeadline != q[i].currentDeadline <==>
            && q[i].remainingBudget * q[i].period > q[i].budget * (q[i].currentDeadline - now)
            && (q[i].currentDeadline < q'[chosen].currentDeadline
                || (q[i].currentDeadline == q'[chosen].currentDeadline && q[i].id < q'[chosen].id))
  {
    var q2 := ThrottleAll(UnthrottleAll(q, now), now);
    StillValid(q, now);
    assert slice > 0 ==> NoneMissed(UnthrottleAll(q, now), now);
    assert q2[i] == q[i] && q[i].currentDeadline > now by {
      assert UnthrottleAll(q, now)[i] == q[i];
    }
    assert SettledTo(q2, now, q', chosen);
    if q[i].Violates(now) {
      EdfTheorems.PostponeIsLater(q[i], now);
    }
  }

  lemma StillValid(q: seq<Snapshot>, now: int)
    requires Valid(q)
    ensures Valid(ThrottleAll(UnthrottleAll(q, now), now))
  {
  }

  // ---------- The thread selected ----------

  /** The call allocates no time exactly when a deadline has passed; then it names the thread with the
      smallest ID among those that missed theirs. */
  lemma MissedExactly(q: seq<Snapshot>, arrivals: seq<Arrival>, now: int, q': seq<Snapshot>, chosen: int, slice: int)
    requires Schedules(q, arrivals, now, q', chosen, slice) && forall i :: 0 <= i < |q| ==> q[i].Sound()
    ensures |q'| == |q| && slice >= 0
    ensures slice == 0 <==> exists i :: 0 <= i < |q'| && q'[i].currentDeadline <= now
    ensures slice == 0 ==>
              && 0 <= chosen < |q'| && q'[chosen].currentDeadline <= now
              && forall i :: 0 <= i < |q'| && q'[i].currentDeadline <= now ==> q'[chosen].id <= q'[i].id
  {
    if NoneMissed(UnthrottleAll(q, now), now) {
      forall i | 0 <= i < |q| ensures |q'| == |q| && q'[i].currentDeadline > now {
        AfterRules(q, arrivals, now, q', chosen, slice, i);
        assert UnthrottleAll(q, now)[i].currentDeadline > now;
      }
      SliceIsPositive(q, arrivals, now, q', chosen, slice);
    }
  }

  lemma SliceIsPositive(q: seq<Snapshot>, arrivals: seq<Arrival>, now: int, q': seq<Snapshot>, chosen: int, slice: int)
    requires Schedules(q, arrivals, now, q', chosen, slice) && NoneMissed(UnthrottleAll(q, now), now)
    ensures slice >= 1
  {
    hide UnthrottleAll, ThrottleAll, NoneMissed, NoneEligible, PostponedTo, SettledTo, IsEarliest, Preempts, RefillPreempts;
  }

  /** Otherwise the thread selected is the one with the earliest deadline, and the smallest ID among those
      with that deadline, of all threads that are not throttled; there is none only if all are throttled. */
  lemma EarliestDeadlineFirst(q: seq<Snapshot>, arrivals: seq<Arrival>, now: int, q': seq<Snapshot>, chosen: int, slice: int)
    requires Schedules(q, arrivals, now, q', chosen, slice) && slice > 0
    ensures |q'| == |q| && -1 <= chosen < |q'|
    ensures chosen == -1 <==> forall i :: 0 <= i < |q'| ==> !q'[i].hard && q'[i].throttled
    ensures chosen >= 0 ==>
              && (q'[chosen].hard || !q'[chosen].throttled)
              && forall i :: 0 <= i < |q'| && i != chosen && (q'[i].hard || !q'[i].throttled) ==>
                   q'[chosen].currentDeadline < q'[i].currentDeadline
                   || (q'[chosen].currentDeadline == q'[i].currentDeadline && q'[chosen].id < q'[i].id)
  {
    hide UnthrottleAll, ThrottleAll, NoneMissed, SettledTo, SliceRule, IsIdleTime;
  }

  // ---------- Its slice ----------

  /** A release `d` ticks from now, of another thread, would have priority over the selected one. */
  predicate ReleaseAt(a: Arrival, now: int, d: int, best: Snapshot) {
    && a.time - now == d && !a.own
    && (a.time + a.period < best.currentDeadline || (a.time + a.period == best.currentDeadline && a.id < best.id))
  }

  /** A refill `d` ticks from now, of another thread, would give it priority over the selected one. */
  predicate RefillAt(t: Snapshot, now: int, d: int, best: Snapshot) {
    && !t.hard && t.throttled && t.currentDeadline - now == d && t.id != best.id
    && (|| t.currentDeadline + t.period < best.currentDeadline
        || (t.currentDeadline + t.period == best.currentDeadline && t.id < best.id))
  }

  ghost predicate EventAt(arrivals: seq<Arrival>, q: seq<Snapshot>, now: int, d: int, best: Snapshot) {
    (exists k :: 0 <= k < |arrivals| && ReleaseAt(arrivals[k], now, d, best))
    || (exists i :: 0 <= i < |q| && RefillAt(q[i], now, d, best))
  }

  /** The slice of the thread selected: at least one tick; beyond that no more than its work and, if it is soft,
      its budget, and no event that takes priority falls inside it; and it ends only where its work or its
      budget ends or such an event falls due. */
  lemma SliceExactly(q: seq<Snapshot>, arrivals: seq<Arrival>, now: int, q': seq<Snapshot>, chosen: int, slice: int)
    requires Schedules(q, arrivals, now, q', chosen, slice) && chosen >= 0 && slice > 0
    ensures chosen < |q'|
    ensures var b := q'[chosen];
            && (slice > 1 ==> slice <= b.remainingTime && (!b.hard ==> slice <= b.remainingBudget))
            && (forall d :: 0 < d < slice ==> !EventAt(arrivals, q', now, d, b))
            && (slice > 1 ==> !EventAt(arrivals, q', now, 0, b))
            && (|| slice == b.remainingTime || (!b.hard && slice == b.remainingBudget)
                || EventAt(arrivals, q', now, slice, b)
                || (slice == 1 && (|| b.remainingTime < 1 || (!b.hard && b.remainingBudget < 1)
                                   || EventAt(arrivals, q', now, 0, b))))
  {
    EarliestDeadlineFirst(q, arrivals, now, q', chosen, slice);
    hide UnthrottleAll, ThrottleAll, PostponedTo, SettledTo, IsIdleTime;
    var b := q'[chosen];
    if b.Limit() >= 1 {
      IsSliceExactly(slice, arrivals, q', now, b);
    }
  }

  lemma IsSliceExactly(slice: int, arrivals: seq<Arrival>, q: seq<Snapshot>, now: int, b: Snapshot)
    requires IsSlice(slice, b.Limit(), arrivals, q, now, b) && b.Limit() >= 1
    ensures forall d :: 0 < d < slice ==> !EventAt(arrivals, q, now, d, b)
    ensures slice > 1 ==> !EventAt(arrivals, q, now, 0, b)
    ensures slice == b.Limit() || EventAt(arrivals, q, now, slice, b) || (slice == 1 && EventAt(arrivals, q, now, 0, b))
  {
    forall d | 0 <= d < slice && (d > 0 || slice > 1) ensures !EventAt(arrivals, q, now, d, b) {
      forall k | 0 <= k < |arrivals| ensures !ReleaseAt(arrivals[k], now, d, b) {
        assert Preempts(arrivals[k], now, b) ==> slice <= AtLeastOne(arrivals[k].time - now);
      }
      forall i | 0 <= i < |q| ensures !RefillAt(q[i], now, d, b) {
        assert RefillPreempts(q[i], now, b) ==> slice <= AtLeastOne(q[i].currentDeadline - now);
      }
    }
    if k :| 0 <= k < |arrivals| && Preempts(arrivals[k], now, b) && slice == AtLeastOne(arrivals[k].time - now) {
      assert ReleaseAt(arrivals[k], now, arrivals[k].time - now, b);
    }
    if i :| 0 <= i < |q| && RefillPreempts(q[i], now, b) && slice == AtLeastOne(q[i].currentDeadline - now) {
      assert RefillAt(q[i], now, q[i].currentDeadline - now, b);
    }
  }

  /** With nothing to run the time allocated lasts until the earliest release, and for one tick if that is
      due already or there is none. */
  lemma IdleExactly(q: seq<Snapshot>, arrivals: seq<Arrival>, now: int, q': seq<Snapshot>, chosen: int, slice: int)
    requires Schedules(q, arrivals, now, q', chosen, slice) && q == []
    requires forall k :: 0 <= k < |arrivals| ==> arrivals[k].time < INT_MAX
    ensures q' == [] && chosen == -1 && slice >= 1
    ensures forall k :: 0 <= k < |arrivals| && arrivals[k].time > now ==> arrivals[k].time >= now + slice
    ensures arrivals == [] || (exists k :: 0 <= k < |arrivals| && arrivals[k].time <= now) ==> slice == 1
    ensures arrivals != [] && (forall k :: 0 <= k < |arrivals| ==> arrivals[k].time > now) ==>
              exists k :: 0 <= k < |arrivals| && arrivals[k].time == now + slice
  {
    if arrivals != [] {
      assert arrivals[0].time < INT_MAX;
      var k :| 0 <= k < |arrivals| && IsEarliest(arrivals, k) && slice == AtLeastOne(arrivals[k].time - now);
    }
  }
}
