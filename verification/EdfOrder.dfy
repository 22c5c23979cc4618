/** The deadline scheduler does not depend on the order in which its queues list threads and releases. */
module EdfOrder {
  import opened EdfRules
  import opened EdfTheorems
  import EdfScheduler

  lemma SameUnthrottled(q: seq<Snapshot>, p: seq<Snapshot>, now: int)
    requires SameElements(q, p)
    ensures SameElements(UnthrottleAll(q, now), UnthrottleAll(p, now))
  {
    AlsoUnthrottled(q, p, now);
    AlsoUnthrottled(p, q, now);
  }

  lemma AlsoUnthrottled(q: seq<Snapshot>, p: seq<Snapshot>, now: int)
    requires SameElements(q, p)
    ensures forall i :: 0 <= i < |q| ==> UnthrottleAll(q, now)[i] in UnthrottleAll(p, now)
  {
    forall i | 0 <= i < |q| ensures UnthrottleAll(q, now)[i] in UnthrottleAll(p, now) {
      var j :| 0 <= j < |p| && p[j] == q[i];
      assert UnthrottleAll(p, now)[j] == UnthrottleAll(q, now)[i];
    }
  }

  lemma SameThrottled(q: seq<Snapshot>, p: seq<Snapshot>, now: int)
    requires SameElements(q, p)
    ensures SameElements(ThrottleAll(q, now), ThrottleAll(p, now))
  {
    AlsoThrottled(q, p, now);
    AlsoThrottled(p, q, now);
  }

  lemma AlsoThrottled(q: seq<Snapshot>, p: seq<Snapshot>, now: int)
    requires SameElements(q, p)
    ensures forall i :: 0 <= i < |q| ==> ThrottleAll(q, now)[i] in ThrottleAll(p, now)
  {
    forall i | 0 <= i < |q| ensures ThrottleAll(q, now)[i] in ThrottleAll(p, now) {
      var j :| 0 <= j < |p| && p[j] == q[i];
      assert ThrottleAll(p, now)[j] == ThrottleAll(q, now)[i];
    }
  }

  /** The place in `p` of a thread of `q`. */
  lemma PlaceOf(q: seq<Snapshot>, p: seq<Snapshot>, i: int) returns (j: int)
    requires SameElements(q, p) && 0 <= i < |q|
    ensures 0 <= j < |p| && p[j] == q[i]
  {
    assert q[i] in p;
    j :| 0 <= j < |p| && p[j] == q[i];
  }

  lemma SameMissed(q: seq<Snapshot>, p: seq<Snapshot>, now: int)
    requires SameElements(q, p) && NoneMissed(q, now)
    ensures NoneMissed(p, now)
  {
    forall j | 0 <= j < |p| ensures p[j].currentDeadline > now {
      var i := PlaceOf(p, q, j);
    }
  }

  lemma SameEligible(q: seq<Snapshot>, p: seq<Snapshot>)
    requires SameElements(q, p) && NoneEligible(q)
    ensures NoneEligible(p)
  {
    forall j | 0 <= j < |p| ensures !p[j].Eligible() {
      var i := PlaceOf(p, q, j);
    }
  }

  lemma SameFirstMissed(q: seq<Snapshot>, p: seq<Snapshot>, now: int, m: int, n: int)
    requires SameElements(q, p) && DistinctIds(q) && FirstMissed(q, now, m) && FirstMissed(p, now, n)
    ensures q[m] == p[n]
  {
    var i := PlaceOf(p, q, n);
    var j := PlaceOf(q, p, m);
  }

  /** Of two settled outcomes of the same threads, neither selects a thread that beats the other's. */
  lemma NotBeaten(q: seq<Snapshot>, p: seq<Snapshot>, now: int, q': seq<Snapshot>, b: int, p': seq<Snapshot>, c: int)
    requires SameElements(q, p) && Valid(q) && Valid(p) && SettledTo(q, now, q', b) && SettledTo(p, now, p', c)
    ensures q[b].id == p[c].id || !Beats(q'[b], p'[c])
  {
    var j := PlaceOf(q, p, b);
    if j != c {
      SettledKey(p, now, p', c, j, q'[b]);
    }
  }

  lemma SameBest(q: seq<Snapshot>, p: seq<Snapshot>, now: int, q': seq<Snapshot>, b: int, p': seq<Snapshot>, c: int)
    requires SameElements(q, p) && Valid(q) && Valid(p) && SettledTo(q, now, q', b) && SettledTo(p, now, p', c)
    ensures q'[b] == p'[c] && q[b].id == p[c].id == q'[b].id
  {
    NotBeaten(q, p, now, q', b, p', c);
    NotBeaten(p, q, now, p', c, q', b);
    var j := PlaceOf(q, p, b);
    assert p[j].id == p[c].id ==> j == c;
  }

  lemma SameSettled(q: seq<Snapshot>, p: seq<Snapshot>, now: int, q': seq<Snapshot>, b: int, p': seq<Snapshot>, c: int)
    requires SameElements(q, p) && SettledTo(q, now, q', b) && SettledTo(p, now, p', c) && q'[b] == p'[c]
    ensures forall i :: 0 <= i < |q'| ==> q'[i] in p'
  {
    forall i | 0 <= i < |q'| ensures q'[i] in p' {
      var j := PlaceOf(q, p, i);
      assert p'[j] == q'[i];
    }
  }

  lemma SameIdleTime(slice1: int, slice2: int, a: seq<Arrival>, b: seq<Arrival>, now: int)
    requires SameElements(a, b) && IsIdleTime(slice1, a, now) && IsIdleTime(slice2, b, now)
    ensures slice1 == slice2
  {
    hide SameElements, IsEarliest;
    SwapSame(a, b);
    SomeRelease(a, b);
    SomeRelease(b, a);
    if exists k :: 0 <= k < |a| && a[k].time < INT_MAX {
      var k :| 0 <= k < |a| && IsEarliest(a, k) && slice1 == AtLeastOne(a[k].time - now);
      var m :| 0 <= m < |b| && IsEarliest(b, m) && slice2 == AtLeastOne(b[m].time - now);
      SameEarliest(a, b, k, m);
    }
  }

  lemma SameEarliest(a: seq<Arrival>, b: seq<Arrival>, k: int, m: int)
    requires SameElements(a, b) && IsEarliest(a, k) && IsEarliest(b, m)
    ensures a[k].time == b[m].time
  {
    assert a[k] in b && b[m] in a;
  }

  lemma SameEmpty<T>(a: seq<T>, b: seq<T>)
    requires SameElements(a, b)
    ensures a == [] ==> b == []
  {
    if b != [] {
      assert b[0] in a;
    }
  }

  lemma SomeRelease(a: seq<Arrival>, b: seq<Arrival>)
    requires SameElements(a, b)
    ensures (exists k :: 0 <= k < |a| && a[k].time < INT_MAX) ==> exists k :: 0 <= k < |b| && b[k].time < INT_MAX
  {
    if k :| 0 <= k < |a| && a[k].time < INT_MAX {
      assert a[k] in b;
      var m :| 0 <= m < |b| && b[m] == a[k];
      assert b[m].time < INT_MAX;
    }
  }

  // ---------- The thread selected ----------

  /** The same threads, listed in two orders: the same thread is selected, and all threads end up in the same
      state. Nothing is asked of the releases. */
  lemma SameChoice(q: seq<Snapshot>, arrivals: seq<Arrival>, now: int, q': seq<Snapshot>, chosen: int, slice: int,
                   p: seq<Snapshot>, arrivals2: seq<Arrival>, p': seq<Snapshot>, chosen2: int, slice2: int)
    requires Valid(q) && Valid(p) && SameElements(q, p)
    requires Schedules(q, arrivals, now, q', chosen, slice) && Schedules(p, arrivals2, now, p', chosen2, slice2)
    ensures SameElements(q', p') && (chosen == -1 <==> chosen2 == -1)
    ensures chosen != -1 ==>
              && 0 <= chosen < |q'| == |q| && 0 <= chosen2 < |p'| == |p|
              && q'[chosen] == p'[chosen2] && q[chosen].id == p[chosen2].id
  {
    hide UnthrottleAll, ThrottleAll, Valid, SettledTo, PostponedTo, SliceRule, IsIdleTime, SameElements;
    SameUnthrottled(q, p, now);
    if NoneMissed(UnthrottleAll(q, now), now) && NoneMissed(UnthrottleAll(p, now), now) {
      ChoiceInTime(q, arrivals, now, q', chosen, slice, p, arrivals2, p', chosen2, slice2);
    } else {
      ChoiceMissed(q, arrivals, now, q', chosen, slice, p, arrivals2, p', chosen2, slice2);
    }
  }

  lemma SwapSame<T>(a: seq<T>, b: seq<T>)
    requires SameElements(a, b)
    ensures SameElements(b, a)
  {
  }

  lemma UnthrottledIds(q: seq<Snapshot>, now: int)
    requires Valid(q)
    ensures DistinctIds(UnthrottleAll(q, now)) && Valid(ThrottleAll(UnthrottleAll(q, now), now))
    ensures forall i :: 0 <= i < |q| ==> UnthrottleAll(q, now)[i].id == q[i].id == ThrottleAll(UnthrottleAll(q, now), now)[i].id
  {
  }

  lemma ChoiceMissed(q: seq<Snapshot>, arrivals: seq<Arrival>, now: int, q': seq<Snapshot>, chosen: int, slice: int,
                     p: seq<Snapshot>, arrivals2: seq<Arrival>, p': seq<Snapshot>, chosen2: int, slice2: int)
    requires Valid(q) && Valid(p) && SameElements(q, p)
    requires !NoneMissed(UnthrottleAll(q, now), now) || !NoneMissed(UnthrottleAll(p, now), now)
    requires Schedules(q, arrivals, now, q', chosen, slice) && Schedules(p, arrivals2, now, p', chosen2, slice2)
    ensures SameElements(q', p') && slice == slice2 == 0
    ensures 0 <= chosen < |q'| == |q| && 0 <= chosen2 < |p'| == |p|
    ensures q'[chosen] == p'[chosen2] && q[chosen].id == p[chosen2].id
  {
    hide UnthrottleAll, ThrottleAll, SettledTo, PostponedTo, SliceRule, IsIdleTime, SameElements;
    var q1, p1 := UnthrottleAll(q, now), UnthrottleAll(p, now);
    SameUnthrottled(q, p, now);
    SwapSame(q1, p1);
    if NoneMissed(q1, now) {
      SameMissed(q1, p1, now);
      assert false;
    }
    if NoneMissed(p1, now) {
      SameMissed(p1, q1, now);
      assert false;
    }
    UnthrottledIds(q, now);
    UnthrottledIds(p, now);
    SameFirstMissed(q1, p1, now, chosen, chosen2);
  }

  lemma ChoiceInTime(q: seq<Snapshot>, arrivals: seq<Arrival>, now: int, q': seq<Snapshot>, chosen: int, slice: int,
                     p: seq<Snapshot>, arrivals2: seq<Arrival>, p': seq<Snapshot>, chosen2: int, slice2: int)
    requires Valid(q) && Valid(p) && SameElements(q, p)
    requires NoneMissed(UnthrottleAll(q, now), now) && NoneMissed(UnthrottleAll(p, now), now)
    requires Schedules(q, arrivals, now, q', chosen, slice) && Schedules(p, arrivals2, now, p', chosen2, slice2)
    ensures SameElements(q', p') && (chosen == -1 <==> chosen2 == -1)
    ensures chosen != -1 ==>
              && 0 <= chosen < |q'| == |q| && 0 <= chosen2 < |p'| == |p|
              && q'[chosen] == p'[chosen2] && q[chosen].id == p[chosen2].id
  {
    hide UnthrottleAll, ThrottleAll, Valid, SettledTo, SliceRule, IsIdleTime, SameElements;
    SwapSame(q, p);
    if q == [] || p == [] {
      if q == [] { SameEmpty(q, p); } else { SameEmpty(p, q); }
    } else {
      var q2, p2 := ThrottleAll(UnthrottleAll(q, now), now), ThrottleAll(UnthrottleAll(p, now), now);
      SameUnthrottled(q, p, now);
      SameThrottled(UnthrottleAll(q, now), UnthrottleAll(p, now), now);
      UnthrottledIds(q, now);
      UnthrottledIds(p, now);
      if NoneEligible(q2) || NoneEligible(p2) {
        SwapSame(q2, p2);
        if NoneEligible(q2) { SameEligible(q2, p2); } else { SameEligible(p2, q2); }
      } else {
        SameBest(q2, p2, now, q', chosen, p', chosen2);
        SettledBoth(q2, p2, now, q', chosen, p', chosen2);
      }
    }
  }

  lemma SettledBoth(q: seq<Snapshot>, p: seq<Snapshot>, now: int, q': seq<Snapshot>, b: int, p': seq<Snapshot>, c: int)
    requires SameElements(q, p) && SettledTo(q, now, q', b) && SettledTo(p, now, p', c) && q'[b] == p'[c]
    ensures SameElements(q', p')
  {
    hide Settled;
    SameSettled(q, p, now, q', b, p', c);
    SameSettled(p, q, now, p', c, q', b);
  }

  // ---------- Its slice ----------

  /** The same thread selected, among the same threads and releases as it sees them: the same slice. */
  lemma SameSlice(q: seq<Snapshot>, arrivals: seq<Arrival>, now: int, q': seq<Snapshot>, chosen: int, slice: int,
                  p: seq<Snapshot>, arrivals2: seq<Arrival>, p': seq<Snapshot>, chosen2: int, slice2: int)
    requires Valid(q) && Valid(p) && SameElements(q, p) && SameElements(arrivals, arrivals2)
    requires Schedules(q, arrivals, now, q', chosen, slice) && Schedules(p, arrivals2, now, p', chosen2, slice2)
    ensures slice == slice2
  {
    hide UnthrottleAll, ThrottleAll, Valid, SettledTo, SliceRule, IsIdleTime, SameElements;
    SameUnthrottled(q, p, now);
    SameChoice(q, arrivals, now, q', chosen, slice, p, arrivals2, p', chosen2, slice2);
    SwapSame(q, p);
    if !NoneMissed(UnthrottleAll(q, now), now) || !NoneMissed(UnthrottleAll(p, now), now) {
      ChoiceMissed(q, arrivals, now, q', chosen, slice, p, arrivals2, p', chosen2, slice2);
    } else if q == [] || p == [] {
      if q == [] { SameEmpty(q, p); } else { SameEmpty(p, q); }
      SameIdleTime(slice, slice2, arrivals, arrivals2, now);
    } else if chosen != -1 {
      SameSliceOf(slice, slice2, arrivals, arrivals2, q', p', now, q'[chosen]);
    }
  }

  lemma SameSliceOf(slice: int, slice2: int, arrivals: seq<Arrival>, arrivals2: seq<Arrival>,
                    q: seq<Snapshot>, p: seq<Snapshot>, now: int, best: Snapshot)
    requires SliceRule(slice, arrivals, q, now, best) && SliceRule(slice2, arrivals2, p, now, best)
    requires SameElements(q, p) && SameElements(arrivals, arrivals2)
    ensures slice == slice2
  {
    hide IsSlice;
    if best.Limit() >= 1 {
      SliceIsUnique(slice, slice2, best.Limit(), arrivals, arrivals2, q, p, now, best);
    }
  }

  // ---------- Two calls ----------

  /** The thread that a call reports, as the scan of the releases compares it. */
  function Reported(q: seq<EdfScheduler.Thread>, chosen: int): EdfScheduler.Thread? {
    if 0 <= chosen < |q| then q[chosen] else null
  }

  lemma SameReported(q: seq<EdfScheduler.Thread>, p: seq<EdfScheduler.Thread>, i: int, j: int)
    requires SameElements(q, p) && DistinctIds(EdfScheduler.Snaps(q)) && DistinctIds(EdfScheduler.Snaps(p))
    requires 0 <= i < |q| && 0 <= j < |p| && q[i].id == p[j].id
    ensures q[i] == p[j]
  {
    assert q[i] in p;
    EdfScheduler.SameNode(p, j, q[i]);
  }

  lemma SameSnaps(q: seq<EdfScheduler.Thread>, p: seq<EdfScheduler.Thread>)
    requires SameElements(q, p)
    ensures SameElements(EdfScheduler.Snaps(q), EdfScheduler.Snaps(p))
  {
    AlsoSnap(q, p);
    AlsoSnap(p, q);
  }

  lemma AlsoSnap(q: seq<EdfScheduler.Thread>, p: seq<EdfScheduler.Thread>)
    requires SameElements(q, p)
    ensures forall i :: 0 <= i < |q| ==> EdfScheduler.Snaps(q)[i] in EdfScheduler.Snaps(p)
  {
    forall i | 0 <= i < |q| ensures EdfScheduler.Snaps(q)[i] in EdfScheduler.Snaps(p) {
      assert q[i] in p;
      var j :| 0 <= j < |p| && p[j] == q[i];
      assert EdfScheduler.Snaps(p)[j] == EdfScheduler.Snaps(q)[i];
    }
  }

  lemma SameArrivals(rq: seq<EdfScheduler.ReleaseEntry>, rq2: seq<EdfScheduler.ReleaseEntry>, best: EdfScheduler.Thread?)
    requires SameElements(rq, rq2)
    ensures SameElements(EdfScheduler.Arrivals(rq, best), EdfScheduler.Arrivals(rq2, best))
  {
    AlsoArrives(rq, rq2, best);
    AlsoArrives(rq2, rq, best);
  }

  lemma AlsoArrives(rq: seq<EdfScheduler.ReleaseEntry>, rq2: seq<EdfScheduler.ReleaseEntry>, best: EdfScheduler.Thread?)
    requires SameElements(rq, rq2)
    ensures forall k :: 0 <= k < |rq| ==> EdfScheduler.Arrivals(rq, best)[k] in EdfScheduler.Arrivals(rq2, best)
  {
    forall k | 0 <= k < |rq| ensures EdfScheduler.Arrivals(rq, best)[k] in EdfScheduler.Arrivals(rq2, best) {
      assert rq[k] in rq2;
      var m :| 0 <= m < |rq2| && rq2[m] == rq[k];
      assert EdfScheduler.Arrivals(rq2, best)[m] == EdfScheduler.Arrivals(rq, best)[k];
    }
  }

  /** Two calls of the scheduler, from the same state, with the same threads and the same releases in two
      orders: the same thread is selected for the same slice, and all threads end up in the same state. The
      hypotheses on the outcomes are what `ScheduleEdfCbs` promises. */
  lemma OrderDoesNotMatter(q: seq<EdfScheduler.Thread>, rq: seq<EdfScheduler.ReleaseEntry>, now: int,
                           q': seq<Snapshot>, chosen: int, slice: int,
                           p: seq<EdfScheduler.Thread>, rq2: seq<EdfScheduler.ReleaseEntry>,
                           p': seq<Snapshot>, chosen2: int, slice2: int)
    requires SameElements(q, p) && SameElements(rq, rq2) && Valid(EdfScheduler.Snaps(q)) && Valid(EdfScheduler.Snaps(p))
    requires Schedules(EdfScheduler.Snaps(q), EdfScheduler.Arrivals(rq, Reported(q, chosen)), now, q', chosen, slice)
    requires Schedules(EdfScheduler.Snaps(p), EdfScheduler.Arrivals(rq2, Reported(p, chosen2)), now, p', chosen2, slice2)
    ensures Reported(q, chosen) == Reported(p, chosen2) && slice == slice2
    ensures chosen == -1 <==> chosen2 == -1
    ensures SameElements(q', p')
  {
    hide Schedules, SameElements;
    var s, s2 := EdfScheduler.Snaps(q), EdfScheduler.Snaps(p);
    SameSnaps(q, p);
    SameChoice(s, EdfScheduler.Arrivals(rq, Reported(q, chosen)), now, q', chosen, slice,
               s2, EdfScheduler.Arrivals(rq2, Reported(p, chosen2)), p', chosen2, slice2);
    if chosen != -1 {
      SameReported(q, p, chosen, chosen2);
    }
    SameArrivals(rq, rq2, Reported(q, chosen));
    SameSlice(s, EdfScheduler.Arrivals(rq, Reported(q, chosen)), now, q', chosen, slice,
              s2, EdfScheduler.Arrivals(rq2, Reported(p, chosen2)), p', chosen2, slice2);
  }
}
