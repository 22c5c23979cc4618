/** What the scheduling rules guarantee over calls and over runs. */
module EdfTheorems {
  import opened EdfRules

  // ---------- The postponing loop ----------

  /** Postponing a violating server moves its deadline later. */
  lemma PostponeIsLater(t: Snapshot, now: int)
    requires t.ServerValid() && t.Violates(now)
    ensures t.Postpone(now).currentDeadline > t.currentDeadline
  {
    if t.currentDeadline - now > 0 {
      var wait := t.currentDeadline - now;
      assert t.remainingBudget * t.period <= t.budget * t.period by {
        MulMono(t.remainingBudget, t.budget, t.period);
      }
      if wait >= t.period {
        MulMono(t.period, wait, t.budget);
        assert false;
      }
    }
  }

  lemma MulMono(x: int, y: int, k: int)
    requires x <= y && k >= 0
    ensures x * k <= y * k
  {
  }

  /** A thread that violates its bandwidth before its deadline has a positive period, and does not
      violate it again once it is postponed. Nothing is asked of its parameters. */
  lemma PostponeSettles(t: Snapshot, now: int)
    requires t.currentDeadline > now && t.Violates(now)
    ensures !t.Postpone(now).Violates(now)
  {
    var p := t.Postpone(now);
    assert p.currentDeadline - now == t.period && p.remainingBudget * p.period == p.budget * p.period;
    if t.budget > 0 && t.period <= 0 {
      MulMono(t.period, 0, t.remainingBudget);
      MulMono(1, t.budget, t.currentDeadline - now);
      assert false;
    }
  }

  /** The outcome of the loop does not depend on the order of the queue: the rule that describes
      it without reference to order has one solution. */
  lemma SettledOutcomeIsUnique(q: seq<Snapshot>, now: int, q1: seq<Snapshot>, b1: int, q2: seq<Snapshot>, b2: int)
    requires Valid(q) && SettledTo(q, now, q1, b1) && SettledTo(q, now, q2, b2)
    ensures b1 == b2 && q1 == q2
  {
    if b1 != b2 {
      var x, y := q1[b1], q2[b2];
      assert q1[b1].id == q[b1].id && q2[b2].id == q[b2].id && q[b1].id != q[b2].id;
      if Beats(x, y) {
        SettledKey(q, now, q2, b2, b1, x);
        assert false;
      } else {
        assert Beats(y, x);
        SettledKey(q, now, q1, b1, b2, y);
        assert false;
      }
    }
  }

  /** If thread `i`, in its settled form `x`, beats the selected thread of another outcome, a
      contradiction is near: in that outcome too it would be settled and would win. */
  lemma SettledKey(q: seq<Snapshot>, now: int, q': seq<Snapshot>, b: int, i: int, x: Snapshot)
    requires Valid(q) && SettledTo(q, now, q', b) && 0 <= i < |q| && i != b
    requires (x == q[i] && !x.Violates(now)) || (x == q[i].Postpone(now) && q[i].Violates(now))
    requires x.Eligible()
    ensures !Beats(x, q'[b])
  {
    assert Beats(q'[b], q'[i]);
    if q[i].Violates(now) && x != q[i] && Beats(x, q'[b]) {
      PostponeIsLater(q[i], now);
      assert Beats(q[i], q'[b]);
    }
  }

  // ---------- Bandwidth ----------

  /** The server potential: budget still to be used, scaled by the period, less the deadline
      scaled by the budget. */
  function Potential(t: Snapshot): int {
    t.remainingBudget * t.period - t.budget * t.currentDeadline
  }

  /** Refilling a throttled server keeps the potential from growing exactly when its budget was
      not overrun. */
  lemma UnthrottlePotential(t: Snapshot, now: int)
    requires !t.hard && t.throttled && now >= t.currentDeadline
    ensures Potential(t.Unthrottle(now)) <= Potential(t) <==> t.remainingBudget * t.period >= 0
  {
    assert t.budget * (t.currentDeadline + t.period) == t.budget * t.currentDeadline + t.budget * t.period;
  }

  lemma PostponePotential(t: Snapshot, now: int)
    requires t.period > 0 && t.budget > 0 && t.Violates(now)
    ensures Potential(t.Postpone(now)) < Potential(t)
  {
    assert t.budget * (now + t.period) == t.budget * now + t.budget * t.period;
    assert t.budget * (t.currentDeadline - now) == t.budget * t.currentDeadline - t.budget * now;
    if t.currentDeadline <= now {
      MulMono(0, now - t.currentDeadline, t.budget);
      assert t.remainingBudget * t.period > 0 by {
        MulMono(1, t.remainingBudget, t.period);
      }
    }
  }

  /** One call never raises the potential of a soft thread whose server is sound, whatever the other threads
      are; and if its budget has not been overrun, all of this stays so. */
  lemma ThreadKeepsBandwidth(q: seq<Snapshot>, arrivals: seq<Arrival>, now: int, q': seq<Snapshot>, chosen: int, slice: int, i: nat)
    requires Schedules(q, arrivals, now, q', chosen, slice) && i < |q| && !q[i].hard && q[i].Sound()
    ensures |q'| == |q| && Same(q[i], q'[i]) && Potential(q'[i]) <= Potential(q[i])
    ensures q[i].Solvent() ==> q'[i].Solvent()
  {
    var t1 := q[i].Unthrottle(now);
    if t1 != q[i] {
      UnthrottlePotential(q[i], now);
    }
    var t2 := t1.Throttle(now);
    assert Potential(t2) == Potential(t1) <= Potential(q[i]);
    if t2.Violates(now) {
      PostponePotential(t2, now);
    }
  }

  /** The fields no call changes. */
  predicate Same(t: Snapshot, u: Snapshot) {
    t.id == u.id && t.hard == u.hard && t.period == u.period && t.budget == u.budget
    && t.remainingTime == u.remainingTime
  }

  /** One call of the scheduler keeps all valid servers valid, and never raises the potential of a sound one;
      the thread it selects, if soft and sound, is given no more than its remaining budget. */
  lemma CallKeepsBandwidth(q: seq<Snapshot>, arrivals: seq<Arrival>, now: int, q': seq<Snapshot>, chosen: int, slice: int)
    requires Schedules(q, arrivals, now, q', chosen, slice)
    ensures |q'| == |q| && -1 <= chosen < |q| && (Valid(q) ==> Valid(q'))
    ensures forall i :: 0 <= i < |q| ==> Same(q[i], q'[i])
    ensures forall i :: 0 <= i < |q| && !q[i].hard && q[i].Sound() ==> Potential(q'[i]) <= Potential(q[i])
    ensures forall i :: 0 <= i < |q| && !q[i].hard && q[i].Solvent() ==> q'[i].Solvent()
    ensures chosen >= 0 && !q[chosen].hard && q[chosen].Sound() && q'[chosen].remainingTime >= 1
            && (slice > 0 || q[chosen].Solvent()) ==>
              slice <= q'[chosen].remainingBudget
  {
    CallKeepsFields(q, arrivals, now, q', chosen, slice);
    forall i | 0 <= i < |q| && !q[i].hard && q[i].Sound()
      ensures Potential(q'[i]) <= Potential(q[i]) && (q[i].Solvent() ==> q'[i].Solvent())
    {
      ThreadKeepsBandwidth(q, arrivals, now, q', chosen, slice, i);
    }
    if chosen >= 0 && !q[chosen].hard && q[chosen].Sound() && NoneMissed(UnthrottleAll(q, now), now) {
      ChosenHasBudget(q, arrivals, now, q', chosen, slice);
    }
  }

  lemma CallKeepsFields(q: seq<Snapshot>, arrivals: seq<Arrival>, now: int, q': seq<Snapshot>, chosen: int, slice: int)
    requires Schedules(q, arrivals, now, q', chosen, slice)
    ensures |q'| == |q| && -1 <= chosen < |q| && (Valid(q) ==> Valid(q'))
    ensures forall i :: 0 <= i < |q| ==> Same(q[i], q'[i])
  {
  }

  /** A soft thread that is selected in time has budget, and its slice is no longer than that. */
  lemma ChosenHasBudget(q: seq<Snapshot>, arrivals: seq<Arrival>, now: int, q': seq<Snapshot>, chosen: int, slice: int)
    requires Schedules(q, arrivals, now, q', chosen, slice) && chosen >= 0 && NoneMissed(UnthrottleAll(q, now), now)
    requires chosen < |q| == |q'| && !q[chosen].hard && q[chosen].Sound()
    ensures q'[chosen].remainingBudget > 0 && !q'[chosen].Violates(now)
    ensures q'[chosen].remainingTime >= 1 ==> slice <= q'[chosen].remainingBudget
  {
    var t := ThrottleAll(UnthrottleAll(q, now), now)[chosen];
    assert t.Eligible() ==> t.remainingBudget > 0;
  }

  // ---------- Runs ----------

  /** One turn of the driver. It puts some of its threads into the run queue, in any order, calls the
      scheduler, and charges the selected thread for the ticks it used; `next` is what it then knows of
      all its threads, queued or not. */
  datatype Turn = Turn(queue: seq<Snapshot>, now: int, arrivals: seq<Arrival>, after: seq<Snapshot>,
                       chosen: int, slice: int, used: nat, next: map<int, Snapshot>)

  /** All threads of the driver, by ID. */
  predicate Threads(all: map<int, Snapshot>) {
    forall id :: id in all ==> all[id].id == id
  }

  /** The selected thread's time and, if it is soft, its budget go down by the ticks it used. */
  function Charge(t: Snapshot, used: nat): Snapshot {
    if t.hard then t.(remainingTime := t.remainingTime - used)
    else t.(remainingTime := t.remainingTime - used, remainingBudget := t.remainingBudget - used)
  }

  /** The queue holds threads of the driver, each at most once. */
  predicate Queued(all: map<int, Snapshot>, queue: seq<Snapshot>) {
    DistinctIds(queue) && forall i :: 0 <= i < |queue| ==> queue[i].id in all && all[queue[i].id] == queue[i]
  }

  function Used(turn: Turn, id: int): nat {
    if 0 <= turn.chosen < |turn.after| && turn.after[turn.chosen].id == id then turn.used else 0
  }

  /** What the driver may do in a turn: charge the selected thread for at most its slice, and only if it
      has work; give threads new work; give hard threads new deadlines; and create threads. */
  predicate DriverStep(all: map<int, Snapshot>, turn: Turn) {
    && turn.used <= turn.slice
    && (0 <= turn.chosen < |turn.after| ==> turn.used == 0 || turn.after[turn.chosen].remainingTime >= 1)
    && Threads(turn.next) && all.Keys <= turn.next.Keys
    && (forall i :: 0 <= i < |turn.after| && turn.after[i].id in turn.next ==>
          Carried(Charge(turn.after[i], Used(turn, turn.after[i].id)), turn.next[turn.after[i].id]))
    && (forall id :: id in all && (forall i :: 0 <= i < |turn.queue| ==> turn.queue[i].id != id) ==>
          Carried(all[id], turn.next[id]))
  }

  /** Thread `t` as the driver may present it next. */
  predicate Carried(t: Snapshot, n: Snapshot) {
    && n.id == t.id && n.hard == t.hard
    && (!t.hard ==> n == t.(remainingTime := n.remainingTime))
  }

  predicate IsRun(all: map<int, Snapshot>, turns: seq<Turn>)
    decreases |turns|
  {
    turns == [] ||
    (var t := turns[0];
     && Queued(all, t.queue)
     && Schedules(t.queue, t.arrivals, t.now, t.after, t.chosen, t.slice)
     && DriverStep(all, t)
     && IsRun(t.next, turns[1..]))
  }

  function Final(all: map<int, Snapshot>, turns: seq<Turn>): map<int, Snapshot> {
    if turns == [] then all else turns[|turns| - 1].next
  }

  /** The ticks thread `id` used over the run. */
  function Consumed(turns: seq<Turn>, id: int): nat {
    if turns == [] then 0 else Used(turns[0], id) + Consumed(turns[1..], id)
  }

  lemma ChargeKeepsServer(t: Snapshot, used: nat, n: Snapshot)
    requires t.Solvent() && !t.hard && used <= t.remainingBudget
    requires t.throttled ==> used == 0
    requires Carried(Charge(t, used), n)
    ensures n.Solvent() && n.period == t.period && n.budget == t.budget
    ensures Potential(n) + used * n.period == Potential(t)
  {
    assert (t.remainingBudget - used) * t.period == t.remainingBudget * t.period - used * t.period;
  }

  /** Thread `id`, after a turn, has used up its ticks from its potential. */
  lemma TurnKeepsBandwidth(all: map<int, Snapshot>, turn: Turn, id: int)
    requires Threads(all) && Queued(all, turn.queue) && id in all && !all[id].hard && all[id].Solvent()
    requires Schedules(turn.queue, turn.arrivals, turn.now, turn.after, turn.chosen, turn.slice) && DriverStep(all, turn)
    ensures Threads(turn.next) && id in turn.next
    ensures var n := turn.next[id];
            && !n.hard && n.Solvent() && n.period == all[id].period && n.budget == all[id].budget
            && Potential(n) + Used(turn, id) * n.period <= Potential(all[id])
  {
    CallKeepsBandwidth(turn.queue, turn.arrivals, turn.now, turn.after, turn.chosen, turn.slice);
    hide Schedules, Charge, Carried, Potential;
    if i :| 0 <= i < |turn.queue| && turn.queue[i].id == id {
      var a := turn.after[i];
      assert Same(turn.queue[i], a);
      SameIds(turn.queue, turn.after);
      UsedInBudget(turn, i);
      ChargeKeepsServer(a, Used(turn, id), turn.next[id]);
    } else {
      NotQueued(all, turn, id);
      ChargeNothing(all[id]);
      ChargeKeepsServer(all[id], 0, turn.next[id]);
    }
  }

  lemma UsedInBudget(turn: Turn, i: nat)
    requires |turn.after| == |turn.queue| && DistinctIds(turn.after) && i < |turn.after| && !turn.after[i].hard
    requires turn.after[i].Solvent()
    requires turn.used <= turn.slice && -1 <= turn.chosen < |turn.after|
    requires turn.chosen >= 0 ==> turn.used == 0 || turn.after[turn.chosen].remainingTime >= 1
    requires turn.chosen == i && turn.after[i].remainingTime >= 1 ==> turn.slice <= turn.after[i].remainingBudget
    ensures Used(turn, turn.after[i].id) <= turn.after[i].remainingBudget
    ensures turn.after[i].throttled ==> Used(turn, turn.after[i].id) == 0
  {
  }

  lemma SameIds(q: seq<Snapshot>, q': seq<Snapshot>)
    requires DistinctIds(q) && |q'| == |q| && forall i :: 0 <= i < |q| ==> Same(q[i], q'[i])
    ensures DistinctIds(q')
  {
  }

  lemma NotQueued(all: map<int, Snapshot>, turn: Turn, id: int)
    requires |turn.after| == |turn.queue| && forall i :: 0 <= i < |turn.queue| ==> Same(turn.queue[i], turn.after[i])
    requires forall i :: 0 <= i < |turn.queue| ==> turn.queue[i].id != id
    ensures Used(turn, id) == 0
  {
  }

  lemma ChargeNothing(t: Snapshot)
    ensures Charge(t, 0) == t
  {
  }

  /** Constant bandwidth: over any run, whatever queues the driver forms, a soft thread uses no more than
      its initial budget plus its share of the time by which its deadline moved. */
  lemma {:induction false} BandwidthIsolation(all: map<int, Snapshot>, turns: seq<Turn>, id: int)
    requires Threads(all) && IsRun(all, turns) && id in all && !all[id].hard && all[id].Solvent()
    ensures Threads(Final(all, turns)) && id in Final(all, turns)
    ensures var f := Final(all, turns)[id];
            && !f.hard && f.Solvent() && f.period == all[id].period && f.budget == all[id].budget
            && Consumed(turns, id) * f.period + f.remainingBudget * f.period
               <= all[id].remainingBudget * f.period + f.budget * (f.currentDeadline - all[id].currentDeadline)
    decreases |turns|
  {
    hide Schedules, DriverStep, Queued, Threads;
    if turns != [] {
      var t := turns[0];
      TurnKeepsBandwidth(all, t, id);
      BandwidthIsolation(t.next, turns[1..], id);
      assert Final(all, turns) == Final(t.next, turns[1..]);
      AddShares(all[id], t.next[id], Final(all, turns)[id], Used(t, id), Consumed(turns[1..], id));
    } else {
      assert all[id].budget * (all[id].currentDeadline - all[id].currentDeadline) == 0;
    }
  }

  lemma AddShares(a: Snapshot, b: Snapshot, f: Snapshot, used: nat, later: nat)
    requires a.period == b.period == f.period && a.budget == b.budget == f.budget
    requires Potential(b) + used * b.period <= Potential(a)
    requires later * f.period + f.remainingBudget * f.period
             <= b.remainingBudget * f.period + f.budget * (f.currentDeadline - b.currentDeadline)
    ensures (used + later) * f.period + f.remainingBudget * f.period
            <= a.remainingBudget * f.period + f.budget * (f.currentDeadline - a.currentDeadline)
  {
    assert (used + later) * f.period == used * f.period + later * f.period;
    assert f.budget * (f.currentDeadline - b.currentDeadline) == f.budget * f.currentDeadline - f.budget * b.currentDeadline;
    assert f.budget * (f.currentDeadline - a.currentDeadline) == f.budget * f.currentDeadline - f.budget * a.currentDeadline;
  }

  // ---------- The selected thread and its slice ----------

  /** A selected soft thread has budget, keeps within its bandwidth, and (when its budget does not
      exceed its period) is never given a slice that passes its deadline. */
  lemma SliceMeetsDeadline(q: seq<Snapshot>, arrivals: seq<Arrival>, now: int, q': seq<Snapshot>, chosen: int, slice: int)
    requires Schedules(q, arrivals, now, q', chosen, slice)
    requires chosen >= 0 && slice > 0 && chosen < |q| && !q[chosen].hard && q[chosen].Sound()
    ensures |q'| == |q|
    ensures var b := q'[chosen];
            && 0 < b.remainingBudget && b.currentDeadline > now
            && b.remainingBudget * b.period <= b.budget * (b.currentDeadline - now)
            && (b.budget <= b.period ==> now + slice <= b.currentDeadline)
  {
    CallKeepsFields(q, arrivals, now, q', chosen, slice);
    ChosenHasBudget(q, arrivals, now, q', chosen, slice);
    var b := q'[chosen];
    if b.budget <= b.period {
      BudgetWithinWait(b.remainingBudget, b.budget, b.period, b.currentDeadline - now);
    }
  }

  lemma BudgetWithinWait(remaining: int, budget: int, period: int, wait: int)
    requires 0 < budget <= period && wait > 0 && remaining * period <= budget * wait
    ensures remaining <= wait
  {
    MulMono(budget, period, wait);
    assert remaining * period <= wait * period;
    if remaining > wait {
      MulMono(1, remaining - wait, period);
      assert false;
    }
  }

  /** Two lists of the same elements, in any order. */
  ghost predicate SameElements<T>(a: seq<T>, b: seq<T>) {
    (forall i :: 0 <= i < |a| ==> a[i] in b) && (forall i :: 0 <= i < |b| ==> b[i] in a)
  }

  /** The slice does not depend on the order in which threads and releases are listed. */
  lemma SliceIsUnique(slice1: int, slice2: int, limit: int, arrivals1: seq<Arrival>, arrivals2: seq<Arrival>,
                      q1: seq<Snapshot>, q2: seq<Snapshot>, now: int, best: Snapshot)
    requires IsSlice(slice1, limit, arrivals1, q1, now, best) && IsSlice(slice2, limit, arrivals2, q2, now, best)
    requires SameElements(arrivals1, arrivals2) && SameElements(q1, q2)
    ensures slice1 == slice2
  {
    SliceIsLeast(slice1, slice2, limit, arrivals1, arrivals2, q1, q2, now, best);
    SliceIsLeast(slice2, slice1, limit, arrivals2, arrivals1, q2, q1, now, best);
  }

  lemma SliceIsLeast(slice1: int, slice2: int, limit: int, arrivals1: seq<Arrival>, arrivals2: seq<Arrival>,
                     q1: seq<Snapshot>, q2: seq<Snapshot>, now: int, best: Snapshot)
    requires IsSlice(slice1, limit, arrivals1, q1, now, best) && IsSlice(slice2, limit, arrivals2, q2, now, best)
    requires SameElements(arrivals1, arrivals2) && SameElements(q1, q2)
    ensures slice1 <= slice2
  {
    if k :| 0 <= k < |arrivals2| && Preempts(arrivals2[k], now, best) && slice2 == AtLeastOne(arrivals2[k].time - now) {
      assert arrivals2[k] in arrivals1;
    }
    if i :| 0 <= i < |q2| && RefillPreempts(q2[i], now, best) && slice2 == AtLeastOne(q2[i].currentDeadline - now) {
      assert q2[i] in q1;
    }
  }

  /** No release or refill that would take priority falls strictly inside the slice. */
  lemma NoPreemptionInsideSlice(slice: int, limit: int, arrivals: seq<Arrival>, q: seq<Snapshot>, now: int, best: Snapshot)
    requires IsSlice(slice, limit, arrivals, q, now, best)
    ensures forall k :: 0 <= k < |arrivals| && Preempts(arrivals[k], now, best) ==>
              arrivals[k].time == now || arrivals[k].time >= now + slice
    ensures forall i :: 0 <= i < |q| && RefillPreempts(q[i], now, best) ==>
              q[i].currentDeadline == now || q[i].currentDeadline >= now + slice
  {
  }
}
