/** Earliest-deadline-first scheduling with constant bandwidth servers: what one call of the
    scheduler does to the threads, as a relation between snapshots of the run queue. */
module EdfRules {

  /** A snapshot of a thread. `hard` threads have no server; the budget fields of a soft thread
      are those of its server. */
  datatype Snapshot = Snapshot(
    id: int, hard: bool, period: int, budget: int,
    remainingBudget: int, throttled: bool, throttledAt: int,
    currentDeadline: int, remainingTime: int)
  {
    predicate Eligible() {
      hard || !throttled
    }

    /** Server parameters are positive, and a throttled server has no budget. */
    predicate Sound() {
      !hard ==> period > 0 && budget > 0 && (throttled ==> remainingBudget == 0)
    }

    /** Besides, the budget has not been overrun. */
    predicate Solvent() {
      Sound() && (!hard ==> remainingBudget >= 0)
    }

    /** Server parameters are positive and the budget is never overrun or overfilled. */
    predicate ServerValid() {
      !hard ==>
        && period > 0 && budget > 0
        && 0 <= remainingBudget <= budget
        && (throttled ==> remainingBudget == 0)
    }

    /** Step 1: a throttled server whose deadline has come is refilled and its deadline moved. */
    function Unthrottle(now: int): Snapshot {
      if !hard && throttled && now >= currentDeadline
      then this.(remainingBudget := budget, currentDeadline := currentDeadline + period, throttled := false)
      else this
    }

    /** Step 3: an exhausted server is throttled. */
    function Throttle(now: int): Snapshot {
      if !hard && !throttled && remainingBudget <= 0
      then this.(throttled := true, throttledAt := now)
      else this
    }

    /** The server could use more than its bandwidth before its deadline. */
    predicate Violates(now: int) {
      !hard && remainingBudget > 0
      && (currentDeadline - now <= 0 || remainingBudget * period > budget * (currentDeadline - now))
    }

    /** Step 5: a new deadline and a full budget. */
    function Postpone(now: int): Snapshot {
      this.(currentDeadline := now + period, remainingBudget := budget)
    }

    /** The longest slice the thread may be given. */
    function Limit(): int {
      if !hard && remainingBudget <= remainingTime then remainingBudget else remainingTime
    }
  }

  /** The comparison function of the scheduler: `a` has priority over `b`. */
  predicate Beats(a: Snapshot, b: Snapshot) {
    Before(a.currentDeadline, a.id, b)
  }

  /** A thread with this deadline and ID would have priority over `b`. */
  predicate Before(deadline: int, id: int, b: Snapshot) {
    deadline < b.currentDeadline || (deadline == b.currentDeadline && id < b.id)
  }

  predicate DistinctIds(q: seq<Snapshot>) {
    forall i, j :: 0 <= i < j < |q| ==> q[i].id != q[j].id
  }

  predicate Valid(q: seq<Snapshot>) {
    DistinctIds(q) && forall i :: 0 <= i < |q| ==> q[i].ServerValid()
  }

  function UnthrottleAll(q: seq<Snapshot>, now: int): (r: seq<Snapshot>)
    ensures |r| == |q|
  {
    seq(|q|, i requires 0 <= i < |q| => q[i].Unthrottle(now))
  }

  function ThrottleAll(q: seq<Snapshot>, now: int): (r: seq<Snapshot>)
    ensures |r| == |q|
  {
    seq(|q|, i requires 0 <= i < |q| => q[i].Throttle(now))
  }

  /** Thread `m` has missed its deadline, and no thread with a smaller ID has. */
  predicate FirstMissed(q: seq<Snapshot>, now: int, m: int) {
    && 0 <= m < |q| && q[m].currentDeadline <= now
    && forall i :: 0 <= i < |q| && q[i].currentDeadline <= now ==> q[m].id <= q[i].id
  }

  predicate NoneMissed(q: seq<Snapshot>, now: int) {
    forall i :: 0 <= i < |q| ==> q[i].currentDeadline > now
  }

  /** Thread `b` is the only eligible thread that no eligible thread has priority over. */
  predicate IsBest(q: seq<Snapshot>, b: int) {
    && 0 <= b < |q| && q[b].Eligible()
    && forall i :: 0 <= i < |q| && i != b && q[i].Eligible() ==> Beats(q[b], q[i])
  }

  predicate NoneEligible(q: seq<Snapshot>) {
    forall i :: 0 <= i < |q| ==> !q[i].Eligible()
  }

  /** What the postponing loop does to one thread, given the thread finally selected. */
  function Settled(t: Snapshot, now: int, best: Snapshot): Snapshot {
    if t.Eligible() && t.Violates(now) && Beats(t, best) then t.Postpone(now) else t
  }

  /** The outcome of the postponing loop, stated without reference to the order of the queue. */
  predicate SettledTo(q: seq<Snapshot>, now: int, q': seq<Snapshot>, b: int) {
    && |q'| == |q| && IsBest(q', b) && !q'[b].Violates(now)
    && forall i :: 0 <= i < |q| ==> q'[i] == Settled(q[i], now, q'[b])
  }

  /** What the postponing loop may do to any queue, whatever the parameters of its servers: violating
      threads may have been postponed, once, and the thread selected violates nothing. */
  predicate PostponedTo(q: seq<Snapshot>, now: int, q': seq<Snapshot>, b: int) {
    && |q'| == |q| && IsBest(q', b) && !q'[b].Violates(now)
    && forall i :: 0 <= i < |q| ==>
         q'[i] == q[i] || (q[i].Eligible() && q[i].Violates(now) && q'[i] == q[i].Postpone(now))
  }

  /** A release still to come, as the scheduler compares it. `own` marks a release of the thread
      that is being compared against. */
  datatype Arrival = Arrival(time: int, id: int, period: int, own: bool)

  predicate Preempts(a: Arrival, now: int, best: Snapshot) {
    a.time >= now && !a.own && Before(a.time + a.period, a.id, best)
  }

  predicate RefillPreempts(t: Snapshot, now: int, best: Snapshot) {
    && !t.hard && t.throttled && t.currentDeadline >= now && t.id != best.id
    && Before(t.currentDeadline + t.period, t.id, best)
  }

  function AtLeastOne(x: int): int {
    if x > 0 then x else 1
  }

  /** The slice is the minimum of the thread's own limit and the delay of every future release and
      refill that would take priority, each delay counted as at least one tick. */
  predicate IsSlice(slice: int, limit: int, arrivals: seq<Arrival>, q: seq<Snapshot>, now: int, best: Snapshot) {
    && slice <= limit
    && (forall k :: 0 <= k < |arrivals| && Preempts(arrivals[k], now, best) ==> slice <= AtLeastOne(arrivals[k].time - now))
    && (forall i :: 0 <= i < |q| && RefillPreempts(q[i], now, best) ==> slice <= AtLeastOne(q[i].currentDeadline - now))
    && (|| slice == limit
        || (exists k :: 0 <= k < |arrivals| && Preempts(arrivals[k], now, best) && slice == AtLeastOne(arrivals[k].time - now))
        || (exists i :: 0 <= i < |q| && RefillPreempts(q[i], now, best) && slice == AtLeastOne(q[i].currentDeadline - now)))
  }

  /** The slice of the selected thread; a thread without work or budget still gets one tick. */
  predicate SliceRule(slice: int, arrivals: seq<Arrival>, q: seq<Snapshot>, now: int, best: Snapshot) {
    if best.Limit() >= 1 then IsSlice(slice, best.Limit(), arrivals, q, now, best) else slice == 1
  }

  const INT_MAX: int := 0x7fff_ffff

  predicate IsEarliest(arrivals: seq<Arrival>, k: int) {
    0 <= k < |arrivals| && forall m :: 0 <= m < |arrivals| ==> arrivals[k].time <= arrivals[m].time
  }

  /** Nothing to run: sleep until the earliest release, or one tick if there is none. */
  predicate IsIdleTime(slice: int, arrivals: seq<Arrival>, now: int) {
    if exists k :: 0 <= k < |arrivals| && arrivals[k].time < INT_MAX
    then exists k :: 0 <= k < |arrivals| && IsEarliest(arrivals, k) && slice == AtLeastOne(arrivals[k].time - now)
    else slice == 1
  }

  /** One call of the scheduler: from queue `q` to queue `q'`, selecting thread `chosen` (-1 for
      none) for `slice` ticks. */
  predicate Schedules(q: seq<Snapshot>, arrivals: seq<Arrival>, now: int, q': seq<Snapshot>, chosen: int, slice: int) {
    var q1 := UnthrottleAll(q, now);
    if !NoneMissed(q1, now) then q' == q1 && FirstMissed(q1, now, chosen) && slice == 0
    else if q == [] then q' == [] && chosen == -1 && IsIdleTime(slice, arrivals, now)
    else
      var q2 := ThrottleAll(q1, now);
      if NoneEligible(q2) then q' == q2 && chosen == -1 && slice == 1
      else
        && PostponedTo(q2, now, q', chosen) && (Valid(q2) ==> SettledTo(q2, now, q', chosen))
        && SliceRule(slice, arrivals, q', now, q'[chosen])
  }
}
