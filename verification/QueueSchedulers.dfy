/** The two schedulers without deadlines: highest response ratio next, and round robin within the most
    urgent priority. */
module QueueSchedulers {

  // ---- Highest response ratio next ----

  datatype Job = Job(id: int, arrival: int, processing: int, remaining: int)

  /** (waiting time + processing time) / processing time */
  function Ratio(j: Job, now: int): real
    requires j.processing > 0
  {
    (now - j.arrival + j.processing) as real / j.processing as real
  }

  /** Job `a` comes before job `b`: a higher ratio, or the same and a smaller ID. */
  predicate Ahead(a: Job, b: Job, now: int)
    requires a.processing > 0 && b.processing > 0
  {
    Ratio(a, now) > Ratio(b, now) || (Ratio(a, now) == Ratio(b, now) && a.id < b.id)
  }

  /** The ratio is one and the waiting time in units of the processing time: of two jobs that have waited equally
      long the shorter is ahead, of two equally long the one that has waited longer, and whoever has waited is ahead
      of whoever arrives now. */
  lemma RatioIs(a: Job, b: Job, now: int)
    requires a.processing > 0 && b.processing > 0
    ensures Ratio(a, now) == 1.0 + (now - a.arrival) as real / a.processing as real
    ensures a.arrival == b.arrival < now && a.processing < b.processing ==> Ahead(a, b, now)
    ensures a.processing == b.processing && a.arrival < b.arrival ==> Ahead(a, b, now)
    ensures a.arrival < now == b.arrival ==> Ahead(a, b, now)
    ensures a.arrival == b.arrival && a.processing == b.processing ==> (Ahead(a, b, now) <==> a.id < b.id)
  {
    RatioOne(a, now);
    RatioOne(b, now);
    var x, y := now - a.arrival, now - b.arrival;
    CrossMultiply(x, a.processing, y, b.processing);
    Products(x, a.processing, y, b.processing);
  }

  lemma RatioOne(a: Job, now: int)
    requires a.processing > 0
    ensures Ratio(a, now) == 1.0 + (now - a.arrival) as real / a.processing as real
  {
    var x, y := (now - a.arrival) as real, a.processing as real;
    assert (x + y) / y == x / y + y / y;
  }

  lemma Products(x: int, p: int, y: int, r: int)
    requires p > 0 && r > 0
    ensures x == y > 0 && p < r ==> x * r > y * p
    ensures x > y && p == r ==> x * r > y * p
    ensures x > 0 && y == 0 ==> x * r > y * p
  {
  }

  predicate Jobs(q: seq<Job>) {
    (forall i :: 0 <= i < |q| ==> q[i].processing > 0) && forall i, j :: 0 <= i < j < |q| ==> q[i].id != q[j].id
  }

  lemma CrossMultiply(a: int, b: int, c: int, d: int)
    requires b > 0 && d > 0
    ensures a * d > c * b <==> a as real / b as real > c as real / d as real
    ensures a * d == c * b <==> a as real / b as real == c as real / d as real
  {
    var x, y := a as real / b as real, c as real / d as real;
    assert x * b as real == a as real && y * d as real == c as real;
    var k := b as real * d as real;
    Scale(x, y, k);
    assert x * k == a as real * d as real == (a * d) as real by {
      assert x * k == (x * b as real) * d as real;
    }
    assert y * k == c as real * b as real == (c * b) as real by {
      assert y * k == (y * d as real) * b as real;
    }
  }

  lemma Scale(x: real, y: real, k: real)
    requires k > 0.0
    ensures x > y <==> x * k > y * k
    ensures x == y <==> x * k == y * k
  {
    if x * k == y * k {
      assert x == x * k / k == y;
    }
  }

  /** The job with the highest response ratio (-1 if there is none) and its slice. Comparing by
      cross-multiplication, the loop never divides. */
  method ScheduleHrrn(q: seq<Job>, now: int) returns (chosen: int, slice: int)
    requires Jobs(q)
    ensures q == [] ==> chosen == -1 && slice == 1
    ensures q != [] ==>
              && 0 <= chosen < |q| && slice == q[chosen].remaining
              && forall i :: 0 <= i < |q| && i != chosen ==> Ahead(q[chosen], q[i], now)
  {
    chosen := -1;
    var num, den := 0, 1;
    for i := 0 to |q|
      invariant chosen == -1 <==> i == 0
      invariant i > 0 ==> 0 <= chosen < i && num == now - q[chosen].arrival + q[chosen].processing && den == q[chosen].processing
      invariant forall j :: 0 <= j < i && j != chosen ==> Ahead(q[chosen], q[j], now)
    {
      var waiting := now - q[i].arrival;
      var n, d := waiting + q[i].processing, q[i].processing;
      if chosen != -1 {
        CrossMultiply(n, d, num, den);
      }
      if chosen == -1 || n * den > num * d || (n * den == num * d && q[i].id < q[chosen].id) {
        chosen, num, den := i, n, d;
      }
    }
    if chosen != -1 {
      slice := q[chosen].remaining;
    } else {
      slice := 1;
    }
  }

  // ---- Round robin within a priority ----

  datatype Task = Task(id: int, priority: int, remaining: int)

  const INT_MAX: int := 0x7fff_ffff
  const QUANTUM: int := 2

  predicate MostUrgent(q: seq<Task>, p: int) {
    (forall i :: 0 <= i < |q| ==> p <= q[i].priority) && exists i :: 0 <= i < |q| && q[i].priority == p
  }

  /** The tasks of one priority, in queue order. */
  function Group(q: seq<Task>, p: int): seq<Task> {
    if q == [] then [] else (if q[0].priority == p then [q[0]] else []) + Group(q[1..], p)
  }

  function Rotated<T>(s: seq<T>): seq<T>
    requires s != []
  {
    s[1..] + [s[0]]
  }

  lemma GroupStep(x: Task, q: seq<Task>, p: int)
    ensures Group([], p) == []
    ensures Group([x] + q, p) == (if x.priority == p then [x] else []) + Group(q, p)
  {
    assert ([x] + q)[1..] == q;
  }

  lemma {:induction false} GroupAppend(a: seq<Task>, b: seq<Task>, p: int)
    ensures Group(a + b, p) == Group(a, p) + Group(b, p)
  {
    hide Group;
    GroupStep(Task(0, 0, 0), [], p);
    if a == [] {
      assert a + b == b;
    } else {
      var x, rest := a[0], a[1..];
      assert a == [x] + rest && a + b == [x] + (rest + b);
      GroupStep(x, rest + b, p);
      GroupStep(x, rest, p);
      GroupAppend(rest, b, p);
    }
  }

  lemma {:induction false} NoneInGroup(q: seq<Task>, p: int)
    requires forall i :: 0 <= i < |q| ==> q[i].priority != p
    ensures Group(q, p) == []
  {
    if q != [] {
      NoneInGroup(q[1..], p);
    }
  }

  /** Moving the first task of a group to the end of the queue rotates the group and leaves every other
      group alone. */
  lemma MoveToTail(q: seq<Task>, k: int, p: int)
    requires 0 <= k < |q| && q[k].priority == p && forall i :: 0 <= i < k ==> q[i].priority != p
    ensures Group(q, p) != [] && Group(q, p)[0] == q[k]
    ensures Group(q[..k] + q[k + 1..] + [q[k]], p) == Rotated(Group(q, p))
    ensures forall r :: r != p ==> Group(q[..k] + q[k + 1..] + [q[k]], r) == Group(q, r)
  {
    assert q == q[..k] + [q[k]] + q[k + 1..];
    NoneInGroup(q[..k], p);
    forall r ensures Group(q, r) == Group(q[..k], r) + Group([q[k]], r) + Group(q[k + 1..], r) {
      GroupAppend(q[..k] + [q[k]], q[k + 1..], r);
      GroupAppend(q[..k], [q[k]], r);
    }
    forall r ensures Group(q[..k] + q[k + 1..] + [q[k]], r) == Group(q[..k], r) + Group(q[k + 1..], r) + Group([q[k]], r) {
      GroupAppend(q[..k] + q[k + 1..], [q[k]], r);
      GroupAppend(q[..k], q[k + 1..], r);
    }
    forall r ensures Group([q[k]], r) == if r == p then [q[k]] else [] {
      assert [q[k]][1..] == [];
    }
  }

  /** Task `k` is the first of the most urgent ones. */
  predicate FirstUrgent(q: seq<Task>, k: int) {
    && 0 <= k < |q| && (forall j :: 0 <= j < |q| ==> q[k].priority <= q[j].priority)
    && forall j :: 0 <= j < k ==> q[j].priority != q[k].priority
  }

  /** No other task has the priority of task `k`. */
  predicate Alone(q: seq<Task>, k: int)
    requires 0 <= k < |q|
  {
    forall j :: 0 <= j < |q| && j != k ==> q[j].priority != q[k].priority
  }

  lemma {:induction false} SomeInGroup(q: seq<Task>, j: int, p: int)
    requires 0 <= j < |q| && q[j].priority == p
    ensures Group(q, p) != []
  {
    if j > 0 {
      SomeInGroup(q[1..], j - 1, p);
    }
  }

  lemma GroupOfOne(q: seq<Task>, k: int)
    requires FirstUrgent(q, k)
    ensures |Group(q, q[k].priority)| == 1 <==> Alone(q, k)
  {
    hide Group;
    var p, rest := q[k].priority, q[k + 1..];
    assert q == q[..k] + ([q[k]] + rest);
    GroupAppend(q[..k], [q[k]] + rest, p);
    GroupStep(q[k], rest, p);
    NoneInGroup(q[..k], p);
    if Alone(q, k) {
      NoneInGroup(rest, p);
    } else {
      var j :| 0 <= j < |q| && j != k && q[j].priority == p;
      SomeInGroup(rest, j - k - 1, p);
    }
  }

  /** Task `k` has been given its slice, of at most 2 ticks unless it is alone, and then gone to the end of the
      queue. */
  predicate Serves(q: seq<Task>, k: int, q': seq<Task>, chosen: Task, slice: int) {
    && FirstUrgent(q, k) && chosen == q[k]
    && q' == (if Alone(q, k) then q else q[..k] + q[k + 1..] + [chosen])
    && slice == if Alone(q, k) || chosen.remaining <= 2 then chosen.remaining else 2
  }

  class RunQueue {
    var tasks: seq<Task>

    constructor (tasks: seq<Task>)
      ensures this.tasks == tasks
    {
      this.tasks := tasks;
    }

    /** The first task of the most urgent priority; if it is not the only one there, it gets at most one
        quantum and goes to the end of the queue. */
    method SchedulePriorityRr() returns (chosen: Task, idle: bool, slice: int)
      requires forall i :: 0 <= i < |tasks| ==> tasks[i].priority <= INT_MAX
      modifies this
      ensures idle <==> old(tasks) == []
      ensures idle ==> slice == 1 && tasks == []
      ensures !idle ==> Dispatched(old(tasks), tasks, chosen, slice)
      ensures !idle ==> exists k :: Serves(old(tasks), k, tasks, chosen, slice)
    {
      if tasks == [] {
        return Task(0, 0, 0), true, 1;
      }
      idle := false;
      var best := INT_MAX;
      for i := 0 to |tasks|
        invariant forall j :: 0 <= j < i ==> best <= tasks[j].priority
        invariant best <= INT_MAX && (best < INT_MAX ==> exists j :: 0 <= j < i && tasks[j].priority == best)
        invariant tasks == old(tasks)
      {
        if tasks[i].priority < best {
          best := tasks[i].priority;
        }
      }
      assert best == INT_MAX ==> tasks[0].priority == best;
      var k := 0;
      while tasks[k].priority != best
        invariant 0 <= k < |tasks| && tasks == old(tasks)
        invariant forall j :: 0 <= j < k ==> tasks[j].priority != best
        invariant exists j :: k <= j < |tasks| && tasks[j].priority == best
        decreases |tasks| - k
      {
        k := k + 1;
      }
      chosen := tasks[k];
      var count := CountOf(best);
      MoveToTail(tasks, k, best);
      assert MostUrgent(tasks, best);
      assert FirstUrgent(tasks, k);
      GroupOfOne(tasks, k);
      if count > 1 {
        tasks := tasks[..k] + tasks[k + 1..] + [chosen];
      }
      if count == 1 {
        slice := chosen.remaining;
      } else {
        slice := if chosen.remaining < QUANTUM then chosen.remaining else QUANTUM;
      }
      assert Serves(old(tasks), k, tasks, chosen, slice);
    }

    method CountOf(p: int) returns (count: nat)
      ensures count == |Group(tasks, p)|
    {
      count := 0;
      for i := 0 to |tasks|
        invariant count == |Group(tasks[..i], p)|
      {
        GroupAppend(tasks[..i], [tasks[i]], p);
        assert tasks[..i + 1] == tasks[..i] + [tasks[i]] && [tasks[i]][1..] == [];
        if tasks[i].priority == p {
          count := count + 1;
        }
      }
      assert tasks[..|tasks|] == tasks;
    }
  }

  ghost predicate Dispatched(q: seq<Task>, q': seq<Task>, chosen: Task, slice: int) {
    && MostUrgent(q, chosen.priority)
    && var g := Group(q, chosen.priority);
    && g != [] && chosen == g[0]
    && Group(q', chosen.priority) == Rotated(g)
    && (forall r :: r != chosen.priority ==> Group(q', r) == Group(q, r))
    && slice == if |g| == 1 || chosen.remaining < QUANTUM then chosen.remaining else QUANTUM
  }

  // ---- Fairness ----

  /** A run of calls: the queue before each call, the queue the call leaves, and the task it chooses. Between
      calls tasks use their ticks, and come and go. */
  ghost predicate Calls(queues: seq<seq<Task>>, afters: seq<seq<Task>>, chosen: seq<Task>) {
    && |queues| == |chosen| + 1 && |afters| == |chosen|
    && forall k :: 0 <= k < |chosen| ==> Served(queues[k], afters[k], chosen[k])
  }

  ghost predicate Served(q: seq<Task>, q': seq<Task>, chosen: Task) {
    exists slice :: Dispatched(q, q', chosen, slice)
  }

  function Ids(s: seq<Task>): (r: seq<int>)
    ensures |r| == |s| && forall i :: 0 <= i < |s| ==> r[i] == s[i].id
  {
    seq(|s|, i requires 0 <= i < |s| => s[i].id)
  }

  /** Tasks of priority `p` neither come nor go between a call and the next, and no more urgent one comes. What
      is left of their work may change, and so may everything about less urgent tasks. */
  ghost predicate GroupStays(after: seq<Task>, next: seq<Task>, p: int) {
    Ids(Group(next, p)) == Ids(Group(after, p)) && forall r :: r < p ==> Group(next, r) == []
  }

  ghost predicate Steady(queues: seq<seq<Task>>, afters: seq<seq<Task>>, chosen: seq<Task>, p: int) {
    Calls(queues, afters, chosen) && forall k :: 0 <= k < |chosen| ==> GroupStays(afters[k], queues[k + 1], p)
  }

  /** Charging tasks for the ticks they have used changes no group but in what is left to do. */
  lemma {:induction false} ChargingKeepsGroups(after: seq<Task>, next: seq<Task>, p: int)
    requires |next| == |after|
    requires forall i :: 0 <= i < |after| ==> next[i].id == after[i].id && next[i].priority == after[i].priority
    ensures Ids(Group(next, p)) == Ids(Group(after, p))
    ensures Group(next, p) == [] <==> Group(after, p) == []
  {
    if after != [] {
      ChargingKeepsGroups(after[1..], next[1..], p);
    }
  }

  /** Round robin is fair: over any steady run, the tasks of the most urgent priority are chosen in turn,
      in queue order, and nobody else is. */
  lemma {:induction false} TakesTurns(queues: seq<seq<Task>>, afters: seq<seq<Task>>, chosen: seq<Task>, p: int, k: nat)
    requires Steady(queues, afters, chosen, p) && k < |chosen| && MostUrgent(queues[0], p)
    ensures var g := Group(queues[0], p); |g| > 0 && chosen[k].priority == p && chosen[k].id == g[k % |g|].id
    ensures MostUrgent(queues[k], p)
    ensures Ids(Group(queues[k], p)) == RotatedBy(Ids(Group(queues[0], p)), k)
    decreases k
  {
    hide Dispatched, MostUrgent, RotatedBy, Group, Ids;
    var g := Ids(Group(queues[0], p));
    if k == 0 {
      RotatedByNone(g);
    } else {
      TakesTurns(queues, afters, chosen, p, k - 1);
      CallThenCharge(queues[k - 1], afters[k - 1], chosen[k - 1], queues[k - 1 + 1], p);
      RotatedByOneMore(g, k - 1);
    }
    FirstIsChosen(queues[k], afters[k], chosen[k], p);
    RotatedFirst(g, k);
  }

  lemma FirstIsChosen(q: seq<Task>, q': seq<Task>, chosen: Task, p: int)
    requires Served(q, q', chosen) && MostUrgent(q, p)
    ensures chosen.priority == p && Ids(Group(q, p)) != [] && chosen.id == Ids(Group(q, p))[0]
    ensures Group(q', p) == Rotated(Group(q, p)) && Ids(Group(q', p)) == Rotated(Ids(Group(q, p)))
  {
    hide Dispatched, MostUrgent, Group;
    var slice :| Dispatched(q, q', chosen, slice);
    DispatchKeeps(q, q', chosen, slice, p);
  }

  lemma CallThenCharge(q: seq<Task>, after: seq<Task>, chosen: Task, next: seq<Task>, p: int)
    requires Served(q, after, chosen) && MostUrgent(q, p) && GroupStays(after, next, p)
    ensures Ids(Group(q, p)) != [] && Ids(Group(next, p)) == Rotated(Ids(Group(q, p))) && MostUrgent(next, p)
  {
    hide Dispatched, MostUrgent, Group;
    FirstIsChosen(q, after, chosen, p);
    GroupsUrgent(next, p);
  }

  // ---- Waiting, while tasks come and go ----

  /** Whoever is before `id`. */
  function AheadOf(s: seq<int>, id: int): set<int> {
    if s == [] || s[0] == id then {} else {s[0]} + AheadOf(s[1..], id)
  }

  ghost predicate Different(s: seq<int>) {
    forall i, j :: 0 <= i < j < |s| ==> s[i] != s[j]
  }

  /** Between a call and the next, others of priority `p` may come and go and no more urgent task comes; task
      `id` stays, and nobody gets ahead of it. */
  ghost predicate NobodyOvertakes(after: seq<Task>, next: seq<Task>, p: int, id: int) {
    var before, now := Ids(Group(after, p)), Ids(Group(next, p));
    && (forall r :: r < p ==> Group(next, r) == [])
    && Different(now) && id in now && AheadOf(now, id) <= AheadOf(before, id)
  }

  predicate NotYet(chosen: seq<Task>, j: nat, id: int)
    requires j < |chosen|
  {
    forall i :: 0 <= i <= j ==> chosen[i].id != id
  }

  lemma AheadShrinks(s: seq<int>, id: int)
    requires Different(s) && id in s && s[0] != id
    ensures |AheadOf(Rotated(s), id)| < |AheadOf(s, id)|
  {
    var rest := s[1..];
    assert s == [s[0]] + rest;
    AheadAppend(rest, [s[0]], id);
    AheadIn(rest, id);
    assert s[0] !in rest;
  }

  lemma {:induction false} AheadAppend(s: seq<int>, more: seq<int>, id: int)
    requires id in s
    ensures AheadOf(s + more, id) == AheadOf(s, id)
  {
    if s[0] != id {
      assert (s + more)[1..] == s[1..] + more;
      assert s == [s[0]] + s[1..];
      AheadAppend(s[1..], more, id);
    }
  }

  lemma {:induction false} AheadIn(s: seq<int>, id: int)
    ensures forall x :: x in AheadOf(s, id) ==> x in s
  {
    if s != [] && s[0] != id {
      AheadIn(s[1..], id);
    }
  }

  lemma SmallerSet(a: set<int>, b: set<int>)
    requires a <= b
    ensures |a| <= |b|
  {
    assert b == a + (b - a);
  }

  /** Until it is chosen, there are fewer tasks ahead of a task with every call. */
  lemma {:induction false} ComesCloser(queues: seq<seq<Task>>, afters: seq<seq<Task>>, chosen: seq<Task>, p: int, id: int, k: nat)
    requires Calls(queues, afters, chosen) && MostUrgent(queues[0], p) && k <= |chosen|
    requires Different(Ids(Group(queues[0], p))) && id in Ids(Group(queues[0], p))
    requires forall j :: 0 <= j < |chosen| && NotYet(chosen, j, id) ==> NobodyOvertakes(afters[j], queues[j + 1], p, id)
    requires forall j :: 0 <= j < k ==> chosen[j].id != id
    ensures MostUrgent(queues[k], p) && Different(Ids(Group(queues[k], p))) && id in Ids(Group(queues[k], p))
    ensures |AheadOf(Ids(Group(queues[k], p)), id)| + k <= |AheadOf(Ids(Group(queues[0], p)), id)|
    decreases k
  {
    hide MostUrgent, Group, Ids, AheadOf, Served, Different;
    if k > 0 {
      ComesCloser(queues, afters, chosen, p, id, k - 1);
      var q, after, next := queues[k - 1], afters[k - 1], queues[k - 1 + 1];
      FirstIsChosen(q, after, chosen[k - 1], p);
      AheadShrinks(Ids(Group(q, p)), id);
      assert NotYet(chosen, k - 1, id);
      assert NobodyOvertakes(after, next, p, id);
      SmallerSet(AheadOf(Ids(Group(next, p)), id), AheadOf(Ids(Group(after, p)), id));
      NotEmptyIds(next, p, id);
      GroupsUrgent(next, p);
    }
  }

  lemma NotEmptyIds(q: seq<Task>, p: int, id: int)
    requires id in Ids(Group(q, p))
    ensures Group(q, p) != []
  {
  }

  /** Nobody waits for ever, and nobody longer than his place in the queue: with `n` tasks of its priority ahead
      of it, a most urgent task is one of the next `n + 1` to be chosen, whoever comes behind it or goes meanwhile. */
  lemma WaitsItsTurn(queues: seq<seq<Task>>, afters: seq<seq<Task>>, chosen: seq<Task>, p: int, id: int) returns (k: nat)
    requires Calls(queues, afters, chosen) && MostUrgent(queues[0], p)
    requires Different(Ids(Group(queues[0], p))) && id in Ids(Group(queues[0], p))
    requires forall j :: 0 <= j < |chosen| && NotYet(chosen, j, id) ==> NobodyOvertakes(afters[j], queues[j + 1], p, id)
    requires |AheadOf(Ids(Group(queues[0], p)), id)| < |chosen|
    ensures k <= |AheadOf(Ids(Group(queues[0], p)), id)| && chosen[k].id == id && chosen[k].priority == p
  {
    hide MostUrgent, Group, Ids, Served, Different, NobodyOvertakes;
    k := 0;
    while chosen[k].id != id
      invariant k <= |AheadOf(Ids(Group(queues[0], p)), id)| && forall j :: 0 <= j < k ==> chosen[j].id != id
      decreases |chosen| - k
    {
      ComesCloser(queues, afters, chosen, p, id, k + 1);
      k := k + 1;
    }
    ComesCloser(queues, afters, chosen, p, id, k);
    FirstIsChosen(queues[k], afters[k], chosen[k], p);
  }

  function RotatedBy<T>(s: seq<T>, k: nat): seq<T> {
    if s == [] then [] else s[k % |s|..] + s[..k % |s|]
  }

  lemma RotatedByNone<T>(s: seq<T>)
    ensures RotatedBy(s, 0) == s
  {
  }

  lemma RotatedFirst<T>(s: seq<T>, k: nat)
    ensures |RotatedBy(s, k)| == |s| && (s != [] ==> RotatedBy(s, k)[0] == s[k % |s|])
  {
  }

  lemma RotatedByOneMore<T>(s: seq<T>, k: nat)
    requires s != []
    ensures RotatedBy(s, k) != [] && RotatedBy(s, k + 1) == Rotated(RotatedBy(s, k))
  {
    NextMod(k, |s|);
    RotatedAt(s, k % |s|);
  }

  lemma RotatedAt<T>(s: seq<T>, m: nat)
    requires m < |s|
    ensures Rotated(s[m..] + s[..m]) == if m + 1 < |s| then s[m + 1..] + s[..m + 1] else s
  {
    assert s[m..] + s[..m] == [s[m]] + s[m + 1..] + s[..m];
    assert s[..m] + [s[m]] == s[..m + 1];
  }

  lemma NextMod(k: nat, n: nat)
    requires n > 0
    ensures (k + 1) % n == if k % n + 1 < n then k % n + 1 else 0
  {
    var q, r := k / n, k % n;
    assert k == q * n + r;
    if r + 1 < n {
      ModOf(q, n, r + 1);
    } else {
      assert k + 1 == (q + 1) * n + 0;
      ModOf(q + 1, n, 0);
    }
  }

  lemma ModOf(q: nat, n: nat, r: nat)
    requires r < n
    ensures (q * n + r) % n == r
  {
    var x := q * n + r;
    SameRemainder(q, r, x / n, x % n, n);
  }

  lemma SameRemainder(q1: int, r1: int, q2: int, r2: int, n: int)
    requires 0 <= r1 < n && 0 <= r2 < n && q1 * n + r1 == q2 * n + r2
    ensures r1 == r2
  {
    if q1 < q2 {
      AtLeastOnce(q2 - q1, n);
    } else if q2 < q1 {
      AtLeastOnce(q1 - q2, n);
    }
  }

  lemma AtLeastOnce(k: int, n: int)
    requires k >= 1 && n > 0
    ensures k * n >= n
  {
  }

  lemma {:induction false} GroupHas(q: seq<Task>, p: int)
    ensures Group(q, p) != [] <==> exists i :: 0 <= i < |q| && q[i].priority == p
  {
    if q != [] {
      GroupHas(q[1..], p);
      if i :| 0 <= i < |q| && q[i].priority == p {
        assert i > 0 ==> q[1..][i - 1].priority == p;
      }
      if j :| 0 <= j < |q[1..]| && q[1..][j].priority == p {
        assert q[j + 1].priority == p;
      }
    }
  }

  lemma UrgentGroups(q: seq<Task>, p: int)
    requires MostUrgent(q, p)
    ensures Group(q, p) != [] && forall r :: r < p ==> Group(q, r) == []
  {
    GroupHas(q, p);
    forall r | r < p ensures Group(q, r) == [] {
      NoneInGroup(q, r);
    }
  }

  lemma GroupsUrgent(q: seq<Task>, p: int)
    requires Group(q, p) != [] && forall r :: r < p ==> Group(q, r) == []
    ensures MostUrgent(q, p)
  {
    hide Group;
    GroupHas(q, p);
    forall i | 0 <= i < |q| ensures p <= q[i].priority {
      GroupHas(q, q[i].priority);
    }
  }

  lemma OneMostUrgent(q: seq<Task>, p: int, r: int)
    requires MostUrgent(q, p) && MostUrgent(q, r)
    ensures p == r
  {
  }

  lemma DispatchKeeps(q: seq<Task>, q': seq<Task>, chosen: Task, slice: int, p: int)
    requires Dispatched(q, q', chosen, slice) && MostUrgent(q, p)
    ensures chosen.priority == p && Group(q, p) != [] && chosen == Group(q, p)[0]
    ensures Group(q', p) == Rotated(Group(q, p)) && MostUrgent(q', p)
  {
    hide Group, MostUrgent;
    OneMostUrgent(q, p, chosen.priority);
    UrgentGroups(q, p);
    GroupsUrgent(q', p);
  }
}
