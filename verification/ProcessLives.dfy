/** The states a process goes through, who its parent is, and which slots fork has reserved. */
module ProcessLives {
  import opened ProcessSteps

  /** Run state and program counter agree. */
  predicate StateFits(st: RunState, pc: Pc) {
    match pc
    case Fresh => st == UNUSED || st == USED
    case Gone | ExitRel | ExitSched => st == ZOMBIE
    case SleepSched(_) => st == SLEEPING
    case Asleep(_) => st == SLEEPING || st == RUNNABLE
    case YieldSched(_) | Parked(_) => st == RUNNABLE
    case _ => st == RUNNING
  }

  /** A sleeper sleeps on itself if it is in wait. */
  predicate ChanFits(p: Proc, x: nat) {
    p.state == SLEEPING ==>
      match p.pc
      case SleepSched(w) => p.chan == if w then x else OTHER_CHAN
      case Asleep(w) => p.chan == if w then x else OTHER_CHAN
      case _ => false
  }

  /** The process at `pc` may have `c` as a child. */
  predicate MayHaveKid(pc: Pc, c: nat) {
    match pc
    case Fresh | ExitTell(_, _) | ExitLock | ExitMark | ExitRel | ExitSched | Gone => false
    case ExitScan(i) => i <= c
    case ExitWake(i, _, _) => i < c
    case _ => true
  }

  /** The slot that fork has reserved and not yet made runnable. */
  function Reserved(pc: Pc): int {
    match pc
    case ForkMake(i) => i
    case ForkAcq(i) => i
    case ForkParent(i) => i
    case ForkLock(i) => i
    case ForkRun(i) => i
    case YieldAcq(b) => Reserved(b)
    case YieldMark(b) => Reserved(b)
    case YieldSched(b) => Reserved(b)
    case Parked(b) => Reserved(b)
    case Resumed(b) => Reserved(b)
    case _ => NOBODY
  }

  /** Fork has set the parent of the slot it has reserved. */
  predicate Linked(pc: Pc) {
    match pc
    case ForkLock(i) => true
    case ForkRun(i) => true
    case YieldAcq(b) => Linked(b)
    case YieldMark(b) => Linked(b)
    case YieldSched(b) => Linked(b)
    case Parked(b) => Linked(b)
    case Resumed(b) => Linked(b)
    case _ => false
  }

  /** The thread is in exit. */
  predicate Exiting(pc: Pc) {
    match pc
    case ExitAcq | ExitScan(_) | ExitWake(_, _, _) | ExitTell(_, _) | ExitLock | ExitMark | ExitRel | ExitSched | Gone => true
    case YieldAcq(b) => Exiting(b)
    case YieldMark(b) => Exiting(b)
    case YieldSched(b) => Exiting(b)
    case Parked(b) => Exiting(b)
    case Resumed(b) => Exiting(b)
    case _ => false
  }

  /** What a record says of itself. */
  predicate RecordOk(p: Proc, x: nat, init: nat, n: nat) {
    && StateFits(p.state, p.pc) && ChanFits(p, x)
    && NOBODY <= p.parent < n && p.parent != x
    && (x == init ==> p.parent == NOBODY && p.pc != Fresh && !Exiting(p.pc))
    && (x != init && p.pc != Fresh ==> p.parent != NOBODY)
    && (p.state == UNUSED ==> p.parent == NOBODY)
    && p.counts.exits == p.counts.frees + (if p.state == ZOMBIE then 1 else 0)
  }

  ghost predicate LifeOf(s: State, x: nat)
    requires x < |s.procs|
  {
    var p := s.procs[x];
    && RecordOk(p, x, s.init, |s.procs|)
    && (p.parent != NOBODY ==> MayHaveKid(s.procs[p.parent].pc, x))
    && (Reserved(p.pc) != NOBODY ==> ReservedBy(s, x, Reserved(p.pc)))
  }

  predicate ReservedBy(s: State, x: nat, i: int)
    requires x < |s.procs|
  {
    && 0 <= i < |s.procs| && s.procs[i].state == USED
    && s.procs[i].parent == if Linked(s.procs[x].pc) then x else NOBODY
  }

  ghost predicate LifeInv(s: State) {
    && s.init < |s.procs|
    && (forall x :: 0 <= x < |s.procs| ==> LifeOf(s, x))
    && forall x, y :: 0 <= x < |s.procs| && 0 <= y < |s.procs| && Reserved(s.procs[x].pc) == Reserved(s.procs[y].pc) != NOBODY ==> x == y
  }

  lemma LifeInvAt(s: State, x: nat)
    requires LifeInv(s) && x < |s.procs|
    ensures LifeOf(s, x) && RecordOk(s.procs[x], x, s.init, |s.procs|)
  {
  }

  /** A step that leaves families alone. */
  predicate SameFamily(s: State, p: Proc, p': Proc, x: nat) {
    && RecordOk(p', x, s.init, |s.procs|) && p'.parent == p.parent
    && Reserved(p'.pc) == Reserved(p.pc) && Linked(p'.pc) == Linked(p.pc)
    && (p.state == USED ==> p'.state == USED)
  }

  lemma LifeInvSame(s: State, s': State)
    requires LifeInv(s) && |s'.procs| == |s.procs| && s'.init == s.init
    requires forall x :: 0 <= x < |s.procs| ==> SameFamily(s, s.procs[x], s'.procs[x], x)
    requires forall x, c :: 0 <= x < |s.procs| && 0 <= c < |s.procs| && s.procs[c].parent == x && MayHaveKid(s.procs[x].pc, c) ==>
                              MayHaveKid(s'.procs[x].pc, c)
    ensures LifeInv(s')
  {
    hide RecordOk, MayHaveKid, Reserved, Linked;
    forall x | 0 <= x < |s.procs| ensures LifeOf(s', x) {
      assert LifeOf(s, x) && SameFamily(s, s.procs[x], s'.procs[x], x);
      LifeParent(s, x);
      assert Reserved(s.procs[x].pc) != NOBODY ==> ReservedBy(s, x, Reserved(s.procs[x].pc));
    }
    assert forall x :: 0 <= x < |s.procs| ==> SameFamily(s, s.procs[x], s'.procs[x], x);
  }

  lemma LifeParent(s: State, x: nat)
    requires LifeInv(s) && x < |s.procs|
    ensures NOBODY <= s.procs[x].parent < |s.procs|
  {
    LifeInvAt(s, x);
  }
}
