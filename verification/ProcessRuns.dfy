/** Every step keeps the invariants; what follows for whole runs. */
module ProcessRuns {
  import opened ProcessSteps
  import opened ProcessLocks
  import opened ProcessLives
  import opened ProcessWakeups
  import ProcessFamilies
  import opened ProcessExitWait

  // ---- sleep and yield ----

  predicate AtSleep(pc: Pc) {
    match pc
    case SleepRel(_) | SleepMark(_) | SleepSched(_) | Woken(_) | YieldMark(_) | YieldSched(_) | Resumed(_) => true
    case _ => false
  }

  lemma SleepLocks(s: State, q: nat)
    requires LockInv(s) && q < |s.procs| && AtSleep(s.procs[q].pc)
    ensures LockInv(SleepStep(s, q))
  {
    hide LockInv;
    LockInvAt(s, q);
    var p := s.procs[q];
    match p.pc
    case SleepRel(w) =>
      if w {
        LockInvWait(s, q, SleepMark(w), false);
      } else {
        GotoLocks(s, q, SleepMark(w));
      }
    case SleepMark(w) => OwnRecordLocks(s, q, SleepStep(s, q).procs[q]);
    case SleepSched(w) => LockInvSwitch(s, q, Asleep(w));
    case Woken(w) => LockInvDrop(s, q, q, p.(chan := NO_CHAN), if w then WaitAcq else User);
    case YieldMark(b) => OwnRecordLocks(s, q, SleepStep(s, q).procs[q]);
    case YieldSched(b) => LockInvSwitch(s, q, Parked(b));
    case Resumed(b) =>
      BackHoldsNothing(b, q);
      LockInvDrop(s, q, q, p, b);
  }

  lemma BackHoldsNothing(b: Pc, q: nat)
    requires Preemptible(b)
    ensures HoldsLock(b, q) == NOBODY && !HoldsWaitLock(b) && !OffCpu(b) && StateFits(RUNNING, b) && !b.ExitWake?
    ensures forall c :: MayHaveKid(b, c)
    ensures forall p: Proc :: !InWaitSleep(p.(pc := b))
  {
  }

  lemma OwnRecordLocks(s: State, q: nat, p: Proc)
    requires LockInv(s) && q < |s.procs| && SameLocks(s.procs[q], p, q, |s.procs|)
    ensures LockInv(Put(s, q, p))
  {
    hide LockInv;
    var s' := Put(s, q, p);
    forall x | 0 <= x < |s.procs| ensures SameLocks(s.procs[x], s'.procs[x], x, |s.procs|) {
      LockInvAt(s, x);
    }
    LockInvSame(s, s');
  }

  lemma SleepKeeps(s: State, q: nat)
    requires Inv(s) && q < |s.procs| && AtSleep(s.procs[q].pc)
    ensures LifeInv(SleepStep(s, q)) && WakeInv(SleepStep(s, q))
  {
    hide LockInv, LifeInv, WakeInv, SleepStep;
    match s.procs[q].pc
    case SleepRel(w) => SleepReleases(s, q, w);
    case SleepMark(w) => SleepMarks(s, q, w);
    case SleepSched(w) => SleepSwitches(s, q, Asleep(w));
    case Woken(w) => SleepEnds(s, q, w);
    case YieldMark(b) => YieldMarks(s, q, b);
    case YieldSched(b) => SleepSwitches(s, q, Parked(b));
    case Resumed(b) => YieldEnds(s, q, b);
  }

  lemma SleepMarks(s: State, q: nat, w: bool)
    requires LifeInv(s) && WakeInv(s) && q < |s.procs| && s.procs[q].pc == SleepMark(w)
    ensures LifeInv(SleepStep(s, q)) && WakeInv(SleepStep(s, q))
  {
    hide LifeInv, WakeInv;
    LifeInvAt(s, q);
    OwnRecord(s, q, s.procs[q].(chan := if w then q else OTHER_CHAN, state := SLEEPING, pc := SleepSched(w)));
  }

  lemma YieldMarks(s: State, q: nat, b: Pc)
    requires LifeInv(s) && WakeInv(s) && q < |s.procs| && s.procs[q].pc == YieldMark(b)
    ensures LifeInv(SleepStep(s, q)) && WakeInv(SleepStep(s, q))
  {
    hide LifeInv, WakeInv;
    LifeInvAt(s, q);
    OwnRecord(s, q, s.procs[q].(state := RUNNABLE, pc := YieldSched(b)));
  }

  lemma SleepSwitches(s: State, q: nat, pc: Pc)
    requires LifeInv(s) && WakeInv(s) && q < |s.procs|
    requires (pc.Asleep? && s.procs[q].pc == SleepSched(pc.inWait)) || (pc.Parked? && s.procs[q].pc == YieldSched(pc.back))
    ensures LifeInv(SleepStep(s, q)) && WakeInv(SleepStep(s, q))
  {
    hide LifeInv, WakeInv;
    SetLockKeeps(s, q, Sched);
    var s1 := SetLock(s, q, Sched);
    LifeInvAt(s1, q);
    OwnRecord(s1, q, s1.procs[q].(pc := pc));
  }

  lemma SleepEnds(s: State, q: nat, w: bool)
    requires LifeInv(s) && WakeInv(s) && q < |s.procs| && s.procs[q].pc == Woken(w)
    ensures LifeInv(SleepStep(s, q)) && WakeInv(SleepStep(s, q))
  {
    hide LifeInv, WakeInv;
    LifeInvAt(s, q);
    var p := s.procs[q].(chan := NO_CHAN, lk := Free, pc := if w then WaitAcq else User);
    OwnRecord(s, q, p);
    assert SleepStep(s, q) == Put(s, q, p);
  }

  lemma YieldEnds(s: State, q: nat, b: Pc)
    requires Inv(s) && q < |s.procs| && s.procs[q].pc == Resumed(b)
    ensures LifeInv(SleepStep(s, q)) && WakeInv(SleepStep(s, q))
  {
    hide LockInv, LifeInv, WakeInv;
    LifeInvAt(s, q);
    LockInvAt(s, q);
    DropPlain(s, q, q, s.procs[q], b);
  }

  /** A thread gives back a process lock and goes to a place where it can be preempted. */
  lemma DropPlain(s: State, q: nat, i: nat, p: Proc, b: Pc)
    requires Inv(s) && q < |s.procs| && i < |s.procs| && HoldsLock(s.procs[q].pc, q) == i && s.procs[q].state == RUNNING
    requires p == KillOne(s.procs[i]) || p == s.procs[i]
    requires Preemptible(b) && (Exiting(b) ==> q != s.init) && !s.procs[q].pc.ExitWake? && s.procs[q].pc != Fresh
    requires Reserved(b) == Reserved(s.procs[q].pc) && Linked(b) == Linked(s.procs[q].pc)
    ensures LifeInv(DropLock(s, q, i, p, b)) && WakeInv(DropLock(s, q, i, p, b))
  {
    hide LockInv, LifeInv, WakeInv, HoldsLock, HoldsWaitLock, InWaitSleep, StateFits, Exiting, Reserved, Linked, MayHaveKid;
    RouseThen(s, q, i, p, 0);
    BackHoldsNothing(b, q);
    var s1 := Put(s, i, p.(lk := Free));
    LifeInvAt(s1, q);
    PreemptiblePlace(b);
    OwnRecord(s1, q, s1.procs[q].(pc := b));
  }

  lemma PreemptiblePlace(b: Pc)
    requires Preemptible(b)
    ensures b != Fresh
  {
  }

  /** A thread that is neither in exit nor scanning in wait changes its own record. */
  lemma OwnRecord(s: State, q: nat, p: Proc)
    requires LifeInv(s) && WakeInv(s) && q < |s.procs| && RecordOk(p, q, s.init, |s.procs|)
    requires p.parent == s.procs[q].parent && p.state != ZOMBIE && s.procs[q].state != ZOMBIE && s.procs[q].state != USED
    requires Reserved(p.pc) == Reserved(s.procs[q].pc) && Linked(p.pc) == Linked(s.procs[q].pc)
    requires InWaitSleep(p) ==> InWaitSleep(s.procs[q])
    requires !HoldsWaitLock(p.pc) && !s.procs[q].pc.ExitWake?
    requires forall c: nat :: MayHaveKid(p.pc, c)
    ensures LifeInv(Put(s, q, p)) && WakeInv(Put(s, q, p))
  {
    hide LifeInv, WakeInv, InWaitSleep, RecordOk, Reserved, Linked, MayHaveKid, HoldsWaitLock, Promises;
    NoPromises(Put(s, q, p), q);
    PutKeeps(s, q, p);
  }

  lemma SleepReleases(s: State, q: nat, w: bool)
    requires Inv(s) && q < |s.procs| && s.procs[q].pc == SleepRel(w)
    ensures LifeInv(SleepStep(s, q)) && WakeInv(SleepStep(s, q))
  {
    hide LockInv, LifeInv, WakeInv;
    LifeInvAt(s, q);
    LockInvAt(s, q);
    if w {
      WaitLockKeeps(s, Free);
      OwnRecord(s.(wl := Free), q, s.procs[q].(pc := SleepMark(w)));
    } else {
      OwnRecord(s, q, s.procs[q].(pc := SleepMark(w)));
    }
  }

  // ---- kill ----

  lemma KillLocks(s: State, q: nat, c: Choice)
    requires LockInv(s) && q < |s.procs| && (s.procs[q].pc.KillAcq? || s.procs[q].pc.KillDo?)
    ensures LockInv(KillStep(s, q, c))
  {
    hide LockInv;
    LockInvAt(s, q);
    match s.procs[q].pc
    case KillAcq(i) => GotoLocks(s, q, User);
    case KillDo(i) =>
      LockInvAt(s, i);
      LockInvDrop(s, q, i, if c == Yes then KillOne(s.procs[i]) else s.procs[i], if c == Yes then User else KillAcq(i + 1));
  }

  lemma KillKeeps(s: State, q: nat, c: Choice)
    requires Inv(s) && q < |s.procs| && (s.procs[q].pc.KillAcq? || s.procs[q].pc.KillDo?)
    ensures LifeInv(KillStep(s, q, c)) && WakeInv(KillStep(s, q, c))
  {
    hide LockInv, LifeInv, WakeInv;
    LockInvAt(s, q);
    LifeInvAt(s, q);
    match s.procs[q].pc
    case KillAcq(i) => OwnRecord(s, q, s.procs[q].(pc := User));
    case KillDo(i) => KillDoes(s, q, i, c);
  }

  lemma KillDoes(s: State, q: nat, i: nat, c: Choice)
    requires Inv(s) && q < |s.procs| && s.procs[q].pc == KillDo(i) && i < |s.procs|
    ensures LifeInv(KillStep(s, q, c)) && WakeInv(KillStep(s, q, c))
  {
    hide LockInv, LifeInv, WakeInv;
    LifeInvAt(s, q);
    DropPlain(s, q, i, if c == Yes then KillOne(s.procs[i]) else s.procs[i], if c == Yes then User else KillAcq(i + 1));
  }

  // ---- fork ----

  predicate AtFork(pc: Pc) {
    match pc
    case ForkScan(_) | ForkCheck(_) | ForkMake(_) | ForkAcq(_) | ForkParent(_) | ForkRun(_) => true
    case _ => false
  }

  lemma ForkLocks(s: State, q: nat, c: Choice)
    requires Inv(s) && q < |s.procs| && AtFork(s.procs[q].pc) && (s.procs[q].pc.ForkAcq? ==> s.wl == Free)
    ensures LockInv(ForkStep(s, q, c))
  {
    hide LockInv, LifeInv, WakeInv;
    LockInvAt(s, q);
    match s.procs[q].pc
    case ForkScan(i) => GotoLocks(s, q, User);
    case ForkAcq(i) => LockInvWait(s, q, ForkParent(i), true);
    case ForkCheck(i) => CheckedLocks(s, q, i, c);
    case ForkMake(i) => MadeLocks(s, q, i, c);
    case ForkParent(i) => LinkedLocks(s, q, i, c);
    case ForkRun(i) => StartedLocks(s, q, i, c);
  }

  lemma CheckedLocks(s: State, q: nat, i: nat, c: Choice)
    requires Inv(s) && q < |s.procs| && s.procs[q].pc == ForkCheck(i) && i < |s.procs|
    ensures LockInv(ForkStep(s, q, c))
  {
    hide LockInv, LifeInv, WakeInv;
    LockInvAt(s, i);
    LifeInvAt(s, i);
    NotMine(s, q, i);
    if s.procs[i].state == UNUSED {
      UnusedTaken(s, q, i);
    } else {
      LockInvDrop(s, q, i, s.procs[i], ForkScan(i + 1));
    }
  }

  lemma NotMine(s: State, q: nat, i: nat)
    requires LifeInv(s) && q < |s.procs| && s.procs[q].pc.ForkCheck? && i < |s.procs|
    ensures s.procs[i].state == UNUSED ==> i != q
  {
    LifeInvAt(s, q);
  }

  lemma UnusedTaken(s: State, q: nat, i: nat)
    requires LockInv(s) && q < |s.procs| && s.procs[q].pc == ForkCheck(i) && i < |s.procs| && i != q
    ensures LockInv(Goto(Put(s, i, s.procs[i].(state := USED)), q, ForkMake(i)))
  {
    hide LockInv;
    LockInvAt(s, q);
    LockInvAt(s, i);
    OwnRecordLocks(s, i, s.procs[i].(state := USED));
    GotoLocks(Put(s, i, s.procs[i].(state := USED)), q, ForkMake(i));
  }

  lemma ReservedIsFresh(s: State, q: nat, i: nat)
    requires LifeInv(s) && q < |s.procs| && Reserved(s.procs[q].pc) == i && !OffCpu(s.procs[q].pc) && i < |s.procs|
    ensures i != q && s.procs[i].pc == Fresh && s.procs[i].state == USED
  {
    LifeInvAt(s, q);
    LifeInvAt(s, i);
  }

  lemma MadeLocks(s: State, q: nat, i: nat, c: Choice)
    requires Inv(s) && q < |s.procs| && s.procs[q].pc == ForkMake(i) && i < |s.procs|
    ensures LockInv(ForkStep(s, q, c))
  {
    hide LockInv, LifeInv, WakeInv;
    ReservedIsFresh(s, q, i);
    LockInvAt(s, i);
    if c == No {
      LockInvDrop(s, q, i, Freed(s.procs[i]), User);
    } else {
      LockInvDrop(s, q, i, s.procs[i], ForkAcq(i));
    }
  }

  lemma LinkedLocks(s: State, q: nat, i: nat, c: Choice)
    requires Inv(s) && q < |s.procs| && s.procs[q].pc == ForkParent(i) && i < |s.procs|
    ensures LockInv(ForkStep(s, q, c))
  {
    hide LockInv, LifeInv, WakeInv;
    ReservedIsFresh(s, q, i);
    LockInvAt(s, i);
    LockInvAt(s, q);
    OwnRecordLocks(s, i, s.procs[i].(parent := q));
    LockInvWait(Put(s, i, s.procs[i].(parent := q)), q, ForkLock(i), false);
  }

  lemma StartedLocks(s: State, q: nat, i: nat, c: Choice)
    requires Inv(s) && q < |s.procs| && s.procs[q].pc == ForkRun(i) && i < |s.procs|
    ensures LockInv(ForkStep(s, q, c))
  {
    hide LockInv, LifeInv, WakeInv;
    ReservedIsFresh(s, q, i);
    LockInvAt(s, i);
    LockInvDrop(s, q, i, s.procs[i].(state := RUNNABLE, pc := Parked(User)), User);
  }

  lemma ForkKeeps(s: State, q: nat, c: Choice)
    requires Inv(s) && q < |s.procs| && AtFork(s.procs[q].pc) && (s.procs[q].pc.ForkAcq? ==> s.wl == Free)
    ensures LifeInv(ForkStep(s, q, c)) && WakeInv(ForkStep(s, q, c))
  {
    hide LockInv, LifeInv, WakeInv;
    LockInvAt(s, q);
    LifeInvAt(s, q);
    match s.procs[q].pc
    case ForkScan(i) => OwnRecord(s, q, s.procs[q].(pc := User));
    case ForkAcq(i) =>
      WaitLockKeeps(s, By(q));
      ForkAcqKeeps(s.(wl := By(q)), q, i);
    case ForkCheck(i) => CheckedKeeps(s, q, i, c);
    case ForkMake(i) => MadeKeeps(s, q, i, c);
    case ForkParent(i) => ProcessFamilies.LinkKeeps(s, q, i);
    case ForkRun(i) => StartedKeeps(s, q, i, c);
  }

  lemma ForkAcqKeeps(s: State, q: nat, i: nat)
    requires LifeInv(s) && WakeInv(s) && q < |s.procs| && s.procs[q].pc == ForkAcq(i)
    ensures LifeInv(Goto(s, q, ForkParent(i))) && WakeInv(Goto(s, q, ForkParent(i)))
  {
    hide LifeInv, WakeInv;
    LifeInvAt(s, q);
    GotoKeeps(s, q, ForkParent(i));
  }

  lemma CheckedKeeps(s: State, q: nat, i: nat, c: Choice)
    requires Inv(s) && q < |s.procs| && s.procs[q].pc == ForkCheck(i) && i < |s.procs|
    ensures LifeInv(ForkStep(s, q, c)) && WakeInv(ForkStep(s, q, c))
  {
    hide LockInv, LifeInv, WakeInv;
    if s.procs[i].state == UNUSED {
      ProcessFamilies.ReserveKeeps(s, q, i);
    } else {
      LifeInvAt(s, q);
      DropPlain(s, q, i, s.procs[i], ForkScan(i + 1));
    }
  }

  lemma MadeKeeps(s: State, q: nat, i: nat, c: Choice)
    requires Inv(s) && q < |s.procs| && s.procs[q].pc == ForkMake(i) && i < |s.procs|
    ensures LifeInv(ForkStep(s, q, c)) && WakeInv(ForkStep(s, q, c))
  {
    hide LockInv, LifeInv, WakeInv;
    ReservedIsFresh(s, q, i);
    if c == No {
      ProcessFamilies.UnmakeKeeps(s, q, i);
      SetLockKeeps(Put(Goto(s, q, User), i, Freed(s.procs[i])), i, Free);
      assert SetLock(Put(Goto(s, q, User), i, Freed(s.procs[i])), i, Free) == ForkStep(s, q, c);
    } else {
      LifeInvAt(s, q);
      DropPlain(s, q, i, s.procs[i], ForkAcq(i));
    }
  }

  lemma StartedKeeps(s: State, q: nat, i: nat, c: Choice)
    requires Inv(s) && q < |s.procs| && s.procs[q].pc == ForkRun(i) && i < |s.procs|
    ensures LifeInv(ForkStep(s, q, c)) && WakeInv(ForkStep(s, q, c))
  {
    hide LockInv, LifeInv, WakeInv;
    ProcessFamilies.StartKeeps(s, q, i);
    var s1 := Put(Goto(s, q, User), i, s.procs[i].(state := RUNNABLE, pc := Parked(User)));
    SetLockKeeps(s1, i, Free);
    assert SetLock(s1, i, Free) == ForkStep(s, q, c);
  }

  // ---- The scheduler and the timer ----

  lemma DispatchKeeps(s: State, p: nat)
    requires Inv(s) && CanDispatch(s, p)
    ensures Inv(Dispatch(s, p))
  {
    hide LockInv, LifeInv, WakeInv, Dispatch;
    LifeInvAt(s, p);
    LockInvAt(s, p);
    DispatchLocks(s, p);
    DispatchLives(s, p);
  }

  lemma DispatchLives(s: State, p: nat)
    requires LifeInv(s) && WakeInv(s) && CanDispatch(s, p) && (s.procs[p].pc.Asleep? || s.procs[p].pc.Parked?)
    ensures LifeInv(Dispatch(s, p)) && WakeInv(Dispatch(s, p))
  {
    hide LifeInv, WakeInv;
    LifeInvAt(s, p);
    OwnRecord(s, p, Dispatch(s, p).procs[p]);
  }

  lemma DispatchLocks(s: State, p: nat)
    requires LockInv(s) && CanDispatch(s, p) && (s.procs[p].pc.Asleep? || s.procs[p].pc.Parked?)
    ensures LockInv(Dispatch(s, p))
  {
    var s' := Dispatch(s, p);
    LockInvAt(s, p);
    forall x | 0 <= x < |s.procs| ensures LocksOf(s', x) {
      LockInvAt(s, x);
    }
  }

  lemma ReleaseKeeps(s: State, p: nat)
    requires Inv(s) && CanRelease(s, p)
    ensures Inv(SchedRelease(s, p))
  {
    hide LifeInv, WakeInv, InWaitSleep;
    SetLockKeeps(s, p, Free);
    var s' := SchedRelease(s, p);
    LockInvAt(s, p);
    forall x | 0 <= x < |s.procs| ensures LocksOf(s', x) {
      LockInvAt(s, x);
    }
  }

  lemma RouseKeeps(s: State, p: nat)
    requires Inv(s) && CanRouse(s, p)
    ensures Inv(Rouse(s, p))
  {
    hide LockInv, LifeInv, WakeInv, Rouse;
    LifeInvAt(s, p);
    LockInvAt(s, p);
    RouseLocks(s, p);
    RouseLives(s, p);
  }

  lemma RouseLives(s: State, p: nat)
    requires LifeInv(s) && WakeInv(s) && CanRouse(s, p) && LocksOf(s, p)
    ensures LifeInv(Rouse(s, p)) && WakeInv(Rouse(s, p))
  {
    hide LifeInv, WakeInv;
    LifeInvAt(s, p);
    assert s.procs[p].pc == Asleep(false);
    OwnRecord(s, p, s.procs[p].(state := RUNNABLE));
  }

  lemma RouseLocks(s: State, p: nat)
    requires LockInv(s) && CanRouse(s, p)
    ensures LockInv(Rouse(s, p))
  {
    hide HoldsLock, HoldsWaitLock, WellPlaced, OffCpu;
    forall x | 0 <= x < |s.procs| ensures WellPlaced(s.procs[x].pc, x, |s.procs|) {
      LockInvAt(s, x);
    }
    LockInvSame(s, Rouse(s, p));
  }

  lemma PreemptKeeps(s: State, q: nat)
    requires Inv(s) && CanPreempt(s, q)
    ensures Inv(Preempt(s, q))
  {
    hide LockInv, LifeInv, WakeInv;
    var b := s.procs[q].pc;
    BackHoldsNothing(b, q);
    LifeInvAt(s, q);
    LockInvAt(s, q);
    GotoLocks(s, q, YieldAcq(b));
    OwnRecord(s, q, s.procs[q].(pc := YieldAcq(b)));
  }

  lemma CallKeeps(s: State, q: nat, c: Choice)
    requires Inv(s) && q < |s.procs| && s.procs[q].pc == User && !(c == Exit && q == s.init)
    ensures Inv(Goto(s, q, StartCall(c)))
  {
    hide LockInv, LifeInv, WakeInv;
    LifeInvAt(s, q);
    LockInvAt(s, q);
    GotoLocks(s, q, StartCall(c));
    OwnRecord(s, q, s.procs[q].(pc := StartCall(c)));
  }

  // ---- All steps ----

  lemma ThreadKeeps(s: State, q: nat, c: Choice)
    requires Inv(s) && Enabled(s, q)
    ensures Inv(ThreadStep(s, q, c))
  {
    hide LockInv, LifeInv, WakeInv, ExitStep, WaitStep, SleepStep, KillStep, ForkStep, Goto, TakeLock, HoldsLock, HoldsWaitLock;
    InitInTable(s);
    if Wants(s, q) != NOBODY {
      TakeLocks(s, q);
      TakeKeeps(s, q);
    } else {
      match s.procs[q].pc
      case User =>
        if !(c == Exit && q == s.init) {
          CallKeeps(s, q, c);
        }
      case ExitAcq | ExitScan(_) | ExitWake(_, _, _) | ExitTell(_, _) | ExitMark | ExitRel | ExitSched =>
        ExitLocks(s, q);
        ExitKeeps(s, q);
      case WaitAcq | WaitScan(_, _) | WaitCheck(_) | WaitAsked | WaitRel =>
        WaitLocks(s, q, c);
        WaitKeeps(s, q, c);
      case SleepRel(_) | SleepMark(_) | SleepSched(_) | Woken(_) | YieldMark(_) | YieldSched(_) | Resumed(_) =>
        SleepLocks(s, q);
        SleepKeeps(s, q);
      case KillAcq(_) | KillDo(_) =>
        KillLocks(s, q, c);
        KillKeeps(s, q, c);
      case _ =>
        ForkLocks(s, q, c);
        ForkKeeps(s, q, c);
    }
  }

  lemma InitInTable(s: State)
    requires LifeInv(s)
    ensures s.init < |s.procs|
  {
  }

  /** The state after boot: the process init is ready to run, all other slots are unused. */
  function Boot(n: nat, init: nat): State
    requires init < n
  {
    State(seq(n, x => if x == init then Proc(RUNNABLE, NO_CHAN, false, NOBODY, Free, Parked(User), Counts(0, 0))
                      else Proc(UNUSED, NO_CHAN, false, NOBODY, Free, Fresh, Counts(0, 0))), init, Free)
  }

  /** A run: states from boot on, each after one step of some thread, timer, scheduler or wakeup. */
  ghost predicate Run(run: seq<State>, n: nat, init: nat) {
    && init < n && |run| > 0 && run[0] == Boot(n, init)
    && forall k :: 0 <= k < |run| - 1 ==> Follows(run[k], run[k + 1])
  }

  ghost predicate Follows(s: State, s': State) {
    exists e :: Can(s, e) && s' == After(s, e)
  }

  lemma BootInv(n: nat, init: nat)
    requires init < n
    ensures Inv(Boot(n, init))
  {
    hide LockInv, LifeInv, WakeInv;
    BootLocks(n, init);
    BootLives(n, init);
    BootWakes(n, init);
  }

  lemma IdlePlaces(x: nat, n: nat)
    ensures var b := Parked(User);
            && !HoldsWaitLock(b) && HoldsLock(b, x) == NOBODY && WellPlaced(b, x, n)
            && Reserved(b) == NOBODY && !Exiting(b) && StateFits(RUNNABLE, b)
    ensures !HoldsWaitLock(Fresh) && HoldsLock(Fresh, x) == NOBODY && WellPlaced(Fresh, x, n)
    ensures Reserved(Fresh) == NOBODY && StateFits(UNUSED, Fresh)
  {
    assert WellPlaced(User, x, n) && Preemptible(User) && Reserved(User) == NOBODY && !Exiting(User);
  }

  lemma BootLocks(n: nat, init: nat)
    requires init < n
    ensures LockInv(Boot(n, init))
  {
    hide HoldsLock, HoldsWaitLock, WellPlaced, OffCpu;
    var s := Boot(n, init);
    forall x: nat | x < n ensures LocksOf(s, x) {
      IdlePlaces(x, n);
    }
  }

  lemma BootLives(n: nat, init: nat)
    requires init < n
    ensures LifeInv(Boot(n, init))
  {
    hide Reserved, Exiting, StateFits;
    IdlePlaces(0, n);
    var s := Boot(n, init);
    forall x: nat | x < n ensures LifeOf(s, x) {
    }
  }

  lemma BootWakes(n: nat, init: nat)
    requires init < n
    ensures WakeInv(Boot(n, init))
  {
  }

  /** Every step of every thread, timer, scheduler and wakeup keeps the invariant. */
  lemma StepKeeps(s: State, e: Event)
    requires Inv(s) && Can(s, e)
    ensures Inv(After(s, e))
  {
    hide LockInv, LifeInv, WakeInv, ThreadStep, Dispatch, SchedRelease, Preempt, Rouse;
    match e
    case Thread(q, c) => ThreadKeeps(s, q, c);
    case Timer(q) => PreemptKeeps(s, q);
    case Pick(p) => DispatchKeeps(s, p);
    case Release(p) => ReleaseKeeps(s, p);
    case Notify(p) => RouseKeeps(s, p);
  }

  lemma {:induction false} RunInv(run: seq<State>, n: nat, init: nat, k: nat)
    requires Run(run, n, init) && k < |run|
    ensures Inv(run[k])
  {
    hide LockInv, LifeInv, WakeInv, After;
    if k == 0 {
      BootInv(n, init);
    } else {
      RunInv(run, n, init, k - 1);
      assert Follows(run[k - 1], run[k - 1 + 1]);
      var e :| Can(run[k - 1], e) && run[k] == After(run[k - 1], e);
      StepKeeps(run[k - 1], e);
    }
  }
}
