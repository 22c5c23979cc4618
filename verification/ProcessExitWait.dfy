/** The steps of exit and wait keep the invariants. */
module ProcessExitWait {
  import opened ProcessSteps
  import opened ProcessLocks
  import opened ProcessLives
  import opened ProcessWakeups
  import ProcessFamilies

  ghost predicate Inv(s: State) {
    LockInv(s) && LifeInv(s) && WakeInv(s)
  }

  /** A thread in a place that concerns neither exit nor wait moves to another such place. */
  lemma PlainGoto(s: State, q: nat, pc: Pc)
    requires LifeInv(s) && WakeInv(s) && q < |s.procs|
    requires StateFits(s.procs[q].state, pc) && s.procs[q].state != SLEEPING && pc != Fresh && s.procs[q].pc != Fresh
    requires Reserved(pc) == Reserved(s.procs[q].pc) && Linked(pc) == Linked(s.procs[q].pc)
    requires (Exiting(pc) ==> Exiting(s.procs[q].pc) || q != s.init)
    requires forall c: nat :: c < |s.procs| && s.procs[c].parent == q ==> MayHaveKid(pc, c)
    requires InWaitSleep(s.procs[q].(pc := pc)) ==> InWaitSleep(s.procs[q])
    requires Promises(Goto(s, q, pc), q)
    requires s.procs[q].pc.ExitWake? ==> Awake(s, s.init) || (pc.ExitWake? && pc.j <= s.init)
    ensures LifeInv(Goto(s, q, pc)) && WakeInv(Goto(s, q, pc))
  {
    hide InWaitSleep, MayHaveKid, Promises, StateFits, Reserved, Linked, Exiting;
    LifeInvAt(s, q);
    GotoKeeps(s, q, pc);
  }

  /** The kids of a thread are where its program counter allows them. */
  lemma KidsAt(s: State, q: nat, c: nat)
    requires LifeInv(s) && q < |s.procs| && c < |s.procs| && s.procs[c].parent == q
    ensures MayHaveKid(s.procs[q].pc, c) && c != q
  {
    LifeInvAt(s, c);
  }

  lemma Running(s: State, q: nat)
    requires LifeInv(s) && q < |s.procs| && !OffCpu(s.procs[q].pc)
    ensures var p := s.procs[q];
            && StateFits(p.state, p.pc)
            && (p.state == SLEEPING ==> p.pc.SleepSched?)
            && (q == s.init ==> !Exiting(p.pc))
  {
    LifeInvAt(s, q);
  }

  // ---- Taking a process lock ----

  lemma TakeLocks(s: State, q: nat)
    requires LockInv(s) && Enabled(s, q) && Wants(s, q) != NOBODY
    ensures LockInv(TakeLock(s, q, Wants(s, q), Locked(s, q)))
  {
    hide LockInv;
    LockInvAt(s, q);
    LockInvTake(s, q, Wants(s, q), Locked(s, q));
  }

  lemma TakeKeeps(s: State, q: nat)
    requires LifeInv(s) && WakeInv(s) && Enabled(s, q) && Wants(s, q) != NOBODY
    ensures var s' := TakeLock(s, q, Wants(s, q), Locked(s, q)); LifeInv(s') && WakeInv(s')
  {
    hide LifeInv, WakeInv, InWaitSleep, ZombieKid, RecordOk, MayHaveKid, Reserved, Linked, Exiting, StateFits, Promises;
    var i := Wants(s, q);
    var pc := Locked(s, q);
    SetLockKeeps(s, i, By(q));
    var s1 := SetLock(s, i, By(q));
    Running(s, q);
    WakeInvAt(s1, q);
    LockedPlace(s, q);
    forall c: nat | c < |s.procs| && s1.procs[c].parent == q ensures MayHaveKid(pc, c) {
      KidsAt(s1, q, c);
    }
    TakePromises(s, q, s1);
    WakePending(s1, q);
    PlainGoto(s1, q, pc);
  }

  lemma WakePending(s: State, q: nat)
    requires q < |s.procs| && Promises(s, q)
    ensures s.procs[q].pc.ExitWake? ==> Awake(s, s.init) || s.procs[q].pc.j <= s.init
  {
  }

  /** The place after taking a lock is much like the place before. */
  lemma LockedPlace(s: State, q: nat)
    requires Enabled(s, q) && Wants(s, q) != NOBODY
    ensures var b, pc := s.procs[q].pc, Locked(s, q);
            && Reserved(pc) == Reserved(b) && Linked(pc) == Linked(b) && Exiting(pc) == Exiting(b) && pc != Fresh && b != Fresh
            && (forall c :: MayHaveKid(b, c) ==> MayHaveKid(pc, c))
            && (forall st :: StateFits(st, b) ==> StateFits(st, pc) && st != SLEEPING)
            && (b.ExitWake? ==> pc.ExitWake? && pc.j == b.j)
  {
  }

  lemma TakePromises(s: State, q: nat, s1: State)
    requires Enabled(s, q) && Wants(s, q) != NOBODY && s1 == SetLock(s, Wants(s, q), By(q)) && Promises(s1, q)
    ensures Promises(Goto(s1, q, Locked(s, q)), q)
    ensures InWaitSleep(s1.procs[q].(pc := Locked(s, q))) ==> InWaitSleep(s1.procs[q])
  {
    var s2 := Goto(s1, q, Locked(s, q));
    forall c ensures ZombieKid(s2, q, c) <==> ZombieKid(s1, q, c) {
    }
  }

  // ---- Giving back a process lock ----

  /** A process whose lock another thread holds under `wait_lock` is not on its way to sleep in wait:
      it is asleep or has nothing to do with wait. */
  lemma HeldByAnother(s: State, q: nat, j: nat)
    requires LockInv(s) && q < |s.procs| && j < |s.procs| && j != q && HoldsLock(s.procs[q].pc, q) == j
    ensures HoldsLock(s.procs[j].pc, j) != j && !s.procs[j].pc.SleepSched? && !s.procs[j].pc.SleepMark?
    ensures HoldsWaitLock(s.procs[q].pc) ==> !HoldsWaitLock(s.procs[j].pc)
  {
    LockInvAt(s, q);
    LockInvAt(s, j);
  }

  lemma RouseFits(s: State, q: nat, j: nat, p: Proc, chan: int)
    requires LockInv(s) && LifeInv(s) && q < |s.procs| && j < |s.procs| && HoldsLock(s.procs[q].pc, q) == j
    requires j != q || s.procs[q].state != SLEEPING
    requires p == Woke(s.procs[j], chan) || p == KillOne(s.procs[j]) || p == s.procs[j]
    ensures p.state == s.procs[j].state || (s.procs[j].state == SLEEPING && p.state == RUNNABLE && p.pc.Asleep?)
    ensures p.pc == s.procs[j].pc && p.parent == s.procs[j].parent && p.chan == s.procs[j].chan && p.counts == s.procs[j].counts
  {
    LifeInvAt(s, j);
    if j != q {
      HeldByAnother(s, q, j);
    }
  }

  /** The scan of a wakeup under `wait_lock`, at the process it is meant for: that process is awake. */
  lemma WokenIsAwake(s: State, q: nat, j: nat)
    requires LockInv(s) && LifeInv(s) && q < |s.procs| && j < |s.procs| && j != q
    requires HoldsLock(s.procs[q].pc, q) == j && HoldsWaitLock(s.procs[q].pc)
    ensures !InWaitSleep(Woke(s.procs[j], j).(lk := Free))
  {
    HeldByAnother(s, q, j);
    LifeInvAt(s, j);
    LockInvAt(s, j);
  }

  lemma RouseThen(s: State, q: nat, j: nat, p: Proc, chan: int)
    requires LockInv(s) && LifeInv(s) && WakeInv(s) && q < |s.procs| && j < |s.procs| && HoldsLock(s.procs[q].pc, q) == j
    requires j != q || s.procs[q].state != SLEEPING
    requires p == Woke(s.procs[j], chan) || p == KillOne(s.procs[j]) || p == s.procs[j]
    ensures LifeInv(Put(s, j, p.(lk := Free))) && WakeInv(Put(s, j, p.(lk := Free)))
  {
    hide LifeInv, WakeInv, LockInv;
    RouseFits(s, q, j, p, chan);
    RouseKeeps(s, j, p.(lk := Free));
  }

  // ---- exit ----

  lemma ExitLocks(s: State, q: nat)
    requires LockInv(s) && Enabled(s, q) && Wants(s, q) == NOBODY && s.init < |s.procs|
    requires var pc := s.procs[q].pc; pc.ExitAcq? || pc.ExitScan? || pc.ExitWake? || pc.ExitTell? || pc.ExitMark? || pc.ExitRel? || pc.ExitSched?
    ensures LockInv(ExitStep(s, q))
  {
    hide LockInv;
    LockInvAt(s, q);
    var s' := ExitStep(s, q);
    match s.procs[q].pc
    case ExitAcq => LockInvWait(s, q, ExitScan(0), true);
    case ExitRel => LockInvWait(s, q, ExitSched, false);
    case ExitSched => LockInvSwitch(s, q, Gone);
    case ExitWake(i, j, held) => ScanLocks(s, q, j, s.init);
    case ExitTell(j, held) => ScanLocks(s, q, j, s.procs[q].parent);
    case _ => ExitLocksSame(s, q);
  }

  lemma ScanLocks(s: State, q: nat, j: nat, chan: int)
    requires LockInv(s) && Enabled(s, q) && Wants(s, q) == NOBODY && s.init < |s.procs|
    requires var pc := s.procs[q].pc; (pc.ExitWake? && pc.j == j && chan == s.init) || (pc.ExitTell? && pc.j == j && chan == s.procs[q].parent)
    ensures LockInv(ExitStep(s, q))
  {
    hide LockInv;
    LockInvAt(s, q);
    var pc := s.procs[q].pc;
    if j < |s.procs| && pc.held {
      LockInvAt(s, j);
      WokeStays(s.procs[j], chan);
      LockInvDrop(s, q, j, Woke(s.procs[j], chan), if pc.ExitWake? then ExitWake(pc.i, j + 1, false) else ExitTell(j + 1, false));
    } else {
      ExitLocksSame(s, q);
    }
  }

  lemma WokeStays(p: Proc, chan: int)
    ensures Woke(p, chan).pc == p.pc
  {
  }

  lemma ExitLocksSame(s: State, q: nat)
    requires LockInv(s) && Enabled(s, q) && Wants(s, q) == NOBODY && s.init < |s.procs|
    requires var pc := s.procs[q].pc; pc.ExitScan? || (pc.ExitWake? && !(pc.j < |s.procs| && pc.held)) || (pc.ExitTell? && !(pc.j < |s.procs| && pc.held)) || pc.ExitMark?
    ensures LockInv(ExitStep(s, q))
  {
    hide LockInv;
    var s' := ExitStep(s, q);
    forall x | 0 <= x < |s.procs| ensures SameLocks(s.procs[x], s'.procs[x], x, |s.procs|) {
      LockInvAt(s, x);
    }
    LockInvSame(s, s');
  }

  lemma ExitKeeps(s: State, q: nat)
    requires Inv(s) && Enabled(s, q) && Wants(s, q) == NOBODY
    requires var pc := s.procs[q].pc; pc.ExitAcq? || pc.ExitScan? || pc.ExitWake? || pc.ExitTell? || pc.ExitMark? || pc.ExitRel? || pc.ExitSched?
    ensures LifeInv(ExitStep(s, q)) && WakeInv(ExitStep(s, q))
  {
    hide LockInv, LifeInv, WakeInv;
    match s.procs[q].pc
    case ExitAcq => ExitStarts(s, q);
    case ExitScan(i) =>
      if i < |s.procs| && s.procs[i].parent == q {
        ReparentKeeps(s, q, i);
      } else {
        ExitScans(s, q, i);
      }
    case ExitWake(i, j, held) => ExitWakes(s, q, i, j, held);
    case ExitTell(j, held) => ExitTells(s, q, j, held);
    case ExitMark => ZombieKeeps(s, q);
    case _ => ExitEnds(s, q);
  }

  /** The places of exit and wait that this module moves threads to. */
  lemma ScanPlace(p: Proc, pc: Pc)
    requires pc.ExitScan? || pc.ExitWake? || pc.ExitTell? || pc.ExitLock? || pc.WaitScan? || pc == WaitRel
    ensures !InWaitSleep(p.(pc := pc)) && StateFits(RUNNING, pc) && Reserved(pc) == NOBODY && !Linked(pc) && pc != Fresh
    ensures Exiting(pc) <==> !pc.WaitScan? && pc != WaitRel
    ensures p.pc == pc ==> (StateFits(p.state, p.pc) ==> p.state == RUNNING)
  {
  }

  lemma ExitStarts(s: State, q: nat)
    requires Inv(s) && Enabled(s, q) && s.procs[q].pc == ExitAcq
    ensures LifeInv(ExitStep(s, q)) && WakeInv(ExitStep(s, q))
  {
    hide LockInv, LifeInv, WakeInv;
    WaitLockKeeps(s, By(q));
    Running(s, q);
    PlainGoto(s.(wl := By(q)), q, ExitScan(0));
  }

  lemma ExitScans(s: State, q: nat, i: nat)
    requires Inv(s) && Enabled(s, q) && s.procs[q].pc == ExitScan(i) && (i >= |s.procs| || s.procs[i].parent != q)
    ensures LifeInv(ExitStep(s, q)) && WakeInv(ExitStep(s, q))
  {
    hide LockInv, LifeInv, WakeInv;
    Running(s, q);
    forall c: nat | c < |s.procs| && s.procs[c].parent == q ensures i < |s.procs| && i + 1 <= c {
      KidsAt(s, q, c);
    }
    PlainGoto(s, q, if i >= |s.procs| then ExitTell(0, false) else ExitScan(i + 1));
  }

  lemma ExitWakes(s: State, q: nat, i: nat, j: nat, held: bool)
    requires Inv(s) && Enabled(s, q) && Wants(s, q) == NOBODY && s.procs[q].pc == ExitWake(i, j, held)
    ensures LifeInv(ExitStep(s, q)) && WakeInv(ExitStep(s, q))
  {
    hide LockInv, LifeInv, WakeInv, StateFits, Exiting, Enabled, Wants, ExitStep, Goto, DropLock, OffCpu;
    ExitWakeIs(s, q, i, j, held);
    if j >= |s.procs| {
      ExitWakeEnds(s, q, i, j, held);
    } else if held {
      ExitWakeHeld(s, q, i, j);
    } else {
      ExitWakeSkips(s, q, i, j);
    }
  }

  lemma ExitWakeIs(s: State, q: nat, i: nat, j: nat, held: bool)
    requires LockInv(s) && LifeInv(s) && Enabled(s, q) && Wants(s, q) == NOBODY && s.procs[q].pc == ExitWake(i, j, held)
    ensures q < |s.procs| && s.procs[q].state == RUNNING && q != s.init
    ensures held ==> j < |s.procs| && j != q
    ensures j < |s.procs| && !held ==> j == q
    ensures ExitStep(s, q) ==
            if j >= |s.procs| then Goto(s, q, ExitScan(i + 1))
            else if held then DropLock(s, q, j, Woke(s.procs[j], s.init), ExitWake(i, j + 1, false))
            else Goto(s, q, ExitWake(i, j + 1, false))
  {
    hide LockInv, LifeInv;
    Running(s, q);
    LockInvAt(s, q);
  }

  lemma ExitTellIs(s: State, q: nat, j: nat, held: bool)
    requires LockInv(s) && LifeInv(s) && Enabled(s, q) && Wants(s, q) == NOBODY && s.procs[q].pc == ExitTell(j, held)
    ensures q < |s.procs| && s.procs[q].state == RUNNING && q != s.init
    ensures held ==> j < |s.procs| && j != q
    ensures j < |s.procs| && !held ==> j == q
    ensures ExitStep(s, q) ==
            if j >= |s.procs| then Goto(s, q, ExitLock)
            else if held then DropLock(s, q, j, Woke(s.procs[j], s.procs[q].parent), ExitTell(j + 1, false))
            else Goto(s, q, ExitTell(j + 1, false))
  {
    hide LockInv, LifeInv;
    Running(s, q);
    LockInvAt(s, q);
  }

  lemma ExitWakeEnds(s: State, q: nat, i: nat, j: nat, held: bool)
    requires LifeInv(s) && WakeInv(s) && q < |s.procs| && s.procs[q].pc == ExitWake(i, j, held) && j >= |s.procs|
    requires s.procs[q].state == RUNNING && q != s.init
    ensures LifeInv(Goto(s, q, ExitScan(i + 1))) && WakeInv(Goto(s, q, ExitScan(i + 1)))
  {
    hide LifeInv, WakeInv, InWaitSleep, StateFits, Reserved, Linked, Exiting, Awake;
    ScanPlace(s.procs[q], ExitWake(i, j, held));
    ScanPlace(s.procs[q], ExitScan(i + 1));
    WakeInvAt(s, q);
    InitMayHaveKids(s, 0);
    forall c: nat | c < |s.procs| && s.procs[c].parent == q ensures i < c {
      KidsAt(s, q, c);
    }
    PlainGoto(s, q, ExitScan(i + 1));
  }

  lemma ExitWakeSkips(s: State, q: nat, i: nat, j: nat)
    requires LifeInv(s) && WakeInv(s) && q < |s.procs| && s.procs[q].pc == ExitWake(i, j, false) && j == q
    requires s.procs[q].state == RUNNING && q != s.init
    ensures LifeInv(Goto(s, q, ExitWake(i, j + 1, false))) && WakeInv(Goto(s, q, ExitWake(i, j + 1, false)))
  {
    hide LifeInv, WakeInv, InWaitSleep, StateFits, Reserved, Linked, Exiting;
    ScanPlace(s.procs[q], ExitWake(i, j, false));
    ScanPlace(s.procs[q], ExitWake(i, j + 1, false));
    WakeInvAt(s, q);
    InitMayHaveKids(s, 0);
    forall c: nat | c < |s.procs| && s.procs[c].parent == q ensures i < c {
      KidsAt(s, q, c);
    }
    PlainGoto(s, q, ExitWake(i, j + 1, false));
  }

  lemma ScanHolds(i: nat, j: nat, q: nat)
    ensures HoldsLock(ExitWake(i, j, true), q) == j && HoldsWaitLock(ExitWake(i, j, true))
    ensures HoldsLock(ExitTell(j, true), q) == j && HoldsWaitLock(ExitTell(j, true))
  {
  }

  lemma ExitWakeHeld(s: State, q: nat, i: nat, j: nat)
    requires Inv(s) && q < |s.procs| && s.procs[q].pc == ExitWake(i, j, true) && j < |s.procs| && j != q
    requires s.procs[q].state == RUNNING && q != s.init
    ensures var s' := DropLock(s, q, j, Woke(s.procs[j], s.init), ExitWake(i, j + 1, false)); LifeInv(s') && WakeInv(s')
  {
    hide LockInv, LifeInv, WakeInv, InWaitSleep, StateFits, Reserved, Linked, Exiting, HoldsLock, HoldsWaitLock, Woke;
    ScanHolds(i, j, q);
    ScanPlace(s.procs[q], ExitWake(i, j, true));
    ScanPlace(s.procs[q], ExitWake(i, j + 1, false));
    WakeInvAt(s, q);
    InitMayHaveKids(s, 0);
    forall c: nat | c < |s.procs| && s.procs[c].parent == q ensures i < c {
      KidsAt(s, q, c);
    }
    RouseThen(s, q, j, Woke(s.procs[j], s.init), s.init);
    var s1 := Put(s, j, Woke(s.procs[j], s.init).(lk := Free));
    WakePasses(s, q, j, s1, s.init);
    PlainGoto(s1, q, ExitWake(i, j + 1, false));
  }

  /** A wakeup scan moves past process `j`. */
  lemma WakePasses(s: State, q: nat, j: nat, s1: State, chan: int)
    requires LockInv(s) && LifeInv(s) && q < |s.procs| && j < |s.procs| && j != q
    requires HoldsLock(s.procs[q].pc, q) == j && HoldsWaitLock(s.procs[q].pc)
    requires s1 == Put(s, j, Woke(s.procs[j], chan).(lk := Free))
    ensures (0 <= chan < j ==> Awake(s, chan)) ==> (0 <= chan < j + 1 ==> Awake(s1, chan))
    ensures s1.procs[q] == s.procs[q]
    ensures forall c :: 0 <= c < |s.procs| ==> s1.procs[c].parent == s.procs[c].parent
  {
    hide LifeInv, LockInv, InWaitSleep;
    WokenIsAwake(s, q, j);
  }

  lemma ExitTells(s: State, q: nat, j: nat, held: bool)
    requires Inv(s) && Enabled(s, q) && Wants(s, q) == NOBODY && s.procs[q].pc == ExitTell(j, held)
    ensures LifeInv(ExitStep(s, q)) && WakeInv(ExitStep(s, q))
  {
    hide LockInv, LifeInv, WakeInv, StateFits, Exiting, Enabled, Wants, ExitStep, Goto, DropLock, OffCpu;
    ExitTellIs(s, q, j, held);
    if j >= |s.procs| {
      ExitTellEnds(s, q, j, held);
    } else if held {
      ExitTellHeld(s, q, j);
    } else {
      ExitTellSkips(s, q, j);
    }
  }

  lemma AwakeAfter(s: State, q: nat, pc: Pc, x: int)
    requires q < |s.procs| && x != q
    ensures Awake(Goto(s, q, pc), x) <==> Awake(s, x)
  {
  }

  lemma ParentOf(s: State, q: nat)
    requires LifeInv(s) && q < |s.procs|
    ensures NOBODY <= s.procs[q].parent < |s.procs| && s.procs[q].parent != q
  {
    LifeInvAt(s, q);
  }

  lemma ExitTellEnds(s: State, q: nat, j: nat, held: bool)
    requires LifeInv(s) && WakeInv(s) && q < |s.procs| && s.procs[q].pc == ExitTell(j, held) && j >= |s.procs|
    requires s.procs[q].state == RUNNING && q != s.init
    ensures LifeInv(Goto(s, q, ExitLock)) && WakeInv(Goto(s, q, ExitLock))
  {
    hide LifeInv, WakeInv, InWaitSleep, StateFits, Reserved, Linked, Exiting, Awake;
    ScanPlace(s.procs[q], ExitTell(j, held));
    ScanPlace(s.procs[q], ExitLock);
    WakeInvAt(s, q);
    NoKids(s, q);
    ParentOf(s, q);
    AwakeNobody(s, s.procs[q].parent);
    AwakeAfter(s, q, ExitLock, s.procs[q].parent);
    PlainGoto(s, q, ExitLock);
  }

  lemma ExitTellSkips(s: State, q: nat, j: nat)
    requires LifeInv(s) && WakeInv(s) && q < |s.procs| && s.procs[q].pc == ExitTell(j, false) && j == q
    requires s.procs[q].state == RUNNING && q != s.init
    ensures LifeInv(Goto(s, q, ExitTell(j + 1, false))) && WakeInv(Goto(s, q, ExitTell(j + 1, false)))
  {
    hide LifeInv, WakeInv, InWaitSleep, StateFits, Reserved, Linked, Exiting, Awake;
    ScanPlace(s.procs[q], ExitTell(j, false));
    ScanPlace(s.procs[q], ExitTell(j + 1, false));
    WakeInvAt(s, q);
    NoKids(s, q);
    ParentOf(s, q);
    AwakeAfter(s, q, ExitTell(j + 1, false), s.procs[q].parent);
    PlainGoto(s, q, ExitTell(j + 1, false));
  }

  lemma AwakeNobody(s: State, x: int)
    ensures x < 0 ==> Awake(s, x)
  {
  }

  lemma NoKids(s: State, q: nat)
    requires LifeInv(s) && q < |s.procs| && (s.procs[q].pc.ExitTell? || s.procs[q].pc == ExitRel || s.procs[q].pc == ExitSched)
    ensures forall c: nat :: c < |s.procs| ==> s.procs[c].parent != q
  {
    forall c: nat | c < |s.procs| ensures s.procs[c].parent != q {
      LifeInvAt(s, c);
    }
  }

  lemma ExitTellHeld(s: State, q: nat, j: nat)
    requires Inv(s) && q < |s.procs| && s.procs[q].pc == ExitTell(j, true) && j < |s.procs| && j != q
    requires s.procs[q].state == RUNNING && q != s.init
    ensures var s' := DropLock(s, q, j, Woke(s.procs[j], s.procs[q].parent), ExitTell(j + 1, false)); LifeInv(s') && WakeInv(s')
  {
    hide LockInv, LifeInv, WakeInv, InWaitSleep, StateFits, Reserved, Linked, Exiting, HoldsLock, HoldsWaitLock, Awake, Woke;
    ScanHolds(0, j, q);
    ScanPlace(s.procs[q], ExitTell(j, true));
    ScanPlace(s.procs[q], ExitTell(j + 1, false));
    WakeInvAt(s, q);
    NoKids(s, q);
    var chan := s.procs[q].parent;
    RouseThen(s, q, j, Woke(s.procs[j], chan), chan);
    var s1 := Put(s, j, Woke(s.procs[j], chan).(lk := Free));
    WakePasses(s, q, j, s1, chan);
    ParentOf(s, q);
    AwakeAfter(s1, q, ExitTell(j + 1, false), chan);
    PlainGoto(s1, q, ExitTell(j + 1, false));
  }

  lemma ExitEnds(s: State, q: nat)
    requires Inv(s) && Enabled(s, q) && (s.procs[q].pc == ExitRel || s.procs[q].pc == ExitSched)
    ensures LifeInv(ExitStep(s, q)) && WakeInv(ExitStep(s, q))
  {
    hide LockInv, LifeInv, WakeInv;
    Running(s, q);
    LockInvAt(s, q);
    NoKids(s, q);
    if s.procs[q].pc == ExitRel {
      WaitLockKeeps(s, Free);
      PlainGoto(s.(wl := Free), q, ExitSched);
    } else {
      SetLockKeeps(s, q, Sched);
      PlainGoto(SetLock(s, q, Sched), q, Gone);
    }
  }

  // ---- wait ----

  lemma WaitLocks(s: State, q: nat, c: Choice)
    requires Inv(s) && Enabled(s, q) && Wants(s, q) == NOBODY
    requires var pc := s.procs[q].pc; pc.WaitAcq? || pc.WaitScan? || pc.WaitCheck? || pc.WaitAsked? || pc.WaitRel?
    ensures LockInv(WaitStep(s, q, c))
  {
    hide LockInv, LifeInv, WakeInv;
    LockInvAt(s, q);
    match s.procs[q].pc
    case WaitAcq => LockInvWait(s, q, WaitScan(0, false), true);
    case WaitScan(i, kids) =>
      GotoLocks(s, q, if i < |s.procs| then WaitScan(i + 1, kids) else if kids then WaitAsk else WaitRel);
    case WaitRel => LockInvWait(s, q, User, false);
    case WaitAsked => LockInvDrop(s, q, q, s.procs[q], if s.procs[q].killed then WaitRel else SleepAcq(true));
    case WaitCheck(i) => CheckLocks(s, q, i, c);
  }

  lemma CheckLocks(s: State, q: nat, i: nat, c: Choice)
    requires Inv(s) && q < |s.procs| && s.procs[q].pc == WaitCheck(i) && i < |s.procs|
    ensures LockInv(WaitStep(s, q, c))
  {
    hide LockInv, LifeInv, WakeInv;
    LockInvAt(s, i);
    if s.procs[i].state == ZOMBIE {
      ProcessFamilies.ZombieIsGone(s, q, i);
      LockInvDrop(s, q, i, if c == No then s.procs[i] else Freed(s.procs[i]), WaitRel);
    } else {
      LockInvDrop(s, q, i, s.procs[i], WaitScan(i + 1, true));
    }
  }

  lemma GotoLocks(s: State, q: nat, pc: Pc)
    requires LockInv(s) && q < |s.procs| && HoldsLock(pc, q) == HoldsLock(s.procs[q].pc, q) && WellPlaced(pc, q, |s.procs|)
    requires HoldsWaitLock(pc) == HoldsWaitLock(s.procs[q].pc) && !OffCpu(s.procs[q].pc)
    ensures LockInv(Goto(s, q, pc))
  {
    hide LockInv;
    var s' := Goto(s, q, pc);
    forall x | 0 <= x < |s.procs| ensures SameLocks(s.procs[x], s'.procs[x], x, |s.procs|) {
      LockInvAt(s, x);
    }
    LockInvSame(s, s');
  }

  lemma WaitKeeps(s: State, q: nat, c: Choice)
    requires Inv(s) && Enabled(s, q) && Wants(s, q) == NOBODY
    requires var pc := s.procs[q].pc; pc.WaitAcq? || pc.WaitScan? || pc.WaitCheck? || pc.WaitAsked? || pc.WaitRel?
    ensures LifeInv(WaitStep(s, q, c)) && WakeInv(WaitStep(s, q, c))
  {
    hide LockInv, LifeInv, WakeInv, InWaitSleep;
    Running(s, q);
    LockInvAt(s, q);
    match s.procs[q].pc
    case WaitAcq =>
      WaitLockKeeps(s, By(q));
      WaitIsNotSleep(s.procs[q], WaitScan(0, false));
      PlainGoto(s.(wl := By(q)), q, WaitScan(0, false));
    case WaitRel =>
      WaitLockKeeps(s, Free);
      WaitIsNotSleep(s.procs[q], User);
      PlainGoto(s.(wl := Free), q, User);
    case WaitScan(i, kids) => WaitScans(s, q, c);
    case WaitAsked => WaitAsks(s, q, c);
    case WaitCheck(i) => WaitChecks(s, q, i, c);
  }

  lemma WaitIsNotSleep(p: Proc, pc: Pc)
    requires pc.WaitScan? || pc == User || pc == WaitRel || pc == WaitAcq
    ensures !InWaitSleep(p.(pc := pc))
  {
  }

  lemma WaitScans(s: State, q: nat, c: Choice)
    requires Inv(s) && Enabled(s, q) && Wants(s, q) == NOBODY && s.procs[q].pc.WaitScan?
    ensures LifeInv(WaitStep(s, q, c)) && WakeInv(WaitStep(s, q, c))
  {
    hide LockInv, LifeInv, WakeInv, InWaitSleep, StateFits, Reserved, Linked, Exiting;
    Running(s, q);
    WakeInvAt(s, q);
    var i, kids := s.procs[q].pc.i, s.procs[q].pc.kids;
    ScanPlace(s.procs[q], s.procs[q].pc);
    if i < |s.procs| {
      WaitScanNext(s, q, i, kids);
    } else if kids {
      FallAsleepKeeps(s, q);
    } else {
      ScanPlace(s.procs[q], WaitRel);
      PlainGoto(s, q, WaitRel);
    }
  }

  lemma WaitScanNext(s: State, q: nat, i: nat, kids: bool)
    requires LifeInv(s) && WakeInv(s) && q < |s.procs| && s.procs[q].pc == WaitScan(i, kids) && i < |s.procs|
    requires s.procs[i].parent != q && s.procs[q].state == RUNNING
    ensures LifeInv(Goto(s, q, WaitScan(i + 1, kids))) && WakeInv(Goto(s, q, WaitScan(i + 1, kids)))
  {
    hide LifeInv, WakeInv, InWaitSleep, StateFits, Reserved, Linked, Exiting;
    WakeInvAt(s, q);
    ScanPlace(s.procs[q], WaitScan(i, kids));
    ScanPlace(s.procs[q], WaitScan(i + 1, kids));
    forall k ensures ZombieKid(Goto(s, q, WaitScan(i + 1, kids)), q, k) ==> ZombieKid(s, q, k) {
    }
    PlainGoto(s, q, WaitScan(i + 1, kids));
  }

  lemma WaitAsks(s: State, q: nat, c: Choice)
    requires Inv(s) && Enabled(s, q) && Wants(s, q) == NOBODY && s.procs[q].pc.WaitAsked?
    ensures LifeInv(WaitStep(s, q, c)) && WakeInv(WaitStep(s, q, c))
  {
    hide LockInv, LifeInv, WakeInv;
    Running(s, q);
    RouseThen(s, q, q, s.procs[q], 0);
    PlainGoto(Put(s, q, s.procs[q].(lk := Free)), q, if s.procs[q].killed then WaitRel else SleepAcq(true));
  }

  lemma WaitChecks(s: State, q: nat, i: nat, c: Choice)
    requires Inv(s) && Enabled(s, q) && s.procs[q].pc == WaitCheck(i)
    ensures LifeInv(WaitStep(s, q, c)) && WakeInv(WaitStep(s, q, c))
  {
    hide LockInv, LifeInv, WakeInv, InWaitSleep;
    LockInvAt(s, q);
    if s.procs[i].state == ZOMBIE && c != No {
      FreeStep(s, q, i);
    } else {
      Running(s, q);
      CheckPasses(s, q, i, if s.procs[i].state == ZOMBIE then WaitRel else WaitScan(i + 1, true));
    }
  }

  /** Child `i` stays as it is. */
  lemma CheckPasses(s: State, q: nat, i: nat, pc: Pc)
    requires Inv(s) && q < |s.procs| && s.procs[q].pc == WaitCheck(i) && i < |s.procs| && s.procs[q].state == RUNNING
    requires pc == WaitRel || (pc == WaitScan(i + 1, true) && s.procs[i].state != ZOMBIE)
    ensures var s' := DropLock(s, q, i, s.procs[i], pc); LifeInv(s') && WakeInv(s')
  {
    hide LockInv, LifeInv, WakeInv, InWaitSleep, StateFits, Reserved, Linked, Exiting, HoldsLock;
    WakeInvAt(s, q);
    CheckPlace(i, q);
    RouseThen(s, q, i, s.procs[i], 0);
    var s1 := Put(s, i, s.procs[i].(lk := Free));
    ScanPlace(s1.procs[q], pc);
    forall k ensures ZombieKid(Goto(s1, q, pc), q, k) ==> ZombieKid(s, q, k) {
    }
    PlainGoto(s1, q, pc);
  }

  lemma CheckPlace(i: nat, q: nat)
    ensures HoldsLock(WaitCheck(i), q) == i && Reserved(WaitCheck(i)) == NOBODY && !Linked(WaitCheck(i))
  {
  }

  lemma FreeStep(s: State, q: nat, i: nat)
    requires Inv(s) && q < |s.procs| && s.procs[q].pc == WaitCheck(i) && i < |s.procs| && s.procs[i].state == ZOMBIE
    ensures var s' := DropLock(s, q, i, Freed(s.procs[i]), WaitRel); LifeInv(s') && WakeInv(s')
  {
    hide LockInv, LifeInv, WakeInv, InWaitSleep;
    ProcessFamilies.ZombieIsGone(s, q, i);
    ProcessFamilies.FreeKeeps(s, q, i);
    var s1 := Put(s, i, Freed(s.procs[i]));
    var s2 := Goto(s1, q, WaitRel);
    FreedRecordOk(s1, q);
    Relives(s1, q);
    SetLockKeeps(s2, i, Free);
    assert SetLock(s2, i, Free) == DropLock(s, q, i, Freed(s.procs[i]), WaitRel);
  }

  lemma FreedRecordOk(s: State, q: nat)
    requires LifeInv(s) && q < |s.procs| && s.procs[q].pc.WaitCheck?
    ensures RecordOk(s.procs[q].(pc := WaitRel), q, s.init, |s.procs|)
  {
    LifeInvAt(s, q);
  }

  lemma Relives(s: State, q: nat)
    requires LifeInv(s) && q < |s.procs| && s.procs[q].pc.WaitCheck?
    requires RecordOk(s.procs[q].(pc := WaitRel), q, s.init, |s.procs|)
    ensures LifeInv(Goto(s, q, WaitRel))
  {
    hide RecordOk;
    var s' := Goto(s, q, WaitRel);
    forall x | 0 <= x < |s.procs| ensures SameFamily(s, s.procs[x], s'.procs[x], x) {
      LifeInvAt(s, x);
    }
    LifeInvSame(s, s');
  }
}
