/** Who is about to sleep or asleep in wait, and why no zombie child of such a process is missed. */
module ProcessWakeups {
  import opened ProcessSteps
  import ProcessLocks
  import opened ProcessLives

  /** From the decision to sleep in wait until the wakeup. */
  predicate InWaitSleep(p: Proc) {
    match p.pc
    case WaitAsk | WaitAsked => true
    case SleepAcq(w) => w
    case SleepRel(w) => w
    case SleepMark(w) => w
    case SleepSched(w) => w
    case Asleep(w) => w && p.state == SLEEPING
    case _ => false
  }

  predicate ZombieKid(s: State, x: nat, c: int) {
    0 <= c < |s.procs| && s.procs[c].parent == x && s.procs[c].state == ZOMBIE
  }

  /** An exiting process, scanning under `wait_lock`, has yet to wake process `x`. */
  predicate PendingWake(s: State, x: nat) {
    && x == s.init && s.wl.By? && s.wl.q < |s.procs| && s.procs[s.wl.q].pc.ExitWake?
    && s.procs[s.wl.q].pc.j <= x
  }

  /** What the scans under `wait_lock` have established so far. */
  ghost predicate Promises(s: State, x: nat)
    requires x < |s.procs|
  {
    match s.procs[x].pc
    case WaitScan(i, kids) => forall c :: 0 <= c < i && c < |s.procs| && s.procs[c].parent == x ==> kids && !ZombieKid(s, x, c)
    case WaitCheck(i) => (i < |s.procs| ==> s.procs[i].parent == x) && forall c :: 0 <= c < i ==> !ZombieKid(s, x, c)
    case ExitWake(_, j, _) => s.init < j ==> Awake(s, s.init)
    case ExitTell(j, _) => 0 <= s.procs[x].parent < j ==> Awake(s, s.procs[x].parent)
    case ExitLock | ExitMark => Awake(s, s.procs[x].parent)
    case _ => true
  }

  predicate Awake(s: State, x: int) {
    0 <= x < |s.procs| ==> !InWaitSleep(s.procs[x])
  }

  ghost predicate WakeOf(s: State, x: nat)
    requires x < |s.procs|
  {
    && Promises(s, x)
    && (InWaitSleep(s.procs[x]) ==> forall c :: ZombieKid(s, x, c) ==> PendingWake(s, x))
  }

  ghost predicate WakeInv(s: State) {
    forall x :: 0 <= x < |s.procs| ==> WakeOf(s, x)
  }

  lemma WakeInvAt(s: State, x: nat)
    requires WakeInv(s) && x < |s.procs|
    ensures WakeOf(s, x)
  {
  }

  /** A step of process `q` that makes no zombie, no orphan, and no sleeper. */
  lemma WakeInvSame(s: State, s': State, q: nat)
    requires WakeInv(s) && |s'.procs| == |s.procs| && s'.init == s.init && q < |s.procs|
    requires forall x :: 0 <= x < |s.procs| ==> Quiet(s.procs[x], s'.procs[x]) && (x != q ==> s'.procs[x].pc == s.procs[x].pc)
    requires Promises(s', q)
    requires forall x: nat :: x < |s.procs| && PendingWake(s, x) && InWaitSleep(s'.procs[x]) ==> PendingWake(s', x)
    ensures WakeInv(s')
  {
    hide InWaitSleep, PendingWake;
    forall x | 0 <= x < |s.procs| ensures WakeOf(s', x) {
      assert WakeOf(s, x) && Quiet(s.procs[x], s'.procs[x]);
      forall c ensures ZombieKid(s', x, c) <==> ZombieKid(s, x, c) {
        assert 0 <= c < |s.procs| ==> Quiet(s.procs[c], s'.procs[c]);
      }
      forall y: int ensures Awake(s, y) ==> Awake(s', y) {
        assert 0 <= y < |s.procs| ==> Quiet(s.procs[y], s'.procs[y]);
      }
      if x != q {
        PromisesSame(s, s', x);
      }
    }
  }

  predicate Quiet(p: Proc, p': Proc) {
    p'.parent == p.parent && (p'.state == ZOMBIE <==> p.state == ZOMBIE) && (InWaitSleep(p') ==> InWaitSleep(p))
  }

  lemma PromisesSame(s: State, s': State, x: nat)
    requires x < |s.procs| == |s'.procs| && s'.init == s.init && Promises(s, x)
    requires s'.procs[x].pc == s.procs[x].pc
    requires forall c :: 0 <= c < |s.procs| ==> Quiet(s.procs[c], s'.procs[c])
    requires forall c :: ZombieKid(s', x, c) <==> ZombieKid(s, x, c)
    requires forall y :: Awake(s, y) ==> Awake(s', y)
    ensures Promises(s', x)
  {
    hide InWaitSleep, PendingWake, ZombieKid, Awake;
    assert Quiet(s.procs[x], s'.procs[x]);
    if s.procs[x].pc.WaitScan? {
      forall c | 0 <= c < s.procs[x].pc.i && c < |s.procs| && s'.procs[c].parent == x
        ensures s'.procs[x].pc.kids && !ZombieKid(s', x, c)
      {
        assert Quiet(s.procs[c], s'.procs[c]);
        assert s.procs[c].parent == x;
      }
    }
    if s.procs[x].pc.WaitCheck? && s.procs[x].pc.i < |s.procs| {
      assert Quiet(s.procs[s.procs[x].pc.i], s'.procs[s.procs[x].pc.i]);
    }
  }

  // ---- Steps, one record at a time ----

  lemma SetLockKeeps(s: State, i: nat, h: Holder)
    requires LifeInv(s) && WakeInv(s) && i < |s.procs|
    ensures LifeInv(SetLock(s, i, h)) && WakeInv(SetLock(s, i, h))
  {
    hide InWaitSleep, StateFits, MayHaveKid, Reserved, Linked, Exiting;
    var s' := SetLock(s, i, h);
    forall x | 0 <= x < |s.procs| ensures SameFamily(s, s.procs[x], s'.procs[x], x) {
      LifeInvAt(s, x);
    }
    LifeInvSame(s, s');
    WakeInvAt(s, i);
    LockLeavesSleepers(s, i, h);
    PromisesUnlocked(s, i, h);
    WakeInvSame(s, s', i);
  }

  lemma LockLeavesSleepers(s: State, i: nat, h: Holder)
    requires i < |s.procs|
    ensures var s' := SetLock(s, i, h);
            forall x :: 0 <= x < |s.procs| ==> (InWaitSleep(s'.procs[x]) <==> InWaitSleep(s.procs[x]))
  {
  }

  lemma PromisesUnlocked(s: State, i: nat, h: Holder)
    requires i < |s.procs| && Promises(s, i)
    ensures Promises(SetLock(s, i, h), i)
  {
    hide InWaitSleep;
    LockLeavesSleepers(s, i, h);
    var s' := SetLock(s, i, h);
    PromisesSame(s, s', i);
  }

  /** A sleeper becomes runnable, or a process is marked as killed. */
  lemma RouseKeeps(s: State, i: nat, p: Proc)
    requires LifeInv(s) && WakeInv(s) && i < |s.procs|
    requires p.pc == s.procs[i].pc && p.parent == s.procs[i].parent && p.chan == s.procs[i].chan && p.counts == s.procs[i].counts
    requires p.state == s.procs[i].state || (s.procs[i].state == SLEEPING && p.state == RUNNABLE && p.pc.Asleep?)
    ensures LifeInv(Put(s, i, p)) && WakeInv(Put(s, i, p))
  {
    hide InWaitSleep, MayHaveKid, Reserved, Linked, Exiting, RecordOk, Promises, LifeInv, WakeInv, Awake;
    var s' := Put(s, i, p);
    LifeInvAt(s, i);
    RousedRecord(s.procs[i], p, i, s.init, |s.procs|);
    forall x | 0 <= x < |s.procs| ensures SameFamily(s, s.procs[x], s'.procs[x], x) {
      LifeInvAt(s, x);
    }
    LifeInvSame(s, s');
    RousedPromises(s, i, p);
    RousedPending(s, i, p);
    RousedQuiet(s.procs[i], p);
    WakePut(s, i, p);
  }

  lemma RousedRecord(p: Proc, p': Proc, x: nat, init: nat, n: nat)
    requires RecordOk(p, x, init, n) && p'.pc == p.pc && p'.parent == p.parent && p'.chan == p.chan && p'.counts == p.counts
    requires p'.state == p.state || (p.state == SLEEPING && p'.state == RUNNABLE && p'.pc.Asleep?)
    ensures RecordOk(p', x, init, n)
  {
  }

  lemma RousedPending(s: State, i: nat, p: Proc)
    requires i < |s.procs| && WakeInv(s) && p.pc == s.procs[i].pc
    ensures s.procs[i].pc.ExitWake? ==> Awake(s, s.init) || (p.pc.ExitWake? && p.pc.j <= s.init)
  {
    hide InWaitSleep;
    WakeInvAt(s, i);
  }

  lemma RousedPromises(s: State, i: nat, p: Proc)
    requires i < |s.procs| && WakeInv(s) && p.pc == s.procs[i].pc && p.parent == s.procs[i].parent
    requires p.state == s.procs[i].state || (s.procs[i].state == SLEEPING && p.state == RUNNABLE && p.pc.Asleep?)
    ensures Promises(Put(s, i, p), i)
  {
    hide InWaitSleep;
    var s' := Put(s, i, p);
    WakeInvAt(s, i);
    RousedQuiet(s.procs[i], p);
    forall c ensures ZombieKid(s', i, c) <==> ZombieKid(s, i, c) {
    }
    PromisesSame(s, s', i);
  }

  lemma RousedQuiet(p: Proc, p': Proc)
    requires p'.pc == p.pc && p'.parent == p.parent
    requires p'.state == p.state || (p.state == SLEEPING && p'.state == RUNNABLE && p'.pc.Asleep?)
    ensures Quiet(p, p')
  {
  }

  lemma WakePut(s: State, i: nat, p: Proc)
    requires WakeInv(s) && i < |s.procs| && Quiet(s.procs[i], p) && Promises(Put(s, i, p), i)
    requires s.procs[i].pc.ExitWake? ==> Awake(s, s.init) || (p.pc.ExitWake? && p.pc.j <= s.init)
    ensures WakeInv(Put(s, i, p))
  {
    hide InWaitSleep, Promises;
    WakeInvSame(s, Put(s, i, p), i);
  }

  /** A thread changes its own record without becoming a zombie or deciding to sleep in wait. */
  lemma PutKeeps(s: State, q: nat, p: Proc)
    requires LifeInv(s) && WakeInv(s) && q < |s.procs|
    requires SameFamily(s, s.procs[q], p, q) && Quiet(s.procs[q], p)
    requires forall c :: 0 <= c < |s.procs| && s.procs[c].parent == q ==> MayHaveKid(p.pc, c)
    requires Promises(Put(s, q, p), q)
    requires s.procs[q].pc.ExitWake? ==> Awake(s, s.init) || (p.pc.ExitWake? && p.pc.j <= s.init)
    ensures LifeInv(Put(s, q, p)) && WakeInv(Put(s, q, p))
  {
    hide InWaitSleep, RecordOk, MayHaveKid, Reserved, Linked, Exiting, Promises;
    var s' := Put(s, q, p);
    forall x | 0 <= x < |s.procs| ensures SameFamily(s, s.procs[x], s'.procs[x], x) {
      LifeInvAt(s, x);
    }
    LifeInvSame(s, s');
    WakePut(s, q, p);
  }

  /** A thread moves on. */
  lemma GotoKeeps(s: State, q: nat, pc: Pc)
    requires LifeInv(s) && WakeInv(s) && q < |s.procs|
    requires SameFamily(s, s.procs[q], s.procs[q].(pc := pc), q)
    requires forall c :: 0 <= c < |s.procs| && s.procs[c].parent == q ==> MayHaveKid(pc, c)
    requires InWaitSleep(s.procs[q].(pc := pc)) ==> InWaitSleep(s.procs[q])
    requires Promises(Goto(s, q, pc), q)
    requires s.procs[q].pc.ExitWake? ==> Awake(s, s.init) || (pc.ExitWake? && pc.j <= s.init)
    ensures LifeInv(Goto(s, q, pc)) && WakeInv(Goto(s, q, pc))
  {
    hide InWaitSleep, RecordOk, MayHaveKid, Reserved, Linked, Exiting, Promises, SameFamily;
    PutKeeps(s, q, s.procs[q].(pc := pc));
  }

  /** Taking or giving back `wait_lock`. */
  lemma WaitLockKeeps(s: State, h: Holder)
    requires LifeInv(s) && WakeInv(s)
    requires s.wl.By? && s.wl.q < |s.procs| ==> !s.procs[s.wl.q].pc.ExitWake?
    ensures LifeInv(s.(wl := h)) && WakeInv(s.(wl := h))
  {
    hide InWaitSleep, RecordOk, MayHaveKid, Reserved, Linked, Exiting;
    var s' := s.(wl := h);
    forall x | 0 <= x < |s.procs| ensures LifeOf(s', x) {
      LifeInvAt(s, x);
    }
    forall x | 0 <= x < |s.procs| ensures WakeOf(s', x) {
      WakeInvAt(s, x);
      forall c ensures ZombieKid(s', x, c) <==> ZombieKid(s, x, c) {
      }
      forall y ensures Awake(s', y) <==> Awake(s, y) {
      }
    }
  }

  // ---- Steps that change families ----

  /** Only the holder of `wait_lock` has promises to keep. */
  lemma OthersPromiseNothing(s: State, q: nat, x: nat)
    requires ProcessLocks.LockInv(s) && s.wl == By(q) && x < |s.procs| && x != q
    ensures !HoldsWaitLock(s.procs[x].pc)
  {
    ProcessLocks.LockInvAt(s, x);
  }

  lemma NoPromises(s: State, x: nat)
    requires x < |s.procs| && !HoldsWaitLock(s.procs[x].pc)
    ensures Promises(s, x)
  {
  }

  /** The decision to sleep in wait, after a scan that found no zombie child. */
  lemma FallAsleepKeeps(s: State, q: nat)
    requires ProcessLocks.LockInv(s) && LifeInv(s) && WakeInv(s) && q < |s.procs|
    requires s.procs[q].pc.WaitScan? && s.procs[q].pc.i >= |s.procs|
    ensures LifeInv(Goto(s, q, WaitAsk)) && WakeInv(Goto(s, q, WaitAsk))
  {
    hide InWaitSleep, RecordOk;
    var s' := Goto(s, q, WaitAsk);
    ProcessLocks.LockInvAt(s, q);
    LifeInvAt(s, q);
    AskFits(s, q);
    forall x | 0 <= x < |s.procs| ensures SameFamily(s, s.procs[x], s'.procs[x], x) {
      LifeInvAt(s, x);
    }
    LifeInvSame(s, s');
    WakeInvAt(s, q);
    forall x | 0 <= x < |s.procs| ensures WakeOf(s', x) {
      WakeInvAt(s, x);
      forall c ensures ZombieKid(s', x, c) <==> ZombieKid(s, x, c) {
      }
      if x != q {
        OthersPromiseNothing(s, q, x);
        NoPromises(s', x);
        assert !s.procs[q].pc.ExitWake?;
      }
    }
  }

  lemma AskFits(s: State, q: nat)
    requires q < |s.procs| && RecordOk(s.procs[q], q, s.init, |s.procs|) && s.procs[q].pc.WaitScan?
    ensures RecordOk(s.procs[q].(pc := WaitAsk), q, s.init, |s.procs|)
  {
  }

  /** Exit gives child `i` to init. */
  lemma ReparentKeeps(s: State, q: nat, i: nat)
    requires ProcessLocks.LockInv(s) && LifeInv(s) && WakeInv(s) && q < |s.procs| && i < |s.procs|
    requires s.procs[q].pc == ExitScan(i) && s.procs[i].parent == q
    ensures var s' := Goto(Put(s, i, s.procs[i].(parent := s.init)), q, ExitWake(i, 0, false));
            LifeInv(s') && WakeInv(s')
  {
    var s' := Goto(Put(s, i, s.procs[i].(parent := s.init)), q, ExitWake(i, 0, false));
    ReparentLives(s, q, i);
    ProcessLocks.LockInvAt(s, q);
    ReparentWakes(s, q, i);
  }

  lemma ReparentLives(s: State, q: nat, i: nat)
    requires LifeInv(s) && q < |s.procs| && i < |s.procs|
    requires s.procs[q].pc == ExitScan(i) && s.procs[i].parent == q
    ensures LifeInv(Goto(Put(s, i, s.procs[i].(parent := s.init)), q, ExitWake(i, 0, false)))
  {
    hide Reserved, Linked, RecordOk, MayHaveKid;
    var s' := Goto(Put(s, i, s.procs[i].(parent := s.init)), q, ExitWake(i, 0, false));
    ScanReservesNothing(i);
    forall x | 0 <= x < |s.procs| ensures LifeOf(s', x) {
      ReparentRecord(s, q, i, x);
      ReparentReserve(s, q, i, x);
    }
    forall x, y | 0 <= x < |s.procs| && 0 <= y < |s.procs| && Reserved(s'.procs[x].pc) == Reserved(s'.procs[y].pc) != NOBODY
      ensures x == y
    {
      assert Reserved(s.procs[x].pc) == Reserved(s.procs[y].pc) != NOBODY;
    }
  }

  lemma ReparentRecord(s: State, q: nat, i: nat, x: nat)
    requires LifeInv(s) && q < |s.procs| && i < |s.procs| && x < |s.procs|
    requires s.procs[q].pc == ExitScan(i) && s.procs[i].parent == q
    ensures var s' := Goto(Put(s, i, s.procs[i].(parent := s.init)), q, ExitWake(i, 0, false));
            var p := s'.procs[x];
            RecordOk(p, x, s.init, |s.procs|) && (p.parent != NOBODY ==> MayHaveKid(s'.procs[p.parent].pc, x))
  {
    hide Reserved, Linked;
    LifeInvAt(s, q);
    LifeInvAt(s, i);
    LifeInvAt(s, x);
    LifeInvAt(s, s.init);
    InitMayHaveKids(s, i);
  }

  lemma ReparentReserve(s: State, q: nat, i: nat, x: nat)
    requires LifeInv(s) && q < |s.procs| && i < |s.procs| && x < |s.procs|
    requires s.procs[q].pc == ExitScan(i) && s.procs[i].parent == q
    ensures var s' := Goto(Put(s, i, s.procs[i].(parent := s.init)), q, ExitWake(i, 0, false));
            Reserved(s'.procs[x].pc) != NOBODY ==> ReservedBy(s', x, Reserved(s'.procs[x].pc))
  {
    hide Reserved, Linked, RecordOk, MayHaveKid;
    LifeInvAt(s, x);
    ScanReservesNothing(i);
  }

  lemma ScanReservesNothing(i: nat)
    ensures Reserved(ExitScan(i)) == NOBODY == Reserved(ExitWake(i, 0, false))
    ensures !Linked(ExitScan(i)) && StateFits(RUNNING, ExitWake(i, 0, false))
    ensures forall st :: StateFits(st, ExitScan(i)) ==> st == RUNNING
    ensures forall p: Proc, x: nat :: p.state == RUNNING ==> ChanFits(p, x)
  {
  }

  lemma InitMayHaveKids(s: State, c: nat)
    requires LifeInv(s)
    ensures s.init < |s.procs| && MayHaveKid(s.procs[s.init].pc, c) && !s.procs[s.init].pc.ExitScan?
  {
    LifeInvAt(s, s.init);
  }

  lemma ReparentWakes(s: State, q: nat, i: nat)
    requires ProcessLocks.LockInv(s) && LifeInv(s) && WakeInv(s) && q < |s.procs| && i < |s.procs| && s.wl == By(q)
    requires s.procs[q].pc == ExitScan(i) && s.procs[i].parent == q
    ensures WakeInv(Goto(Put(s, i, s.procs[i].(parent := s.init)), q, ExitWake(i, 0, false)))
  {
    hide HoldsLock, HoldsWaitLock, RecordOk, MayHaveKid;
    var s' := Goto(Put(s, i, s.procs[i].(parent := s.init)), q, ExitWake(i, 0, false));
    forall x | 0 <= x < |s.procs| ensures WakeOf(s', x) {
      WakeInvAt(s, x);
      assert x != i && x != q ==> s'.procs[x] == s.procs[x];
      forall c ensures ZombieKid(s', x, c) ==> ZombieKid(s, x, c) || x == s.init {
      }
      if x != q {
        OthersPromiseNothing(s, q, x);
        NoPromises(s', x);
      }
    }
  }

  /** An exiting process that has woken its parent becomes a zombie. */
  lemma ZombieKeeps(s: State, q: nat)
    requires ProcessLocks.LockInv(s) && LifeInv(s) && WakeInv(s) && q < |s.procs| && s.procs[q].pc == ExitMark
    ensures LifeInv(ExitStep(s, q)) && WakeInv(ExitStep(s, q))
  {
    hide InWaitSleep, HoldsLock;
    var s' := ExitStep(s, q);
    ProcessLocks.LockInvAt(s, q);
    LifeInvAt(s, q);
    forall x | 0 <= x < |s.procs| ensures SameFamily(s, s.procs[x], s'.procs[x], x) {
      LifeInvAt(s, x);
    }
    forall c | 0 <= c < |s.procs| ensures s.procs[c].parent != q {
      LifeInvAt(s, c);
    }
    LifeInvSame(s, s');
    ZombieWakes(s, q);
  }

  lemma ZombieWakes(s: State, q: nat)
    requires ProcessLocks.LockInv(s) && WakeInv(s) && q < |s.procs| && s.procs[q].pc == ExitMark && s.wl == By(q)
    ensures WakeInv(ExitStep(s, q))
  {
    hide HoldsLock, HoldsWaitLock;
    var s' := ExitStep(s, q);
    WakeInvAt(s, q);
    forall x | 0 <= x < |s.procs| ensures WakeOf(s', x) {
      WakeInvAt(s, x);
      forall c ensures ZombieKid(s', x, c) ==> ZombieKid(s, x, c) || (c == q && s.procs[q].parent == x) {
      }
      if x != q {
        OthersPromiseNothing(s, q, x);
        NoPromises(s', x);
      }
    }
  }
}
