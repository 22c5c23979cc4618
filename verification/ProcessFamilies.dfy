/** The steps of fork and wait that make, link, start and free processes. */
module ProcessFamilies {
  import opened ProcessSteps
  import ProcessLocks
  import opened ProcessLives
  import opened ProcessWakeups

  predicate NobodyReserves(s: State, i: nat) {
    forall y :: 0 <= y < |s.procs| ==> Reserved(s.procs[y].pc) != i
  }

  /** One record changes, of a slot that no fork is at work on. */
  lemma LifeOne(s: State, i: nat, p: Proc)
    requires LifeInv(s) && i < |s.procs| && RecordOk(p, i, s.init, |s.procs|) && NobodyReserves(s, i)
    requires Reserved(p.pc) == Reserved(s.procs[i].pc) && Linked(p.pc) == Linked(s.procs[i].pc)
    requires p.parent != NOBODY ==> MayHaveKid(s.procs[p.parent].pc, i)
    requires forall c :: 0 <= c < |s.procs| && s.procs[c].parent == i ==> MayHaveKid(p.pc, c)
    ensures LifeInv(Put(s, i, p))
  {
    hide RecordOk, MayHaveKid, Reserved, Linked;
    var s' := Put(s, i, p);
    RecordParent(p, i, s.init, |s.procs|);
    forall x | 0 <= x < |s.procs| ensures LifeOf(s', x) {
      LifeInvAt(s, x);
      LifeParent(s, x);
    }
    forall x, y | 0 <= x < |s.procs| && 0 <= y < |s.procs| && Reserved(s'.procs[x].pc) == Reserved(s'.procs[y].pc) != NOBODY
      ensures x == y
    {
      assert Reserved(s.procs[x].pc) == Reserved(s.procs[y].pc) != NOBODY;
    }
  }

  lemma RecordParent(p: Proc, x: nat, init: nat, n: nat)
    requires RecordOk(p, x, init, n)
    ensures NOBODY <= p.parent < n && p.parent != x
  {
  }

  /** A thread reserves a slot, or gives up its reservation. */
  lemma LifeReserve(s: State, q: nat, pc: Pc)
    requires LifeInv(s) && q < |s.procs| && RecordOk(s.procs[q].(pc := pc), q, s.init, |s.procs|)
    requires forall c: nat :: MayHaveKid(pc, c)
    requires Reserved(pc) != NOBODY ==> ReservedBy(Goto(s, q, pc), q, Reserved(pc)) && NobodyReserves(s, Reserved(pc))
    ensures LifeInv(Goto(s, q, pc))
  {
    hide RecordOk, MayHaveKid, Reserved, Linked;
    var s' := Goto(s, q, pc);
    forall x | 0 <= x < |s.procs| ensures LifeOf(s', x) {
      LifeInvAt(s, x);
      LifeParent(s, x);
    }
    forall x, y | 0 <= x < |s.procs| && 0 <= y < |s.procs| && Reserved(s'.procs[x].pc) == Reserved(s'.procs[y].pc) != NOBODY
      ensures x == y
    {
      if x != q && y != q {
        assert Reserved(s.procs[x].pc) == Reserved(s.procs[y].pc) != NOBODY;
      }
    }
  }

  /** A zombie seen under its own lock has left its CPU for good. */
  lemma ZombieIsGone(s: State, q: nat, i: nat)
    requires ProcessLocks.LockInv(s) && LifeInv(s) && q < |s.procs| && i < |s.procs| && s.procs[q].pc == WaitCheck(i)
    requires s.procs[i].state == ZOMBIE
    ensures i != q && s.procs[i].pc == Gone && i != s.init && s.procs[i].lk == By(q)
  {
    ProcessLocks.LockInvAt(s, q);
    ProcessLocks.LockInvAt(s, i);
    LifeInvAt(s, q);
    LifeInvAt(s, i);
  }

  /** Wait frees a zombie child. */
  lemma FreeKeeps(s: State, q: nat, i: nat)
    requires ProcessLocks.LockInv(s) && LifeInv(s) && WakeInv(s) && q < |s.procs| && s.procs[q].pc == WaitCheck(i) && i < |s.procs|
    requires s.procs[i].state == ZOMBIE
    ensures LifeInv(Put(s, i, Freed(s.procs[i]))) && WakeInv(Goto(Put(s, i, Freed(s.procs[i])), q, WaitRel))
    ensures s.procs[i].parent == q && s.procs[i].pc == Gone
  {
    hide InWaitSleep, HoldsLock;
    ZombieIsGone(s, q, i);
    WakeInvAt(s, q);
    LifeInvAt(s, i);
    forall y | 0 <= y < |s.procs| ensures Reserved(s.procs[y].pc) != i {
      LifeInvAt(s, y);
    }
    forall c | 0 <= c < |s.procs| ensures s.procs[c].parent != i {
      LifeInvAt(s, c);
    }
    LifeOne(s, i, Freed(s.procs[i]));
    FreeWakes(s, q, i);
  }

  lemma FreeWakes(s: State, q: nat, i: nat)
    requires ProcessLocks.LockInv(s) && WakeInv(s) && q < |s.procs| && s.procs[q].pc == WaitCheck(i) && i < |s.procs| && i != q
    ensures WakeInv(Goto(Put(s, i, Freed(s.procs[i])), q, WaitRel))
  {
    hide HoldsLock, HoldsWaitLock;
    var s' := Goto(Put(s, i, Freed(s.procs[i])), q, WaitRel);
    ProcessLocks.LockInvAt(s, q);
    CheckHoldsWaitLock(i);
    forall x | 0 <= x < |s.procs| ensures WakeOf(s', x) {
      WakeInvAt(s, x);
      forall c ensures ZombieKid(s', x, c) ==> ZombieKid(s, x, c) {
      }
      if x != q && x != i {
        OthersPromiseNothing(s, q, x);
        NoPromises(s', x);
      }
    }
  }

  lemma CheckHoldsWaitLock(i: nat)
    ensures HoldsWaitLock(WaitCheck(i)) && HoldsWaitLock(ForkParent(i))
  {
  }

  /** Fork takes an unused slot. */
  lemma ReserveKeeps(s: State, q: nat, i: nat)
    requires ProcessLocks.LockInv(s) && LifeInv(s) && WakeInv(s) && q < |s.procs| && s.procs[q].pc == ForkCheck(i) && i < |s.procs|
    requires s.procs[i].state == UNUSED
    ensures var s' := Goto(Put(s, i, s.procs[i].(state := USED)), q, ForkMake(i));
            LifeInv(s') && WakeInv(s')
  {
    hide InWaitSleep, HoldsLock, LifeInv, WakeInv;
    ReserveLives(s, q, i);
    ReserveWakes(s, q, i);
  }

  lemma ReserveLives(s: State, q: nat, i: nat)
    requires LifeInv(s) && q < |s.procs| && s.procs[q].pc == ForkCheck(i) && i < |s.procs| && s.procs[i].state == UNUSED
    ensures i != q && s.procs[i].pc == Fresh && LifeInv(Goto(Put(s, i, s.procs[i].(state := USED)), q, ForkMake(i)))
  {
    hide LifeInv;
    LifeInvAt(s, i);
    LifeInvAt(s, q);
    FreshHasNoKids(s, i);
    NotReserved(s, i);
    LifeOne(s, i, s.procs[i].(state := USED));
    var s1 := Put(s, i, s.procs[i].(state := USED));
    LifeInvAt(s1, q);
    LifeReserve(s1, q, ForkMake(i));
  }

  lemma NotReserved(s: State, i: nat)
    requires LifeInv(s) && i < |s.procs| && s.procs[i].state != USED
    ensures NobodyReserves(s, i)
    ensures NobodyReserves(Put(s, i, s.procs[i].(state := USED)), i)
  {
    hide RecordOk, MayHaveKid, Reserved, Linked, StateFits;
    forall y | 0 <= y < |s.procs| ensures Reserved(s.procs[y].pc) != i {
      LifeInvAt(s, y);
    }
  }

  lemma ReserveWakes(s: State, q: nat, i: nat)
    requires WakeInv(s) && q < |s.procs| && i < |s.procs| && i != q && s.procs[q].pc == ForkCheck(i)
    requires s.procs[i].state == UNUSED && s.procs[i].pc == Fresh
    ensures WakeInv(Goto(Put(s, i, s.procs[i].(state := USED)), q, ForkMake(i)))
  {
    hide InWaitSleep;
    var s1 := Put(s, i, s.procs[i].(state := USED));
    FreshQuiet(s, i, USED);
    WakePut(s, i, s.procs[i].(state := USED));
    ForkQuiet(s1, q, ForkMake(i));
    WakePut(s1, q, s1.procs[q].(pc := ForkMake(i)));
  }

  lemma FreshQuiet(s: State, i: nat, st: RunState)
    requires i < |s.procs| && s.procs[i].pc == Fresh && s.procs[i].state != ZOMBIE && st != ZOMBIE
    ensures Quiet(s.procs[i], s.procs[i].(state := st)) && Promises(Put(s, i, s.procs[i].(state := st)), i)
  {
  }

  predicate NotInExitOrWait(pc: Pc) {
    !pc.ExitWake? && !pc.ExitTell? && !pc.ExitLock? && !pc.ExitMark? && !pc.WaitScan? && !pc.WaitCheck?
    && !pc.WaitAsk? && !pc.WaitAsked? && !pc.SleepAcq? && !pc.SleepRel? && !pc.SleepMark? && !pc.SleepSched? && !pc.Asleep?
  }

  lemma ForkQuiet(s: State, q: nat, pc: Pc)
    requires q < |s.procs| && NotInExitOrWait(pc)
    ensures Quiet(s.procs[q], s.procs[q].(pc := pc)) && Promises(Put(s, q, s.procs[q].(pc := pc)), q)
  {
  }

  /** Fork has to give the slot back. */
  lemma UnmakeKeeps(s: State, q: nat, i: nat)
    requires LifeInv(s) && WakeInv(s) && q < |s.procs| && s.procs[q].pc == ForkMake(i) && i < |s.procs|
    ensures i != q && s.procs[i].pc == Fresh
    ensures var s' := Put(Goto(s, q, User), i, Freed(s.procs[i]));
            LifeInv(s') && WakeInv(s')
  {
    hide InWaitSleep;
    UnreserveKeeps(s, q, i, User);
    var s1 := Goto(s, q, User);
    LifeInvAt(s, i);
    LifeInvAt(s, q);
    forall c | 0 <= c < |s1.procs| ensures s1.procs[c].parent != i {
      LifeInvAt(s1, c);
    }
    assert Freed(s.procs[i]) == s1.procs[i].(state := UNUSED, chan := NO_CHAN, killed := false);
    LifeOne(s1, i, Freed(s.procs[i]));
    FreedQuiet(s1, i);
    WakePut(s1, i, Freed(s.procs[i]));
  }

  lemma FreedQuiet(s: State, i: nat)
    requires i < |s.procs| && s.procs[i].state == USED && s.procs[i].parent == NOBODY
    ensures Quiet(s.procs[i], Freed(s.procs[i])) && Promises(Put(s, i, Freed(s.procs[i])), i)
  {
  }

  /** The reserved slot is let go. */
  lemma UnreserveKeeps(s: State, q: nat, i: nat, pc: Pc)
    requires LifeInv(s) && WakeInv(s) && q < |s.procs| && i < |s.procs| && pc == User
    requires s.procs[q].pc == ForkMake(i) || s.procs[q].pc == ForkRun(i)
    ensures i != q && LifeInv(Goto(s, q, pc)) && WakeInv(Goto(s, q, pc)) && NobodyReserves(Goto(s, q, pc), i)
    ensures s.procs[i].state == USED && s.procs[i].pc == Fresh
    ensures s.procs[i].parent == if s.procs[q].pc == ForkRun(i) then q else NOBODY
  {
    hide InWaitSleep;
    LifeInvAt(s, q);
    LifeInvAt(s, i);
    LifeReserve(s, q, pc);
    ForkQuiet(s, q, pc);
    WakePut(s, q, s.procs[q].(pc := pc));
    var s1 := Goto(s, q, pc);
    forall y | 0 <= y < |s1.procs| ensures Reserved(s1.procs[y].pc) != i {
      assert y != q ==> s1.procs[y].pc == s.procs[y].pc;
      assert Reserved(s.procs[q].pc) == i;
    }
  }

  /** The new process may run. */
  lemma StartKeeps(s: State, q: nat, i: nat)
    requires LifeInv(s) && WakeInv(s) && q < |s.procs| && s.procs[q].pc == ForkRun(i) && i < |s.procs|
    ensures i != q && s.procs[i].pc == Fresh
    ensures var s' := Put(Goto(s, q, User), i, s.procs[i].(state := RUNNABLE, pc := Parked(User)));
            LifeInv(s') && WakeInv(s')
  {
    hide InWaitSleep, LifeInv, WakeInv, NobodyReserves;
    UnreserveKeeps(s, q, i, User);
    var s1 := Goto(s, q, User);
    StartLives(s1, q, i);
    StartQuiet(s1, i);
    WakePut(s1, i, s1.procs[i].(state := RUNNABLE, pc := Parked(User)));
  }

  lemma StartLives(s: State, q: nat, i: nat)
    requires LifeInv(s) && q < |s.procs| && i < |s.procs| && s.procs[q].pc == User && s.procs[i].parent == q
    requires s.procs[i].state == USED && s.procs[i].pc == Fresh && NobodyReserves(s, i)
    ensures LifeInv(Put(s, i, s.procs[i].(state := RUNNABLE, pc := Parked(User))))
  {
    hide LifeInv;
    LifeInvAt(s, i);
    FreshHasNoKids(s, i);
    LifeOne(s, i, s.procs[i].(state := RUNNABLE, pc := Parked(User)));
  }

  lemma FreshHasNoKids(s: State, i: nat)
    requires LifeInv(s) && i < |s.procs| && s.procs[i].pc == Fresh
    ensures forall c :: 0 <= c < |s.procs| ==> s.procs[c].parent != i
  {
    hide RecordOk, Reserved, Linked, StateFits;
    forall c | 0 <= c < |s.procs| ensures s.procs[c].parent != i {
      LifeInvAt(s, c);
    }
  }

  lemma StartQuiet(s: State, i: nat)
    requires i < |s.procs| && s.procs[i].state == USED
    ensures var p := s.procs[i].(state := RUNNABLE, pc := Parked(User));
            Quiet(s.procs[i], p) && Promises(Put(s, i, p), i)
  {
  }

  /** The new process gets its parent. */
  lemma LinkKeeps(s: State, q: nat, i: nat)
    requires ProcessLocks.LockInv(s) && LifeInv(s) && WakeInv(s) && q < |s.procs| && s.procs[q].pc == ForkParent(i) && i < |s.procs|
    ensures var s' := Goto(Put(s.(wl := Free), i, s.procs[i].(parent := q)), q, ForkLock(i));
            i != q && LifeInv(s') && WakeInv(s')
  {
    LifeInvAt(s, q);
    LifeInvAt(s, i);
    ProcessLocks.LockInvAt(s, q);
    LinkLives(s, q, i);
    LinkWakes(s, q, i);
  }

  lemma LinkLives(s: State, q: nat, i: nat)
    requires LifeInv(s) && q < |s.procs| && s.procs[q].pc == ForkParent(i) && i < |s.procs| && i != q
    ensures LifeInv(Goto(Put(s.(wl := Free), i, s.procs[i].(parent := q)), q, ForkLock(i)))
  {
    hide MayHaveKid, RecordOk, Reserved, Linked;
    var s' := Goto(Put(s.(wl := Free), i, s.procs[i].(parent := q)), q, ForkLock(i));
    LinkReserves(i);
    forall x | 0 <= x < |s.procs| ensures LifeOf(s', x) {
      LinkRecord(s, q, i, x);
      LinkReserved(s, q, i, x);
    }
    forall x, y | 0 <= x < |s.procs| && 0 <= y < |s.procs| && Reserved(s'.procs[x].pc) == Reserved(s'.procs[y].pc) != NOBODY
      ensures x == y
    {
      assert Reserved(s.procs[x].pc) == Reserved(s.procs[y].pc) != NOBODY;
    }
  }

  lemma LinkReserves(i: nat)
    ensures Reserved(ForkParent(i)) == i == Reserved(ForkLock(i)) && !Linked(ForkParent(i)) && Linked(ForkLock(i))
  {
  }

  lemma LinkRecord(s: State, q: nat, i: nat, x: nat)
    requires LifeInv(s) && q < |s.procs| && s.procs[q].pc == ForkParent(i) && i < |s.procs| && i != q && x < |s.procs|
    ensures var s' := Goto(Put(s.(wl := Free), i, s.procs[i].(parent := q)), q, ForkLock(i));
            var p := s'.procs[x];
            RecordOk(p, x, s.init, |s.procs|) && (p.parent != NOBODY ==> MayHaveKid(s'.procs[p.parent].pc, x))
  {
    hide MayHaveKid;
    ForkersMayHaveKids(i);
    LifeInvAt(s, q);
    LifeInvAt(s, i);
    LifeInvAt(s, x);
  }

  lemma LinkReserved(s: State, q: nat, i: nat, x: nat)
    requires LifeInv(s) && q < |s.procs| && s.procs[q].pc == ForkParent(i) && i < |s.procs| && i != q && x < |s.procs|
    ensures var s' := Goto(Put(s.(wl := Free), i, s.procs[i].(parent := q)), q, ForkLock(i));
            Reserved(s'.procs[x].pc) != NOBODY ==> ReservedBy(s', x, Reserved(s'.procs[x].pc))
  {
    hide MayHaveKid, RecordOk, Reserved, Linked;
    LinkReserves(i);
    LifeInvAt(s, q);
    LifeInvAt(s, x);
    assert x != q && Reserved(s.procs[x].pc) != NOBODY ==> Reserved(s.procs[x].pc) != Reserved(s.procs[q].pc);
  }

  lemma ForkersMayHaveKids(i: nat)
    ensures forall c :: MayHaveKid(ForkLock(i), c)
  {
  }

  lemma LinkWakes(s: State, q: nat, i: nat)
    requires ProcessLocks.LockInv(s) && WakeInv(s) && q < |s.procs| && s.procs[q].pc == ForkParent(i) && i < |s.procs| && i != q
    requires s.wl == By(q) && s.procs[i].state == USED
    ensures WakeInv(Goto(Put(s.(wl := Free), i, s.procs[i].(parent := q)), q, ForkLock(i)))
  {
    hide HoldsLock, HoldsWaitLock;
    var s' := Goto(Put(s.(wl := Free), i, s.procs[i].(parent := q)), q, ForkLock(i));
    forall x | 0 <= x < |s.procs| ensures WakeOf(s', x) {
      WakeInvAt(s, x);
      forall c ensures ZombieKid(s', x, c) ==> ZombieKid(s, x, c) {
      }
      if x != q {
        OthersPromiseNothing(s, q, x);
        NoPromises(s', x);
      }
    }
  }
}
