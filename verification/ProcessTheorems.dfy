/** What holds in every interleaving of exit, wait, sleep, wakeup, kill, yield, fork, the scheduler and
    wakeups from elsewhere. */
module ProcessTheorems {
  import opened ProcessSteps
  import ProcessLocks
  import ProcessLives
  import ProcessWakeups
  import ProcessFamilies
  import ProcessExitWait
  import ProcessRuns

  /** Process `q` sleeps in wait, on its own address. */
  predicate SleepsInWait(s: State, q: nat) {
    q < |s.procs| && s.procs[q].state == SLEEPING && s.procs[q].chan == q
  }

  /** No wakeup is lost: when nobody holds `wait_lock`, no process sleeps in wait while it has a
      zombie child. While `wait_lock` is held, the one process that can is init, and the holder is an
      exiting process that has yet to wake it. */
  lemma NoLostWakeup(run: seq<State>, n: nat, init: nat, k: nat, q: nat, c: nat)
    requires ProcessRuns.Run(run, n, init) && k < |run| && SleepsInWait(run[k], q) && ProcessWakeups.ZombieKid(run[k], q, c)
    ensures ProcessWakeups.PendingWake(run[k], q) && run[k].wl != Free && q == run[k].init
  {
    hide ProcessLocks.LockInv, ProcessWakeups.WakeInv, ProcessLives.LifeInv, ProcessRuns.Run;
    ProcessRuns.RunInv(run, n, init, k);
    var s := run[k];
    ProcessLives.LifeInvAt(s, q);
    ProcessWakeups.WakeInvAt(s, q);
    assert ProcessWakeups.InWaitSleep(s.procs[q]);
    assert ProcessWakeups.ZombieKid(s, q, c);
  }

  /** A process stops being a zombie only when its current parent, in wait, frees it; by then it has
      switched off its CPU for good, and the parent holds its lock. */
  lemma OnlyParentFrees(s: State, e: Event, i: nat)
    requires ProcessExitWait.Inv(s) && Can(s, e) && i < |s.procs| && s.procs[i].state == ZOMBIE
    requires |After(s, e).procs| == |s.procs| && After(s, e).procs[i].state != ZOMBIE
    ensures e.Thread? && s.procs[e.q].pc == WaitCheck(i) && s.procs[i].parent == e.q
    ensures s.procs[i].pc == Gone && s.procs[i].lk == By(e.q) && s.wl == By(e.q)
    ensures After(s, e).procs[i].state == UNUSED
  {
    hide ProcessLocks.LockInv, ProcessLives.LifeInv, ProcessWakeups.WakeInv;
    ProcessLives.LifeInvAt(s, i);
    match e
    case Thread(q, c) =>
      OnlyWaitFrees(s, q, c, i);
      ProcessLocks.LockInvAt(s, q);
      ProcessFamilies.ZombieIsGone(s, q, i);
      ProcessFamilies.FreeKeeps(s, q, i);
    case Timer(q) =>
    case Pick(p) =>
    case Release(p) =>
    case Notify(p) =>
  }

  lemma OnlyWaitFrees(s: State, q: nat, c: Choice, i: nat)
    requires ProcessLives.LifeInv(s) && Enabled(s, q) && i < |s.procs| && s.procs[i].state == ZOMBIE
    requires |ThreadStep(s, q, c).procs| == |s.procs| && ThreadStep(s, q, c).procs[i].state != ZOMBIE
    ensures s.procs[q].pc == WaitCheck(i) && ThreadStep(s, q, c).procs[i].state == UNUSED
  {
    hide ProcessLives.LifeInv, ExitStep, WaitStep, SleepStep, KillStep, ForkStep;
    ProcessLives.LifeInvAt(s, q);
    ReservedNotZombie(s, q);
    OthersKeepZombie(s, q, c, i);
  }

  /** No step but that of wait turns a zombie into something else. */
  lemma OthersKeepZombie(s: State, q: nat, c: Choice, i: nat)
    requires q < |s.procs| && i < |s.procs| && s.procs[i].state == ZOMBIE && ProcessLives.StateFits(s.procs[q].state, s.procs[q].pc)
    requires ProcessLives.Reserved(s.procs[q].pc) != NOBODY ==>
               0 <= ProcessLives.Reserved(s.procs[q].pc) < |s.procs| && s.procs[ProcessLives.Reserved(s.procs[q].pc)].state == USED
    ensures |ExitStep(s, q).procs| == |s.procs| && ExitStep(s, q).procs[i].state == ZOMBIE
    ensures |SleepStep(s, q).procs| == |s.procs| && SleepStep(s, q).procs[i].state == ZOMBIE
    ensures |KillStep(s, q, c).procs| == |s.procs| && KillStep(s, q, c).procs[i].state == ZOMBIE
    ensures |ForkStep(s, q, c).procs| == |s.procs| && ForkStep(s, q, c).procs[i].state == ZOMBIE
    ensures |WaitStep(s, q, c).procs| == |s.procs|
    ensures WaitStep(s, q, c).procs[i].state == ZOMBIE || (s.procs[q].pc == WaitCheck(i) && WaitStep(s, q, c).procs[i].state == UNUSED)
  {
    hide ExitStep, SleepStep, KillStep, ForkStep, WaitStep, ProcessLives.StateFits, ProcessLives.Reserved;
    ExitKeepsZombie(s, q, i);
    SleepKeepsZombie(s, q, i);
    KillKeepsZombie(s, q, c, i);
    ForkKeepsZombie(s, q, c, i);
    WaitKeepsZombie(s, q, c, i);
  }

  lemma ExitKeepsZombie(s: State, q: nat, i: nat)
    requires q < |s.procs| && i < |s.procs| && s.procs[i].state == ZOMBIE
    ensures |ExitStep(s, q).procs| == |s.procs| && ExitStep(s, q).procs[i].state == ZOMBIE
  {
  }

  lemma SleepKeepsZombie(s: State, q: nat, i: nat)
    requires q < |s.procs| && i < |s.procs| && s.procs[i].state == ZOMBIE && ProcessLives.StateFits(s.procs[q].state, s.procs[q].pc)
    ensures |SleepStep(s, q).procs| == |s.procs| && SleepStep(s, q).procs[i].state == ZOMBIE
  {
    hide ProcessLives.StateFits;
    AwakeIsNotZombie(s.procs[q]);
  }

  lemma KillKeepsZombie(s: State, q: nat, c: Choice, i: nat)
    requires q < |s.procs| && i < |s.procs| && s.procs[i].state == ZOMBIE
    ensures |KillStep(s, q, c).procs| == |s.procs| && KillStep(s, q, c).procs[i].state == ZOMBIE
  {
  }

  lemma ForkKeepsZombie(s: State, q: nat, c: Choice, i: nat)
    requires q < |s.procs| && i < |s.procs| && s.procs[i].state == ZOMBIE
    requires ProcessLives.Reserved(s.procs[q].pc) != NOBODY ==>
               0 <= ProcessLives.Reserved(s.procs[q].pc) < |s.procs| && s.procs[ProcessLives.Reserved(s.procs[q].pc)].state == USED
    ensures |ForkStep(s, q, c).procs| == |s.procs| && ForkStep(s, q, c).procs[i].state == ZOMBIE
  {
  }

  lemma WaitKeepsZombie(s: State, q: nat, c: Choice, i: nat)
    requires q < |s.procs| && i < |s.procs| && s.procs[i].state == ZOMBIE
    ensures |WaitStep(s, q, c).procs| == |s.procs|
    ensures WaitStep(s, q, c).procs[i].state == ZOMBIE || (s.procs[q].pc == WaitCheck(i) && WaitStep(s, q, c).procs[i].state == UNUSED)
  {
  }

  lemma AwakeIsNotZombie(p: Proc)
    requires ProcessLives.StateFits(p.state, p.pc)
    ensures p.state == ZOMBIE <==> p.pc.ExitRel? || p.pc.ExitSched? || p.pc == Gone
  {
  }

  lemma ReservedNotZombie(s: State, q: nat)
    requires ProcessLives.LifeInv(s) && q < |s.procs|
    ensures ProcessLives.Reserved(s.procs[q].pc) != NOBODY ==>
              0 <= ProcessLives.Reserved(s.procs[q].pc) < |s.procs| && s.procs[ProcessLives.Reserved(s.procs[q].pc)].state == USED
  {
    ProcessLives.LifeInvAt(s, q);
  }

  /** Each slot has been freed as often as it has become a zombie, but for the zombie it may hold. */
  lemma FreedExactlyOnce(run: seq<State>, n: nat, init: nat, k: nat, x: nat)
    requires ProcessRuns.Run(run, n, init) && k < |run| && x < |run[k].procs|
    ensures var p := run[k].procs[x]; p.counts.exits == p.counts.frees + if p.state == ZOMBIE then 1 else 0
  {
    hide ProcessLocks.LockInv, ProcessWakeups.WakeInv, ProcessLives.LifeInv, ProcessRuns.Run;
    ProcessRuns.RunInv(run, n, init, k);
    ProcessLives.LifeInvAt(run[k], x);
  }

  /** A zombie has a parent that has not exited. */
  lemma ZombieHasLivingParent(run: seq<State>, n: nat, init: nat, k: nat, z: nat)
    requires ProcessRuns.Run(run, n, init) && k < |run| && z < |run[k].procs| && run[k].procs[z].state == ZOMBIE
    ensures var p := run[k].procs[z].parent;
            0 <= p < |run[k].procs| && p != z && run[k].procs[p].state in {SLEEPING, RUNNABLE, RUNNING}
  {
    hide ProcessLocks.LockInv, ProcessWakeups.WakeInv, ProcessLives.LifeInv, ProcessRuns.Run;
    ProcessRuns.RunInv(run, n, init, k);
    var s := run[k];
    ProcessLives.LifeInvAt(s, z);
    ProcessLives.LifeInvAt(s, s.procs[z].parent);
  }

  /** A scan in wait that has come to its end without meeting a child has overlooked none. */
  lemma NoChildOverlooked(run: seq<State>, n: nat, init: nat, k: nat, q: nat, c: nat)
    requires ProcessRuns.Run(run, n, init) && k < |run| && q < |run[k].procs| && c < |run[k].procs|
    requires run[k].procs[q].pc == WaitScan(|run[k].procs|, false)
    ensures run[k].procs[c].parent != q
  {
    hide ProcessLocks.LockInv, ProcessWakeups.WakeInv, ProcessLives.LifeInv, ProcessRuns.Run;
    ProcessRuns.RunInv(run, n, init, k);
    ProcessWakeups.WakeInvAt(run[k], q);
  }

  /** The panics of `sched` and `acquire` cannot occur: a thread that switches to the scheduler holds
      its own lock and no other and is not in state RUNNING; no thread waits for a lock it holds. */
  lemma NoLockPanic(run: seq<State>, n: nat, init: nat, k: nat, q: nat)
    requires ProcessRuns.Run(run, n, init) && k < |run| && q < |run[k].procs|
    ensures var s, pc := run[k], run[k].procs[q].pc;
            && (pc.ExitSched? || pc.SleepSched? || pc.YieldSched? ==>
                  s.procs[q].lk == By(q) && s.wl != By(q) && s.procs[q].state != RUNNING
                  && forall i :: 0 <= i < |s.procs| && i != q ==> s.procs[i].lk != By(q))
            && (Wants(s, q) != NOBODY ==> forall i :: 0 <= i < |s.procs| ==> s.procs[i].lk != By(q))
            && (WantsWaitLock(pc) ==> s.wl != By(q))
  {
    hide ProcessLocks.LockInv, ProcessWakeups.WakeInv, ProcessLives.LifeInv, ProcessRuns.Run;
    ProcessRuns.RunInv(run, n, init, k);
    var s := run[k];
    ProcessLocks.LockInvAt(s, q);
    ProcessLives.LifeInvAt(s, q);
    WaitLockHolder(s);
    forall i | 0 <= i < |s.procs| && s.procs[i].lk == By(q) ensures HoldsLock(s.procs[q].pc, q) == i {
      ProcessLocks.LockInvAt(s, i);
    }
  }

  lemma WaitLockHolder(s: State)
    requires ProcessLocks.LockInv(s)
    ensures s.wl != Sched && (s.wl.By? ==> s.wl.q < |s.procs| && HoldsWaitLock(s.procs[s.wl.q].pc))
  {
  }

  /** Locks never deadlock: whoever holds a process lock can go on, and whoever holds `wait_lock` can
      go on or waits for a process lock whose holder can go on. */
  lemma LocksNeverDeadlock(run: seq<State>, n: nat, init: nat, k: nat)
    requires ProcessRuns.Run(run, n, init) && k < |run|
    ensures forall i :: 0 <= i < |run[k].procs| ==> HolderGoesOn(run[k], i)
    ensures var s := run[k];
            s.wl.By? ==> s.wl.q < |s.procs|
                         && (Enabled(s, s.wl.q) || (0 <= Wants(s, s.wl.q) < |s.procs| && s.procs[Wants(s, s.wl.q)].lk != Free))
  {
    hide ProcessLocks.LockInv, ProcessWakeups.WakeInv, ProcessLives.LifeInv, ProcessRuns.Run;
    ProcessRuns.RunInv(run, n, init, k);
    var s := run[k];
    WaitLockHolder(s);
    forall i | 0 <= i < |s.procs| ensures HolderGoesOn(s, i) {
      ProcessLocks.LockInvAt(s, i);
      if s.procs[i].lk.By? {
        ProcessLocks.LockInvAt(s, s.procs[i].lk.q);
      }
    }
    if s.wl.By? {
      ProcessLocks.LockInvAt(s, s.wl.q);
    }
  }

  predicate HolderGoesOn(s: State, i: nat)
    requires i < |s.procs|
  {
    match s.procs[i].lk
    case Free => true
    case Sched => CanRelease(s, i)
    case By(q) => Enabled(s, q)
  }
}
