/** Which step may change what in the process table, in every interleaving: the life of a slot, its parent, the
    killed flag, and when the calls may return. */
module ProcessLaws {
  import opened ProcessSteps
  import ProcessLocks
  import ProcessLives
  import ProcessWakeups
  import ProcessFamilies
  import ProcessExitWait
  import ProcessRuns
  import ProcessAlone

  // ---- The life of a slot ----

  /** The run state of slot `i`, with record `p`, may become `b` by a step of thread `q` at `pc`, which if it is a wakeup
      is one on `chan`. */
  predicate ByThread(p: Proc, b: RunState, q: nat, pc: Pc, i: nat, chan: int) {
    match (p.state, b)
    case (UNUSED, USED) => pc == ForkCheck(i)
    case (USED, UNUSED) => pc == ForkMake(i)
    case (USED, RUNNABLE) => pc == ForkRun(i)
    case (RUNNING, RUNNABLE) => q == i && pc.YieldMark?
    case (RUNNING, SLEEPING) => q == i && pc.SleepMark?
    case (RUNNING, ZOMBIE) => q == i && pc == ExitMark
    case (SLEEPING, RUNNABLE) => pc == KillDo(i) || ((pc.ExitWake? || pc.ExitTell?) && pc.j == i && pc.held && p.chan == chan)
    case (ZOMBIE, UNUSED) => pc == WaitCheck(i)
    case _ => false
  }

  /** The channel of the wakeup that an exiting thread runs: that of its parent once it has given its children away,
      that of init before. */
  function Chan(s: State, q: nat): int
    requires q < |s.procs|
  {
    if s.procs[q].pc.ExitTell? then s.procs[q].parent else s.init
  }

  /** What a step may do to slot `i` under its lock. */
  predicate SlotStep(p: Proc, p': Proc, q: nat, pc: Pc, i: nat, chan: int) {
    && (p'.state != p.state ==> ByThread(p, p'.state, q, pc, i, chan) && p.lk == By(q))
    && (p'.killed && !p.killed ==> pc == KillDo(i) && p'.state != SLEEPING)
    && (p.killed && !p'.killed ==> p'.state == UNUSED)
  }

  lemma ExitSlot(s: State, q: nat, i: nat)
    requires ProcessExitWait.Inv(s) && Enabled(s, q) && Wants(s, q) == NOBODY && i < |s.procs|
    ensures |ExitStep(s, q).procs| == |s.procs|
    ensures SlotStep(s.procs[i], ExitStep(s, q).procs[i], q, s.procs[q].pc, i, Chan(s, q))
  {
    hide ProcessLocks.LockInv, ProcessLives.LifeInv, ProcessWakeups.WakeInv;
    ProcessLocks.LockInvAt(s, q);
    ProcessLives.LifeInvAt(s, q);
  }

  lemma WaitSlot(s: State, q: nat, c: Choice, i: nat)
    requires ProcessExitWait.Inv(s) && Enabled(s, q) && Wants(s, q) == NOBODY && i < |s.procs|
    ensures |WaitStep(s, q, c).procs| == |s.procs|
    ensures SlotStep(s.procs[i], WaitStep(s, q, c).procs[i], q, s.procs[q].pc, i, Chan(s, q))
  {
    hide ProcessLocks.LockInv, ProcessLives.LifeInv, ProcessWakeups.WakeInv;
    ProcessLocks.LockInvAt(s, q);
    ProcessLives.LifeInvAt(s, q);
  }

  lemma SleepSlot(s: State, q: nat, i: nat)
    requires ProcessExitWait.Inv(s) && Enabled(s, q) && Wants(s, q) == NOBODY && i < |s.procs|
    ensures |SleepStep(s, q).procs| == |s.procs|
    ensures SlotStep(s.procs[i], SleepStep(s, q).procs[i], q, s.procs[q].pc, i, Chan(s, q))
  {
    hide ProcessLocks.LockInv, ProcessLives.LifeInv, ProcessWakeups.WakeInv;
    ProcessLocks.LockInvAt(s, q);
    ProcessLives.LifeInvAt(s, q);
  }

  lemma KillSlot(s: State, q: nat, c: Choice, i: nat)
    requires ProcessExitWait.Inv(s) && Enabled(s, q) && Wants(s, q) == NOBODY && i < |s.procs|
    ensures |KillStep(s, q, c).procs| == |s.procs|
    ensures SlotStep(s.procs[i], KillStep(s, q, c).procs[i], q, s.procs[q].pc, i, Chan(s, q))
  {
    hide ProcessLocks.LockInv, ProcessLives.LifeInv, ProcessWakeups.WakeInv;
    ProcessLocks.LockInvAt(s, q);
    ProcessLives.LifeInvAt(s, q);
  }

  lemma ForkSlot(s: State, q: nat, c: Choice, i: nat)
    requires ProcessExitWait.Inv(s) && Enabled(s, q) && Wants(s, q) == NOBODY && i < |s.procs|
    ensures |ForkStep(s, q, c).procs| == |s.procs|
    ensures SlotStep(s.procs[i], ForkStep(s, q, c).procs[i], q, s.procs[q].pc, i, Chan(s, q))
  {
    hide ProcessLocks.LockInv, ProcessLives.LifeInv, ProcessWakeups.WakeInv;
    ProcessLocks.LockInvAt(s, q);
    ProcessLives.LifeInvAt(s, q);
  }

  /** Every step of a thread: a slot changes its run state only under its lock, held by the thread, and only as the
      calls have it; a process is marked as killed by kill alone, which leaves it awake, and the mark goes only
      when the slot is freed. */
  lemma ThreadSlot(s: State, q: nat, c: Choice, i: nat)
    requires ProcessExitWait.Inv(s) && Enabled(s, q) && i < |s.procs|
    ensures |ThreadStep(s, q, c).procs| == |s.procs|
    ensures SlotStep(s.procs[i], ThreadStep(s, q, c).procs[i], q, s.procs[q].pc, i, Chan(s, q))
  {
    hide ProcessExitWait.Inv, ExitStep, WaitStep, SleepStep, KillStep, ForkStep, SlotStep;
    if Wants(s, q) != NOBODY {
      TakenSlot(s, q, i);
    } else {
      ExitSlot(s, q, i);
      WaitSlot(s, q, c, i);
      SleepSlot(s, q, i);
      KillSlot(s, q, c, i);
      ForkSlot(s, q, c, i);
      SameSlot(s.procs[i], q, s.procs[q].pc, i, Chan(s, q), s.procs[i].pc, s.procs[i].lk);
      SameSlot(s.procs[i], q, s.procs[q].pc, i, Chan(s, q), StartCall(c), s.procs[i].lk);
    }
  }

  lemma SameSlot(p: Proc, q: nat, pc: Pc, i: nat, chan: int, pc': Pc, lk': Holder)
    ensures SlotStep(p, p.(pc := pc', lk := lk'), q, pc, i, chan)
  {
  }

  lemma TakenSlot(s: State, q: nat, i: nat)
    requires Enabled(s, q) && Wants(s, q) != NOBODY && i < |s.procs|
    ensures var s' := TakeLock(s, q, Wants(s, q), Locked(s, q));
            |s'.procs| == |s.procs| && SlotStep(s.procs[i], s'.procs[i], q, s.procs[q].pc, i, Chan(s, q))
  {
    hide Locked, Wants, ByThread;
  }

  /** The life of a slot, over all steps: besides what threads do, the scheduler makes a runnable process run, and
      a wakeup from elsewhere makes a process runnable that sleeps elsewhere than in wait. */
  lemma LifeCycle(s: State, e: Event, i: nat)
    requires ProcessExitWait.Inv(s) && Can(s, e) && i < |s.procs|
    ensures |After(s, e).procs| == |s.procs|
    ensures var p, p' := s.procs[i], After(s, e).procs[i];
            match e
            case Thread(q, c) => SlotStep(p, p', q, s.procs[q].pc, i, Chan(s, q))
            case Timer(q) => p'.state == p.state && p'.killed == p.killed
            case Pick(x) =>
              p'.killed == p.killed
              && if x == i then p.state == RUNNABLE && p'.state == RUNNING else p'.state == p.state
            case Release(x) => p'.state == p.state && p'.killed == p.killed
            case Notify(x) =>
              p'.killed == p.killed
              && if x == i then p.state == SLEEPING && p.chan == OTHER_CHAN && p'.state == RUNNABLE else p'.state == p.state
  {
    hide ProcessExitWait.Inv, ThreadStep;
    match e
    case Thread(q, c) => ThreadSlot(s, q, c, i);
    case _ =>
  }

  // ---- Parents ----

  /** The parent of a slot changes only when fork sets it, when its parent, exiting, gives it to init, or when the
      slot is freed: by its parent in wait, or by fork when it had no parent yet. */
  predicate ParentStep(s: State, q: nat, p: Proc, p': Proc, i: nat)
    requires q < |s.procs|
  {
    p'.parent != p.parent ==>
      match s.procs[q].pc
      case ForkParent(j) => j == i && p.parent == NOBODY && p'.parent == q && s.wl == By(q)
      case ExitScan(j) => j == i && p.parent == q && p'.parent == s.init && s.wl == By(q)
      case WaitCheck(j) => j == i && p.parent == q && p.state == ZOMBIE && p'.parent == NOBODY && s.wl == By(q)
      case _ => false
  }

  lemma ParentsKept(s: State, q: nat, c: Choice, i: nat)
    requires ProcessExitWait.Inv(s) && Enabled(s, q) && Wants(s, q) == NOBODY && i < |s.procs|
    ensures |SleepStep(s, q).procs| == |s.procs| && SleepStep(s, q).procs[i].parent == s.procs[i].parent
    ensures |KillStep(s, q, c).procs| == |s.procs| && KillStep(s, q, c).procs[i].parent == s.procs[i].parent
  {
    hide ProcessLocks.LockInv, ProcessLives.LifeInv, ProcessWakeups.WakeInv;
    ProcessLocks.LockInvAt(s, q);
  }

  lemma ExitParents(s: State, q: nat, i: nat)
    requires ProcessExitWait.Inv(s) && Enabled(s, q) && Wants(s, q) == NOBODY && i < |s.procs|
    ensures |ExitStep(s, q).procs| == |s.procs| && ParentStep(s, q, s.procs[i], ExitStep(s, q).procs[i], i)
  {
    hide ProcessLocks.LockInv, ProcessLives.LifeInv, ProcessWakeups.WakeInv;
    ProcessLocks.LockInvAt(s, q);
  }

  lemma WaitParents(s: State, q: nat, c: Choice, i: nat)
    requires ProcessExitWait.Inv(s) && Enabled(s, q) && Wants(s, q) == NOBODY && i < |s.procs|
    ensures |WaitStep(s, q, c).procs| == |s.procs| && ParentStep(s, q, s.procs[i], WaitStep(s, q, c).procs[i], i)
  {
    hide ProcessLocks.LockInv, ProcessLives.LifeInv, ProcessWakeups.WakeInv;
    ProcessLocks.LockInvAt(s, q);
    ProcessWakeups.WakeInvAt(s, q);
  }

  lemma ForkParents(s: State, q: nat, c: Choice, i: nat)
    requires ProcessExitWait.Inv(s) && Enabled(s, q) && Wants(s, q) == NOBODY && i < |s.procs|
    ensures |ForkStep(s, q, c).procs| == |s.procs| && ParentStep(s, q, s.procs[i], ForkStep(s, q, c).procs[i], i)
  {
    hide ProcessLocks.LockInv, ProcessLives.LifeInv, ProcessWakeups.WakeInv;
    ProcessLocks.LockInvAt(s, q);
    ProcessLives.LifeInvAt(s, q);
  }

  lemma ThreadParents(s: State, q: nat, c: Choice, i: nat)
    requires ProcessExitWait.Inv(s) && Enabled(s, q) && i < |s.procs|
    ensures |ThreadStep(s, q, c).procs| == |s.procs| && ParentStep(s, q, s.procs[i], ThreadStep(s, q, c).procs[i], i)
  {
    hide ProcessExitWait.Inv, ExitStep, WaitStep, SleepStep, KillStep, ForkStep;
    if Wants(s, q) != NOBODY {
      hide Wants, Locked;
    } else {
      ParentsKept(s, q, c, i);
      ExitParents(s, q, i);
      WaitParents(s, q, c, i);
      ForkParents(s, q, c, i);
    }
  }

  // ---- When wait may give up, and when it sleeps ----

  predicate InWait(pc: Pc) {
    match pc
    case WaitAcq | WaitScan(_, _) | WaitCheck(_) | WaitAsk | WaitAsked | WaitRel => true
    case SleepAcq(w) => w
    case SleepRel(w) => w
    case SleepMark(w) => w
    case SleepSched(w) => w
    case Asleep(w) => w
    case Woken(w) => w
    case YieldAcq(b) => b == WaitAcq
    case YieldMark(b) => b == WaitAcq
    case YieldSched(b) => b == WaitAcq
    case Parked(b) => b == WaitAcq
    case Resumed(b) => b == WaitAcq
    case _ => false
  }

  /** From the beginning of the scan to falling asleep. */
  predicate Deciding(pc: Pc) {
    match pc
    case WaitScan(_, _) | WaitCheck(_) | WaitAsk | WaitAsked => true
    case SleepAcq(w) => w
    case SleepRel(w) => w
    case SleepMark(w) => w
    case _ => false
  }

  /** What lets wait give up in state `s`: the process has been killed; it has no child; it has found a zombie child,
      whose slot `s'` shows freed, or left as it was. */
  ghost predicate MayGiveUp(s: State, s': State, q: nat)
    requires q < |s.procs| == |s'.procs|
  {
    match s.procs[q].pc
    case WaitAsked => s.procs[q].killed
    case WaitScan(_, _) => !ProcessAlone.HasKid(s, q)
    case WaitCheck(c) =>
      && c < |s.procs| && s.procs[c].parent == q && s.procs[c].state == ZOMBIE
      && (s'.procs[c] == ProcessAlone.Reaped(s.procs[c]) || s'.procs[c] == s.procs[c].(lk := Free))
    case _ => false
  }

  /** What thread `q` may do next in wait. */
  ghost predicate WaitMove(s: State, s': State, q: nat)
    requires q < |s.procs| == |s'.procs|
  {
    var pc, p' := s.procs[q].pc, s'.procs[q];
    && (InWait(pc) ==> InWait(p'.pc) || (pc == WaitRel && p'.pc == User))
    && (p'.pc == WaitRel && pc != WaitRel ==> MayGiveUp(s, s', q))
    && (Deciding(pc) ==> Deciding(p'.pc) || p'.pc == WaitRel || (p'.state == SLEEPING && p'.chan == q))
  }

  predicate AtWait(pc: Pc) {
    match pc
    case WaitAcq | WaitScan(_, _) | WaitCheck(_) | WaitAsked | WaitRel => true
    case _ => false
  }

  lemma WaitStepMoves(s: State, q: nat, c: Choice)
    requires ProcessExitWait.Inv(s) && Enabled(s, q) && Wants(s, q) == NOBODY && AtWait(s.procs[q].pc)
    ensures |WaitStep(s, q, c).procs| == |s.procs| && WaitMove(s, WaitStep(s, q, c), q)
  {
    hide ProcessLocks.LockInv, ProcessLives.LifeInv, ProcessWakeups.WakeInv;
    ProcessLocks.LockInvAt(s, q);
    ProcessLives.LifeInvAt(s, q);
    ScanSaysSo(s, q);
  }

  /** What the scan has found is so. */
  lemma ScanSaysSo(s: State, q: nat)
    requires ProcessExitWait.Inv(s) && q < |s.procs|
    ensures s.procs[q].pc.WaitScan? && s.procs[q].pc.i >= |s.procs| && !s.procs[q].pc.kids ==> !ProcessAlone.HasKid(s, q)
    ensures s.procs[q].pc.WaitCheck? ==>
              s.procs[q].pc.i < |s.procs| && s.procs[q].pc.i != q && s.procs[s.procs[q].pc.i].parent == q
    ensures s.procs[q].pc.WaitCheck? && s.procs[s.procs[q].pc.i].state == ZOMBIE ==>
              Freed(s.procs[s.procs[q].pc.i]).(lk := Free) == ProcessAlone.Reaped(s.procs[s.procs[q].pc.i])
  {
    hide ProcessLocks.LockInv, ProcessLives.LifeInv, ProcessWakeups.WakeInv;
    ProcessLocks.LockInvAt(s, q);
    ProcessLives.LifeInvAt(s, q);
    ProcessWakeups.WakeInvAt(s, q);
    if s.procs[q].pc.WaitCheck? {
      ProcessLives.LifeInvAt(s, s.procs[q].pc.i);
    }
  }

  lemma SleepStepMoves(s: State, q: nat)
    requires ProcessExitWait.Inv(s) && Enabled(s, q) && ProcessRuns.AtSleep(s.procs[q].pc)
    ensures |SleepStep(s, q).procs| == |s.procs| && WaitMove(s, SleepStep(s, q), q)
  {
    hide ProcessLocks.LockInv, ProcessLives.LifeInv, ProcessWakeups.WakeInv;
    ProcessLocks.LockInvAt(s, q);
  }

  lemma TakeMoves(s: State, q: nat)
    requires Enabled(s, q) && Wants(s, q) != NOBODY
    ensures var s' := TakeLock(s, q, Wants(s, q), Locked(s, q)); |s'.procs| == |s.procs| && WaitMove(s, s', q)
  {
  }

  /** No other call leads to the end of wait. */
  lemma ElsewhereMoves(s: State, q: nat, c: Choice)
    requires q < |s.procs| && !InWait(s.procs[q].pc)
    ensures |ExitStep(s, q).procs| == |s.procs| && WaitMove(s, ExitStep(s, q), q)
    ensures |KillStep(s, q, c).procs| == |s.procs| && WaitMove(s, KillStep(s, q, c), q)
    ensures WaitMove(s, Goto(s, q, StartCall(c)), q) && WaitMove(s, s, q)
  {
  }

  lemma ForkMoves(s: State, q: nat, c: Choice)
    requires ProcessExitWait.Inv(s) && Enabled(s, q) && Wants(s, q) == NOBODY && !InWait(s.procs[q].pc)
    ensures |ForkStep(s, q, c).procs| == |s.procs| && WaitMove(s, ForkStep(s, q, c), q)
  {
    hide ProcessLocks.LockInv, ProcessLives.LifeInv, ProcessWakeups.WakeInv;
    ProcessLives.LifeInvAt(s, q);
  }

  /** Every step of a thread, as far as wait is concerned: it leaves wait only by its end, gets there only for a reason,
      and goes from deciding to that end or to sleep on its own address. */
  lemma ThreadMoves(s: State, q: nat, c: Choice)
    requires ProcessExitWait.Inv(s) && Enabled(s, q)
    ensures |ThreadStep(s, q, c).procs| == |s.procs| && WaitMove(s, ThreadStep(s, q, c), q)
  {
    hide ProcessExitWait.Inv, ExitStep, WaitStep, SleepStep, KillStep, ForkStep, WaitMove, MayGiveUp, Deciding, Wants;
    var pc := s.procs[q].pc;
    if Wants(s, q) != NOBODY {
      hide Locked;
      TakeMoves(s, q);
    } else if AtWait(pc) {
      WaitStepMoves(s, q, c);
    } else if ProcessRuns.AtSleep(pc) {
      SleepStepMoves(s, q);
    } else {
      NotWaiting(s, q);
      ElsewhereMoves(s, q, c);
      ForkMoves(s, q, c);
    }
  }

  lemma NotWaiting(s: State, q: nat)
    requires Enabled(s, q) && Wants(s, q) == NOBODY && !AtWait(s.procs[q].pc) && !ProcessRuns.AtSleep(s.procs[q].pc)
    ensures !InWait(s.procs[q].pc)
  {
  }

  // ---- The steps of others ----

  /** The program counter of a process that is in a call is its own affair. */
  lemma OthersKeepPc(s: State, q: nat, c: Choice, x: nat)
    requires ProcessExitWait.Inv(s) && Enabled(s, q) && x < |s.procs| && x != q && InWait(s.procs[x].pc)
    ensures |ThreadStep(s, q, c).procs| == |s.procs| && ThreadStep(s, q, c).procs[x].pc == s.procs[x].pc
  {
    hide ProcessLocks.LockInv, ProcessLives.LifeInv, ProcessWakeups.WakeInv, ExitStep, WaitStep, SleepStep, KillStep,
      ForkStep, Wants, Locked;
    NeverFreed(s, x);
    ExitKeepsPc(s, q, x);
    WaitKeepsPc(s, q, c, x);
    SleepKeepsPc(s, q, c, x);
    ForkKeepsPc(s, q, c, x);
  }

  lemma NeverFreed(s: State, x: nat)
    requires ProcessExitWait.Inv(s) && x < |s.procs| && InWait(s.procs[x].pc)
    ensures s.procs[x].state != ZOMBIE && s.procs[x].state != USED && s.procs[x].state != UNUSED
  {
    hide ProcessLocks.LockInv, ProcessLives.LifeInv, ProcessWakeups.WakeInv;
    ProcessLives.LifeInvAt(s, x);
  }

  lemma ExitKeepsPc(s: State, q: nat, x: nat)
    requires q < |s.procs| && x < |s.procs| && x != q
    ensures |ExitStep(s, q).procs| == |s.procs| && ExitStep(s, q).procs[x].pc == s.procs[x].pc
  {
  }

  lemma WaitKeepsPc(s: State, q: nat, c: Choice, x: nat)
    requires q < |s.procs| && x < |s.procs| && x != q && s.procs[x].state != ZOMBIE
    ensures |WaitStep(s, q, c).procs| == |s.procs| && WaitStep(s, q, c).procs[x].pc == s.procs[x].pc
  {
  }

  lemma SleepKeepsPc(s: State, q: nat, c: Choice, x: nat)
    requires q < |s.procs| && x < |s.procs| && x != q
    ensures |SleepStep(s, q).procs| == |s.procs| && SleepStep(s, q).procs[x].pc == s.procs[x].pc
    ensures |KillStep(s, q, c).procs| == |s.procs| && KillStep(s, q, c).procs[x].pc == s.procs[x].pc
  {
  }

  lemma ForkKeepsPc(s: State, q: nat, c: Choice, x: nat)
    requires ProcessExitWait.Inv(s) && Enabled(s, q) && x < |s.procs| && x != q && s.procs[x].state != USED
    ensures |ForkStep(s, q, c).procs| == |s.procs| && ForkStep(s, q, c).procs[x].pc == s.procs[x].pc
  {
    hide ProcessLocks.LockInv, ProcessLives.LifeInv, ProcessWakeups.WakeInv;
    ProcessLives.LifeInvAt(s, q);
  }

  lemma StepMoves(s: State, e: Event, q: nat)
    requires ProcessExitWait.Inv(s) && Can(s, e) && q < |s.procs|
    ensures |After(s, e).procs| == |s.procs| && WaitMove(s, After(s, e), q)
  {
    hide ProcessExitWait.Inv, ThreadStep;
    match e
    case Thread(x, c) =>
      if x == q {
        ThreadMoves(s, q, c);
      } else {
        OtherThreadMoves(s, x, c, q);
      }
    case Timer(x) =>
    case Pick(x) => PickMoves(s, x, q);
    case Release(x) =>
    case Notify(x) =>
  }

  lemma OtherThreadMoves(s: State, x: nat, c: Choice, q: nat)
    requires ProcessExitWait.Inv(s) && Enabled(s, x) && q < |s.procs| && q != x
    ensures |ThreadStep(s, x, c).procs| == |s.procs| && WaitMove(s, ThreadStep(s, x, c), q)
  {
    hide ProcessExitWait.Inv, ThreadStep;
    ThreadSlot(s, x, c, q);
    if InWait(s.procs[q].pc) {
      OthersKeepPc(s, x, c, q);
    } else {
      StaysOutside(s, x, c, q);
    }
  }

  /** Nobody else puts a process into wait. */
  lemma StaysOutside(s: State, x: nat, c: Choice, q: nat)
    requires ProcessExitWait.Inv(s) && Enabled(s, x) && q < |s.procs| && q != x && !InWait(s.procs[q].pc)
    ensures |ThreadStep(s, x, c).procs| == |s.procs| && ThreadStep(s, x, c).procs[q].pc != WaitRel
  {
    hide ProcessExitWait.Inv, ExitStep, WaitStep, SleepStep, KillStep, ForkStep, Wants, Locked;
    ExitKeepsPc(s, x, q);
    SleepKeepsPc(s, x, c, q);
    FreedOrStarted(s, x, c, q);
  }

  lemma FreedOrStarted(s: State, x: nat, c: Choice, q: nat)
    requires x < |s.procs| && q < |s.procs| && q != x
    ensures |WaitStep(s, x, c).procs| == |s.procs| && WaitStep(s, x, c).procs[q].pc in {s.procs[q].pc, Fresh}
    ensures |ForkStep(s, x, c).procs| == |s.procs| && ForkStep(s, x, c).procs[q].pc in {s.procs[q].pc, Fresh, Parked(User)}
  {
  }

  lemma PickMoves(s: State, x: nat, q: nat)
    requires ProcessExitWait.Inv(s) && CanDispatch(s, x) && q < |s.procs|
    ensures |Dispatch(s, x).procs| == |s.procs| && WaitMove(s, Dispatch(s, x), q)
  {
    hide ProcessLocks.LockInv, ProcessLives.LifeInv, ProcessWakeups.WakeInv;
    ProcessLives.LifeInvAt(s, x);
  }

  // ---- Runs ----

  lemma RunStep(run: seq<State>, n: nat, init: nat, k: nat) returns (e: Event)
    requires ProcessRuns.Run(run, n, init) && k + 1 < |run|
    ensures ProcessExitWait.Inv(run[k]) && Can(run[k], e) && run[k + 1] == After(run[k], e)
  {
    hide ProcessExitWait.Inv, After, Can;
    ProcessRuns.RunInv(run, n, init, k);
    assert ProcessRuns.Follows(run[k], run[k + 1]);
    e :| Can(run[k], e) && run[k + 1] == After(run[k], e);
  }

  /** Wait gives up only if the process has been killed, has no child, or has found a zombie child; that child's slot
      is then free, unless its status could not be copied out. It returns from there and from nowhere else. */
  lemma WaitGivesUpRightly(run: seq<State>, n: nat, init: nat, k: nat, q: nat)
    requires ProcessRuns.Run(run, n, init) && k + 1 < |run| && q < |run[k].procs|
    ensures var s, s' := run[k], run[k + 1];
            && |s'.procs| == |s.procs|
            && (s'.procs[q].pc == WaitRel && s.procs[q].pc != WaitRel ==>
                  && MayGiveUp(s, s', q)
                  && (s.procs[q].killed || !ProcessAlone.HasKid(s, q) || !ProcessAlone.NoZombieKid(s, q)))
            && (InWait(s.procs[q].pc) && !InWait(s'.procs[q].pc) ==> s.procs[q].pc == WaitRel && s'.procs[q].pc == User)
  {
    hide ProcessExitWait.Inv, After, Can;
    var e := RunStep(run, n, init, k);
    StepMoves(run[k], e, q);
  }

  /** A decision in wait, once taken up, ends with the process asleep on its own address, or with wait giving up for one
      of its reasons. */
  lemma {:induction false} SleepsOrGivesUp(run: seq<State>, n: nat, init: nat, j: nat, k: nat, q: nat) returns (m: nat)
    requires ProcessRuns.Run(run, n, init) && j < k < |run| && q < |run[j].procs| && Deciding(run[j].procs[q].pc)
    requires |run[k].procs| == |run[j].procs| && !Deciding(run[k].procs[q].pc)
    ensures j < m <= k && |run[m].procs| == |run[m - 1].procs| == |run[j].procs|
    ensures || (run[m].procs[q].state == SLEEPING && run[m].procs[q].chan == q)
            || (run[m].procs[q].pc == WaitRel && MayGiveUp(run[m - 1], run[m], q))
    decreases k - j
  {
    hide ProcessExitWait.Inv, After, Can, ProcessRuns.Run;
    var e := RunStep(run, n, init, j);
    StepMoves(run[j], e, q);
    if Deciding(run[j + 1].procs[q].pc) {
      m := SleepsOrGivesUp(run, n, init, j + 1, k, q);
    } else {
      m := j + 1;
    }
  }

  /** A process in wait that is not killed, and all of whose children live, goes to sleep. */
  lemma LivingChildrenMeanSleep(run: seq<State>, n: nat, init: nat, j: nat, k: nat, q: nat) returns (m: nat)
    requires ProcessRuns.Run(run, n, init) && j < k < |run| && q < |run[j].procs| && Deciding(run[j].procs[q].pc)
    requires |run[k].procs| == |run[j].procs| && !Deciding(run[k].procs[q].pc)
    requires forall i {:trigger run[i]} :: j <= i < k && q < |run[i].procs| ==>
               !run[i].procs[q].killed && ProcessAlone.HasKid(run[i], q) && ProcessAlone.NoZombieKid(run[i], q)
    ensures j < m <= k && q < |run[m].procs| && run[m].procs[q].state == SLEEPING && run[m].procs[q].chan == q
  {
    hide ProcessRuns.Run;
    m := SleepsOrGivesUp(run, n, init, j, k, q);
    assert j <= m - 1 < k && q < |run[m - 1].procs|;
  }

  // ---- Whoever sleeps in wait has a child ----

  /** The scan has met a child, or the process goes to sleep or sleeps because of it. */
  predicate Committed(pc: Pc) {
    match pc
    case WaitScan(_, kids) => kids
    case WaitAsk | WaitAsked => true
    case SleepAcq(w) => w
    case SleepRel(w) => w
    case SleepMark(w) => w
    case SleepSched(w) => w
    case Asleep(w) => w
    case _ => false
  }

  ghost predicate KidsThere(s: State) {
    forall q :: 0 <= q < |s.procs| && Committed(s.procs[q].pc) ==> ProcessAlone.HasKid(s, q)
  }

  /** A thread commits itself only where it has been committed before or has just looked at a child. */
  lemma CommitsItself(s: State, q: nat, c: Choice)
    requires ProcessExitWait.Inv(s) && Enabled(s, q)
    ensures |ThreadStep(s, q, c).procs| == |s.procs|
    ensures Committed(ThreadStep(s, q, c).procs[q].pc) ==> Committed(s.procs[q].pc) || s.procs[q].pc.WaitCheck?
  {
    hide ProcessExitWait.Inv, ExitStep, WaitStep, SleepStep, KillStep, ForkStep, Wants, Committed;
    var pc := s.procs[q].pc;
    if Wants(s, q) != NOBODY {
      CommitsByTaking(s, q);
    } else if AtWait(pc) {
      CommitsInWait(s, q, c);
    } else if ProcessRuns.AtSleep(pc) {
      CommitsAsleep(s, q);
    } else {
      CommitsNowhere(s, q, c);
    }
  }

  lemma CommitsByTaking(s: State, q: nat)
    requires Enabled(s, q) && Wants(s, q) != NOBODY
    ensures var s' := TakeLock(s, q, Wants(s, q), Locked(s, q));
            |s'.procs| == |s.procs| && (Committed(s'.procs[q].pc) ==> Committed(s.procs[q].pc))
  {
  }

  lemma CommitsInWait(s: State, q: nat, c: Choice)
    requires ProcessExitWait.Inv(s) && Enabled(s, q) && Wants(s, q) == NOBODY && AtWait(s.procs[q].pc)
    ensures |WaitStep(s, q, c).procs| == |s.procs|
    ensures Committed(WaitStep(s, q, c).procs[q].pc) ==> Committed(s.procs[q].pc) || s.procs[q].pc.WaitCheck?
  {
    ScanSaysSo(s, q);
    hide ProcessExitWait.Inv;
  }

  lemma CommitsAsleep(s: State, q: nat)
    requires ProcessExitWait.Inv(s) && Enabled(s, q) && ProcessRuns.AtSleep(s.procs[q].pc)
    ensures |SleepStep(s, q).procs| == |s.procs| && (Committed(SleepStep(s, q).procs[q].pc) ==> Committed(s.procs[q].pc))
  {
    hide ProcessLocks.LockInv, ProcessLives.LifeInv, ProcessWakeups.WakeInv;
    ProcessLocks.LockInvAt(s, q);
  }

  lemma CommitsNowhere(s: State, q: nat, c: Choice)
    requires ProcessExitWait.Inv(s) && Enabled(s, q) && Wants(s, q) == NOBODY
    requires !AtWait(s.procs[q].pc) && !ProcessRuns.AtSleep(s.procs[q].pc)
    ensures |ExitStep(s, q).procs| == |s.procs| && (Committed(ExitStep(s, q).procs[q].pc) ==> Committed(s.procs[q].pc))
    ensures |KillStep(s, q, c).procs| == |s.procs| && (Committed(KillStep(s, q, c).procs[q].pc) ==> Committed(s.procs[q].pc))
    ensures |ForkStep(s, q, c).procs| == |s.procs| && (Committed(ForkStep(s, q, c).procs[q].pc) ==> Committed(s.procs[q].pc))
    ensures !Committed(StartCall(c))
  {
    CommitsInFork(s, q, c);
    hide ProcessExitWait.Inv, ForkStep;
  }

  lemma CommitsInFork(s: State, q: nat, c: Choice)
    requires ProcessExitWait.Inv(s) && Enabled(s, q) && Wants(s, q) == NOBODY
    ensures |ForkStep(s, q, c).procs| == |s.procs| && (Committed(ForkStep(s, q, c).procs[q].pc) ==> Committed(s.procs[q].pc))
  {
    hide ProcessLocks.LockInv, ProcessLives.LifeInv, ProcessWakeups.WakeInv;
    ProcessLives.LifeInvAt(s, q);
  }

  /** A child stays a child of its parent in every step but that in which the parent gives it away or frees it. */
  lemma KidKept(s: State, e: Event, q: nat, d: nat)
    requires ProcessExitWait.Inv(s) && Can(s, e) && q < |s.procs| && d < |s.procs| && s.procs[d].parent == q
    requires e.Thread? && e.q == q ==>
               s.procs[q].pc != ExitScan(d) && (s.procs[q].pc == WaitCheck(d) ==> s.procs[d].state != ZOMBIE)
    ensures |After(s, e).procs| == |s.procs| && After(s, e).procs[d].parent == q
  {
    hide ProcessExitWait.Inv, ThreadStep;
    match e
    case Thread(x, c) => ThreadParents(s, x, c, d);
    case _ =>
  }

  lemma CommittedKid(s: State, e: Event, q: nat) returns (d: nat)
    requires ProcessExitWait.Inv(s) && KidsThere(s) && Can(s, e) && q < |s.procs|
    requires |After(s, e).procs| == |s.procs| && Committed(After(s, e).procs[q].pc)
    ensures d < |s.procs| && s.procs[d].parent == q
    ensures e.Thread? && e.q == q ==>
               s.procs[q].pc != ExitScan(d) && (s.procs[q].pc == WaitCheck(d) ==> s.procs[d].state != ZOMBIE)
  {
    hide ProcessExitWait.Inv, ThreadStep;
    if e.Thread? && e.q == q {
      CommitsItself(s, q, e.c);
      ScanSaysSo(s, q);
      if s.procs[q].pc.WaitCheck? {
        d := s.procs[q].pc.i;
        FreesAndReturns(s, q, e.c);
        return;
      }
    } else if e.Thread? {
      OtherCommits(s, e.q, e.c, q);
    } else {
      EventCommits(s, e, q);
    }
    assert ProcessAlone.HasKid(s, q);
    d :| 0 <= d < |s.procs| && s.procs[d].parent == q;
  }

  /** Having found a zombie child, wait does not sleep. */
  lemma FreesAndReturns(s: State, q: nat, c: Choice)
    requires Enabled(s, q) && s.procs[q].pc.WaitCheck? && s.procs[q].pc.i < |s.procs| && s.procs[q].pc.i != q
    ensures s.procs[s.procs[q].pc.i].state == ZOMBIE ==>
              |ThreadStep(s, q, c).procs| == |s.procs| && !Committed(ThreadStep(s, q, c).procs[q].pc)
  {
  }

  lemma OtherCommits(s: State, x: nat, c: Choice, q: nat)
    requires ProcessExitWait.Inv(s) && Enabled(s, x) && q < |s.procs| && q != x
    ensures |ThreadStep(s, x, c).procs| == |s.procs|
    ensures Committed(ThreadStep(s, x, c).procs[q].pc) ==> Committed(s.procs[q].pc)
  {
    hide ProcessExitWait.Inv, ExitStep, WaitStep, SleepStep, KillStep, ForkStep, Wants, Locked;
    ExitKeepsPc(s, x, q);
    SleepKeepsPc(s, x, c, q);
    FreedOrStarted(s, x, c, q);
  }

  lemma EventCommits(s: State, e: Event, q: nat)
    requires Can(s, e) && !e.Thread? && q < |s.procs|
    ensures |After(s, e).procs| == |s.procs| && (Committed(After(s, e).procs[q].pc) ==> Committed(s.procs[q].pc))
  {
  }

  lemma StepKeepsKids(s: State, e: Event)
    requires ProcessExitWait.Inv(s) && KidsThere(s) && Can(s, e)
    ensures KidsThere(After(s, e))
  {
    hide ProcessExitWait.Inv, After, Can, Committed;
    var s' := After(s, e);
    forall q | 0 <= q < |s'.procs| && Committed(s'.procs[q].pc) ensures ProcessAlone.HasKid(s', q) {
      SameNumber(s, e);
      var d := CommittedKid(s, e, q);
      KidKept(s, e, q, d);
    }
  }

  lemma SameNumber(s: State, e: Event)
    requires ProcessExitWait.Inv(s) && Can(s, e)
    ensures |After(s, e).procs| == |s.procs|
  {
    hide ProcessLocks.LockInv, ProcessLives.LifeInv, ProcessWakeups.WakeInv, Can, After;
    ProcessRuns.InitInTable(s);
    LifeCycle(s, e, s.init);
  }

  lemma {:induction false} RunKids(run: seq<State>, n: nat, init: nat, k: nat)
    requires ProcessRuns.Run(run, n, init) && k < |run|
    ensures KidsThere(run[k])
  {
    hide ProcessExitWait.Inv, After, Can;
    if k > 0 {
      RunKids(run, n, init, k - 1);
      var e := RunStep(run, n, init, k - 1);
      StepKeepsKids(run[k - 1], e);
    }
  }

  /** Whoever sleeps in wait has a child to wait for, and none that is a zombie, unless an exiting process that holds
      `wait_lock` has yet to wake it. */
  lemma SleepersHaveLivingKids(run: seq<State>, n: nat, init: nat, k: nat, q: nat)
    requires ProcessRuns.Run(run, n, init) && k < |run| && q < |run[k].procs|
    requires run[k].procs[q].state == SLEEPING && run[k].procs[q].chan == q
    ensures ProcessAlone.HasKid(run[k], q) && (run[k].wl == Free ==> ProcessAlone.NoZombieKid(run[k], q))
  {
    hide ProcessLocks.LockInv, ProcessLives.LifeInv, ProcessWakeups.WakeInv, ProcessRuns.Run;
    RunKids(run, n, init, k);
    ProcessRuns.RunInv(run, n, init, k);
    ProcessLives.LifeInvAt(run[k], q);
    ProcessWakeups.WakeInvAt(run[k], q);
    forall d | 0 <= d < |run[k].procs| && run[k].procs[d].parent == q && run[k].procs[d].state == ZOMBIE
      ensures run[k].wl != Free
    {
      assert ProcessWakeups.ZombieKid(run[k], q, d);
    }
  }

  // ---- When kill and fork may return ----

  /** Kill returns having marked a process, which does not sleep then, or having looked at every slot; fork returns with a
      runnable child of the caller, or with the slot it had taken unused again, or having looked at every slot. */
  ghost predicate ReturnsRightly(s: State, s': State, q: nat)
    requires q < |s.procs| == |s'.procs|
  {
    match s.procs[q].pc
    case KillAcq(i) => i >= |s.procs|
    case KillDo(i) => i < |s.procs| && s'.procs[i].killed && s'.procs[i].state != SLEEPING
    case ForkScan(i) => i >= |s.procs|
    case ForkMake(i) => i < |s.procs| && s'.procs[i].state == UNUSED && s'.procs[i].parent == NOBODY
    case ForkRun(i) => i < |s.procs| && s'.procs[i].state == RUNNABLE && s'.procs[i].parent == q && s'.procs[i].pc == Parked(User)
    case WaitRel => s'.wl == Free
    case Woken(w) => !w
    case User => true
    case Resumed(b) => b == User
    case _ => false
  }

  lemma ReturnsFrom(s: State, q: nat, c: Choice)
    requires ProcessExitWait.Inv(s) && Enabled(s, q) && Wants(s, q) == NOBODY
    ensures |WaitStep(s, q, c).procs| == |s.procs|
    ensures AtWait(s.procs[q].pc) && WaitStep(s, q, c).procs[q].pc == User ==> ReturnsRightly(s, WaitStep(s, q, c), q)
    ensures |SleepStep(s, q).procs| == |s.procs|
    ensures ProcessRuns.AtSleep(s.procs[q].pc) && SleepStep(s, q).procs[q].pc == User ==> ReturnsRightly(s, SleepStep(s, q), q)
  {
    hide ProcessLocks.LockInv, ProcessLives.LifeInv, ProcessWakeups.WakeInv;
    ProcessLocks.LockInvAt(s, q);
    ProcessLives.LifeInvAt(s, q);
  }

  lemma KillReturns(s: State, q: nat, c: Choice)
    requires ProcessExitWait.Inv(s) && Enabled(s, q) && Wants(s, q) == NOBODY && (s.procs[q].pc.KillAcq? || s.procs[q].pc.KillDo?)
    ensures |KillStep(s, q, c).procs| == |s.procs|
    ensures KillStep(s, q, c).procs[q].pc == User ==> ReturnsRightly(s, KillStep(s, q, c), q)
  {
    hide ProcessLocks.LockInv, ProcessLives.LifeInv, ProcessWakeups.WakeInv;
    ProcessLocks.LockInvAt(s, q);
    ProcessLives.LifeInvAt(s, q);
  }

  lemma ForkReturns(s: State, q: nat, c: Choice)
    requires ProcessExitWait.Inv(s) && Enabled(s, q) && Wants(s, q) == NOBODY && ProcessRuns.AtFork(s.procs[q].pc)
    ensures |ForkStep(s, q, c).procs| == |s.procs|
    ensures ForkStep(s, q, c).procs[q].pc == User ==> ReturnsRightly(s, ForkStep(s, q, c), q)
  {
    hide ProcessLocks.LockInv, ProcessLives.LifeInv, ProcessWakeups.WakeInv;
    ProcessLocks.LockInvAt(s, q);
    ProcessLives.LifeInvAt(s, q);
  }

  /** A thread gets back from a call only as that call has it. */
  lemma CallsReturnRightly(s: State, q: nat, c: Choice)
    requires ProcessExitWait.Inv(s) && Enabled(s, q)
    ensures |ThreadStep(s, q, c).procs| == |s.procs|
    ensures ThreadStep(s, q, c).procs[q].pc == User ==> ReturnsRightly(s, ThreadStep(s, q, c), q)
  {
    hide ProcessExitWait.Inv, ExitStep, WaitStep, SleepStep, KillStep, ForkStep, Wants, ReturnsRightly, Locked;
    ThreadSlot(s, q, c, q);
    var pc := s.procs[q].pc;
    if Wants(s, q) != NOBODY {
      LockedIsNoReturn(s, q);
    } else if AtWait(pc) || ProcessRuns.AtSleep(pc) {
      ReturnsFrom(s, q, c);
    } else if pc.KillAcq? || pc.KillDo? {
      KillReturns(s, q, c);
    } else if ProcessRuns.AtFork(pc) {
      ForkReturns(s, q, c);
    } else {
      NoReturnFromExit(s, q, c);
    }
  }

  lemma LockedIsNoReturn(s: State, q: nat)
    requires Enabled(s, q) && Wants(s, q) != NOBODY
    ensures Locked(s, q) != User
  {
  }

  lemma NoReturnFromExit(s: State, q: nat, c: Choice)
    requires Enabled(s, q) && Wants(s, q) == NOBODY && !AtWait(s.procs[q].pc) && !ProcessRuns.AtSleep(s.procs[q].pc)
    requires !s.procs[q].pc.KillAcq? && !s.procs[q].pc.KillDo? && !ProcessRuns.AtFork(s.procs[q].pc)
    ensures |ThreadStep(s, q, c).procs| == |s.procs|
    ensures ThreadStep(s, q, c).procs[q].pc == User ==> ReturnsRightly(s, ThreadStep(s, q, c), q)
  {
  }
}
