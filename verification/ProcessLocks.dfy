/** The locks of the process table are held by the threads that the program counters say. */
module ProcessLocks {
  import opened ProcessSteps

  /** A thread holds the process lock its program counter says, and the holder of a process's lock
      says so; a scheduler holds only locks of processes that have left their CPU. */
  predicate LocksOf(s: State, x: nat)
    requires x < |s.procs|
  {
    var r := s.procs[x];
    && (HoldsLock(r.pc, x) != NOBODY ==>
          0 <= HoldsLock(r.pc, x) < |s.procs| && s.procs[HoldsLock(r.pc, x)].lk == By(x))
    && (r.lk.By? ==> r.lk.q < |s.procs| && HoldsLock(s.procs[r.lk.q].pc, r.lk.q) == x)
    && (r.lk == Sched ==> OffCpu(r.pc) && r.pc != Fresh)
    && (HoldsWaitLock(r.pc) ==> s.wl == By(x))
    && WellPlaced(r.pc, x, |s.procs|)
  }

  /** Loop counters are in range, wakeup skips the process that runs it, and only a preemptible place is returned to after a yield. */
  predicate WellPlaced(pc: Pc, x: nat, n: nat) {
    match pc
    case ExitWake(i, j, held) => i < n && j <= n && (held ==> j < n && j != x)
    case ExitTell(j, held) => j <= n && (held ==> j < n && j != x)
    case WaitCheck(i) => i < n
    case KillDo(i) => i < n
    case ForkCheck(i) => i < n
    case ForkMake(i) => i < n
    case ForkAcq(i) => i < n
    case ForkParent(i) => i < n
    case ForkLock(i) => i < n
    case ForkRun(i) => i < n
    case YieldAcq(b) => Preemptible(b) && WellPlaced(b, x, n)
    case YieldMark(b) => Preemptible(b) && WellPlaced(b, x, n)
    case YieldSched(b) => Preemptible(b) && WellPlaced(b, x, n)
    case Parked(b) => Preemptible(b) && WellPlaced(b, x, n)
    case Resumed(b) => Preemptible(b) && WellPlaced(b, x, n)
    case _ => true
  }

  ghost predicate LockInv(s: State) {
    && s.wl != Sched
    && (s.wl.By? ==> s.wl.q < |s.procs| && HoldsWaitLock(s.procs[s.wl.q].pc))
    && forall x :: 0 <= x < |s.procs| ==> LocksOf(s, x)
  }

  lemma LockInvAt(s: State, x: nat)
    requires LockInv(s) && x < |s.procs|
    ensures LocksOf(s, x)
  {
  }

  /** Nothing about locks changes when a thread goes to a place with the same locks, whatever else
      happens to the records. */
  lemma LockInvSame(s: State, s': State)
    requires LockInv(s) && |s'.procs| == |s.procs| && s'.wl == s.wl
    requires forall x :: 0 <= x < |s.procs| ==> SameLocks(s.procs[x], s'.procs[x], x, |s.procs|)
    ensures LockInv(s')
  {
    hide HoldsLock, HoldsWaitLock, WellPlaced, OffCpu;
    forall x | 0 <= x < |s.procs| ensures LocksOf(s', x) {
      assert LocksOf(s, x) && SameLocks(s.procs[x], s'.procs[x], x, |s.procs|);
    }
  }

  predicate SameLocks(p: Proc, p': Proc, x: nat, n: nat) {
    && p'.lk == p.lk && HoldsLock(p'.pc, x) == HoldsLock(p.pc, x) && HoldsWaitLock(p'.pc) == HoldsWaitLock(p.pc)
    && (OffCpu(p.pc) && p.pc != Fresh ==> OffCpu(p'.pc) && p'.pc != Fresh) && WellPlaced(p'.pc, x, n)
  }

  /** Taking a free process lock. */
  lemma LockInvTake(s: State, q: nat, i: nat, pc: Pc)
    requires LockInv(s) && q < |s.procs| && i < |s.procs| && s.procs[i].lk == Free
    requires HoldsLock(s.procs[q].pc, q) == NOBODY && HoldsLock(pc, q) == i
    requires HoldsWaitLock(pc) == HoldsWaitLock(s.procs[q].pc) && !OffCpu(s.procs[q].pc) && WellPlaced(pc, q, |s.procs|)
    ensures LockInv(TakeLock(s, q, i, pc))
  {
    hide HoldsLock, HoldsWaitLock, WellPlaced, OffCpu;
    var s' := TakeLock(s, q, i, pc);
    LockInvAt(s, q);
    forall x | 0 <= x < |s.procs| ensures LocksOf(s', x) {
      assert LocksOf(s, x);
    }
  }

  /** Giving back a process lock, whatever happens to the record it guards. */
  lemma LockInvDrop(s: State, q: nat, i: nat, p: Proc, pc: Pc)
    requires LockInv(s) && q < |s.procs| && i < |s.procs| && HoldsLock(s.procs[q].pc, q) == i
    requires HoldsLock(pc, q) == NOBODY && HoldsWaitLock(pc) == HoldsWaitLock(s.procs[q].pc)
    requires !OffCpu(s.procs[q].pc) && WellPlaced(pc, q, |s.procs|)
    requires i != q ==> HoldsLock(p.pc, i) == HoldsLock(s.procs[i].pc, i) && HoldsWaitLock(p.pc) == HoldsWaitLock(s.procs[i].pc)
                        && WellPlaced(p.pc, i, |s.procs|)
    ensures LockInv(DropLock(s, q, i, p, pc))
  {
    hide HoldsLock, HoldsWaitLock, WellPlaced, OffCpu;
    var s' := DropLock(s, q, i, p, pc);
    LockInvAt(s, q);
    forall x | 0 <= x < |s.procs| ensures LocksOf(s', x) {
      assert LocksOf(s, x);
    }
  }

  /** Taking or giving back `wait_lock`. */
  lemma LockInvWait(s: State, q: nat, pc: Pc, take: bool)
    requires LockInv(s) && q < |s.procs| && HoldsLock(pc, q) == HoldsLock(s.procs[q].pc, q)
    requires if take then s.wl == Free && HoldsWaitLock(pc) else HoldsWaitLock(s.procs[q].pc) && !HoldsWaitLock(pc)
    requires !OffCpu(s.procs[q].pc) && WellPlaced(pc, q, |s.procs|)
    ensures LockInv(Goto(s.(wl := if take then By(q) else Free), q, pc))
  {
    hide HoldsLock, WellPlaced, OffCpu;
    var s' := Goto(s.(wl := if take then By(q) else Free), q, pc);
    LockInvAt(s, q);
    forall x | 0 <= x < |s.procs| ensures LocksOf(s', x) {
      assert LocksOf(s, x);
    }
  }

  /** Switching to the scheduler hands over the own lock. */
  lemma LockInvSwitch(s: State, q: nat, pc: Pc)
    requires LockInv(s) && q < |s.procs| && HoldsLock(s.procs[q].pc, q) == q && HoldsLock(pc, q) == NOBODY
    requires HoldsWaitLock(pc) == HoldsWaitLock(s.procs[q].pc) && OffCpu(pc) && pc != Fresh && WellPlaced(pc, q, |s.procs|)
    ensures LockInv(Goto(SetLock(s, q, Sched), q, pc))
  {
    hide HoldsLock, HoldsWaitLock, WellPlaced, OffCpu;
    var s' := Goto(SetLock(s, q, Sched), q, pc);
    LockInvAt(s, q);
    forall x | 0 <= x < |s.procs| ensures LocksOf(s', x) {
      assert LocksOf(s, x);
    }
  }
}
