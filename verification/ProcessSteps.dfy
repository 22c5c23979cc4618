/** Processes, their locks, and the atomic steps of exit, wait, sleep, wakeup, kill, yield, fork and
    the scheduler. A step is one acquisition of a lock, or the work done under a process lock up to
    and including its release, or one access to data that `wait_lock` guards. */
module ProcessSteps {

  datatype RunState = UNUSED | USED | SLEEPING | RUNNABLE | RUNNING | ZOMBIE

  /** Who holds a spin lock: nobody, the kernel thread of a process, or a CPU's scheduler. */
  datatype Holder = Free | By(q: nat) | Sched

  /** Where the kernel thread of a process is. */
  datatype Pc =
      // not in any of the calls modelled
    | User
      // exit: acquire wait_lock; pass children to init, waking it after each; wake the parent;
      // acquire the own lock; become a zombie; release wait_lock; switch to the scheduler
    | ExitAcq | ExitScan(i: nat) | ExitWake(i: nat, j: nat, held: bool) | ExitTell(j: nat, held: bool)
    | ExitLock | ExitMark | ExitRel | ExitSched | Gone
      // wait: acquire wait_lock; look at each child under its lock; ask whether killed; sleep or return
    | WaitAcq | WaitScan(i: nat, kids: bool) | WaitCheck(i: nat) | WaitAsk | WaitAsked | WaitRel
      // sleep, called from wait or from elsewhere
    | SleepAcq(inWait: bool) | SleepRel(inWait: bool) | SleepMark(inWait: bool) | SleepSched(inWait: bool)
    | Asleep(inWait: bool) | Woken(inWait: bool)
      // yield, after which the thread goes on where it was; a new process starts out parked
    | YieldAcq(back: Pc) | YieldMark(back: Pc) | YieldSched(back: Pc) | Parked(back: Pc) | Resumed(back: Pc)
    | KillAcq(i: nat) | KillDo(i: nat)
      // fork: find a slot, fill it, set its parent, make it runnable
    | ForkScan(i: nat) | ForkCheck(i: nat) | ForkMake(i: nat) | ForkAcq(i: nat) | ForkParent(i: nat)
    | ForkLock(i: nat) | ForkRun(i: nat)
      // a slot without a thread
    | Fresh

  const NOBODY := -1
  const NO_CHAN := -1

  /** The channel of any sleep but that of wait. */
  const OTHER_CHAN := -2

  /** `exits` and `frees` count how often the slot has become a zombie and how often a zombie in it
      has been freed. */
  datatype Proc = Proc(state: RunState, chan: int, killed: bool, parent: int, lk: Holder, pc: Pc, counts: Counts)

  datatype Counts = Counts(exits: nat, frees: nat)

  /** The process table and `wait_lock`. */
  datatype State = State(procs: seq<Proc>, init: nat, wl: Holder)

  /** What a thread may choose where the model leaves it open: which call to make, or whether memory
      runs out, a copy fails, a process id matches. */
  datatype Choice = Exit | Wait | Sleep | Kill | Fork | Yes | No

  // ---- Locks that a program counter holds ----

  predicate HoldsWaitLock(pc: Pc) {
    match pc
    case ExitScan(_) | ExitWake(_, _, _) | ExitTell(_, _) | ExitLock | ExitMark | ExitRel => true
    case WaitScan(_, _) | WaitCheck(_) | WaitAsk | WaitAsked | WaitRel => true
    case SleepAcq(w) => w
    case SleepRel(w) => w
    case ForkParent(_) => true
    case _ => false
  }

  /** The process whose lock thread `q` holds at `pc`; at most one. */
  function HoldsLock(pc: Pc, q: nat): int {
    match pc
    case ExitWake(_, j, held) => if held then j else NOBODY
    case ExitTell(j, held) => if held then j else NOBODY
    case ExitMark | ExitRel | ExitSched | WaitAsked | Woken(_) | YieldMark(_) | YieldSched(_) | Resumed(_) => q
    case SleepRel(_) | SleepMark(_) | SleepSched(_) => q
    case WaitCheck(i) => i
    case KillDo(i) => i
    case ForkCheck(i) => i
    case ForkMake(i) => i
    case ForkRun(i) => i
    case _ => NOBODY
  }

  /** The thread has switched to the scheduler, or there is none. */
  predicate OffCpu(pc: Pc) {
    pc == Fresh || pc == Gone || pc.Parked? || pc.Asleep?
  }

  // ---- Updates ----

  function Put(s: State, q: nat, p: Proc): State
    requires q < |s.procs|
  {
    s.(procs := s.procs[q := p])
  }

  function Goto(s: State, q: nat, pc: Pc): State
    requires q < |s.procs|
  {
    Put(s, q, s.procs[q].(pc := pc))
  }

  function SetLock(s: State, i: nat, h: Holder): State
    requires i < |s.procs|
  {
    Put(s, i, s.procs[i].(lk := h))
  }

  /** `freeproc` */
  function Freed(p: Proc): Proc {
    p.(state := UNUSED, chan := NO_CHAN, killed := false, parent := NOBODY, pc := Fresh,
       counts := if p.state == ZOMBIE then Counts(p.counts.exits, p.counts.frees + 1) else p.counts)
  }

  function Woke(p: Proc, chan: int): Proc {
    if p.state == SLEEPING && p.chan == chan then p.(state := RUNNABLE) else p
  }

  function KillOne(p: Proc): Proc {
    p.(killed := true, state := if p.state == SLEEPING then RUNNABLE else p.state)
  }

  // ---- Steps ----

  /** Acquire process lock `i`. */
  function TakeLock(s: State, q: nat, i: nat, pc: Pc): State
    requires q < |s.procs| && i < |s.procs|
  {
    Goto(SetLock(s, i, By(q)), q, pc)
  }

  /** Replace process `i`, whose lock is held, and release the lock. */
  function DropLock(s: State, q: nat, i: nat, p: Proc, pc: Pc): State
    requires q < |s.procs| && i < |s.procs|
  {
    Goto(Put(s, i, p.(lk := Free)), q, pc)
  }

  /** The call a thread makes next. */
  function StartCall(c: Choice): Pc {
    match c
    case Exit => ExitAcq
    case Wait => WaitAcq
    case Sleep => SleepAcq(false)
    case Kill => KillAcq(0)
    case Fork => ForkScan(0)
    case _ => User
  }

  /** Which lock the thread needs next: a process lock. */
  function Wants(s: State, q: nat): int
    requires q < |s.procs|
  {
    var n := |s.procs|;
    match s.procs[q].pc
    case ExitWake(_, j, held) => if !held && j < n && j != q then j else NOBODY
    case ExitTell(j, held) => if !held && j < n && j != q then j else NOBODY
    case ExitLock | WaitAsk | SleepAcq(_) | YieldAcq(_) => q
    case WaitScan(i, _) => if i < n && s.procs[i].parent == q then i else NOBODY
    case KillAcq(i) => if i < n then i else NOBODY
    case ForkScan(i) => if i < n then i else NOBODY
    case ForkLock(i) => i
    case _ => NOBODY
  }

  predicate WantsWaitLock(pc: Pc) {
    pc == ExitAcq || pc == WaitAcq || pc.ForkAcq?
  }

  /** The thread is on a CPU and no lock it needs is held. */
  predicate Enabled(s: State, q: nat) {
    && q < |s.procs| && !OffCpu(s.procs[q].pc)
    && (WantsWaitLock(s.procs[q].pc) ==> s.wl == Free)
    && (Wants(s, q) != NOBODY ==> 0 <= Wants(s, q) < |s.procs| && s.procs[Wants(s, q)].lk == Free)
  }

  /** Once a needed process lock is free, take it. */
  function Locked(s: State, q: nat): Pc
    requires q < |s.procs|
  {
    match s.procs[q].pc
    case ExitWake(i, j, _) => ExitWake(i, j, true)
    case ExitTell(j, _) => ExitTell(j, true)
    case ExitLock => ExitMark
    case WaitScan(i, _) => WaitCheck(i)
    case WaitAsk => WaitAsked
    case SleepAcq(w) => SleepRel(w)
    case YieldAcq(b) => YieldMark(b)
    case KillAcq(i) => KillDo(i)
    case ForkScan(i) => ForkCheck(i)
    case ForkLock(i) => ForkRun(i)
    case pc => pc
  }

  /** The loops of exit over the process table. */
  function ExitStep(s: State, q: nat): State
    requires q < |s.procs|
  {
    var n, p := |s.procs|, s.procs[q];
    match p.pc
    case ExitAcq => Goto(s.(wl := By(q)), q, ExitScan(0))
    case ExitScan(i) =>
      if i >= n then Goto(s, q, ExitTell(0, false))
      else if s.procs[i].parent == q then Goto(Put(s, i, s.procs[i].(parent := s.init)), q, ExitWake(i, 0, false))
      else Goto(s, q, ExitScan(i + 1))
    case ExitWake(i, j, held) =>
      if j >= n then Goto(s, q, ExitScan(i + 1))
      else if held then DropLock(s, q, j, Woke(s.procs[j], s.init), ExitWake(i, j + 1, false))
      else Goto(s, q, ExitWake(i, j + 1, false))
    case ExitTell(j, held) =>
      if j >= n then Goto(s, q, ExitLock)
      else if held then DropLock(s, q, j, Woke(s.procs[j], p.parent), ExitTell(j + 1, false))
      else Goto(s, q, ExitTell(j + 1, false))
    case ExitMark =>
      Put(s, q, p.(state := ZOMBIE, pc := ExitRel, counts := Counts(p.counts.exits + 1, p.counts.frees)))
    case ExitRel => Goto(s.(wl := Free), q, ExitSched)
    case ExitSched => Goto(SetLock(s, q, Sched), q, Gone)
    case _ => s
  }

  function WaitStep(s: State, q: nat, c: Choice): State
    requires q < |s.procs|
  {
    var n, p := |s.procs|, s.procs[q];
    match p.pc
    case WaitAcq => Goto(s.(wl := By(q)), q, WaitScan(0, false))
    case WaitScan(i, kids) =>
      if i < n then Goto(s, q, WaitScan(i + 1, kids))
      else if kids then Goto(s, q, WaitAsk)
      else Goto(s, q, WaitRel)
    case WaitCheck(i) =>
      if i >= n then s
      else if s.procs[i].state == ZOMBIE then
        DropLock(s, q, i, if c == No then s.procs[i] else Freed(s.procs[i]), WaitRel)
      else DropLock(s, q, i, s.procs[i], WaitScan(i + 1, true))
    case WaitAsked => DropLock(s, q, q, p, if p.killed then WaitRel else SleepAcq(true))
    case WaitRel => Goto(s.(wl := Free), q, User)
    case _ => s
  }

  function SleepStep(s: State, q: nat): State
    requires q < |s.procs|
  {
    var p := s.procs[q];
    match p.pc
    case SleepRel(w) => Goto(if w then s.(wl := Free) else s, q, SleepMark(w))
    case SleepMark(w) => Put(s, q, p.(chan := if w then q else OTHER_CHAN, state := SLEEPING, pc := SleepSched(w)))
    case SleepSched(w) => Goto(SetLock(s, q, Sched), q, Asleep(w))
    case Woken(w) => DropLock(s, q, q, p.(chan := NO_CHAN), if w then WaitAcq else User)
    case YieldMark(b) => Put(s, q, p.(state := RUNNABLE, pc := YieldSched(b)))
    case YieldSched(b) => Goto(SetLock(s, q, Sched), q, Parked(b))
    case Resumed(b) => DropLock(s, q, q, p, b)
    case _ => s
  }

  function KillStep(s: State, q: nat, c: Choice): State
    requires q < |s.procs|
  {
    match s.procs[q].pc
    case KillAcq(i) => Goto(s, q, User)
    case KillDo(i) =>
      if i >= |s.procs| then s
      else if c == Yes then DropLock(s, q, i, KillOne(s.procs[i]), User)
      else DropLock(s, q, i, s.procs[i], KillAcq(i + 1))
    case _ => s
  }

  function ForkStep(s: State, q: nat, c: Choice): State
    requires q < |s.procs|
  {
    match s.procs[q].pc
    case ForkScan(i) => Goto(s, q, User)
    case ForkCheck(i) =>
      if i >= |s.procs| then s
      else if s.procs[i].state == UNUSED then Goto(Put(s, i, s.procs[i].(state := USED)), q, ForkMake(i))
      else DropLock(s, q, i, s.procs[i], ForkScan(i + 1))
    case ForkMake(i) =>
      if i >= |s.procs| then s
      else if c == No then DropLock(s, q, i, Freed(s.procs[i]), User)
      else DropLock(s, q, i, s.procs[i], ForkAcq(i))
    case ForkAcq(i) => Goto(s.(wl := By(q)), q, ForkParent(i))
    case ForkParent(i) =>
      if i >= |s.procs| then s
      else Goto(Put(s.(wl := Free), i, s.procs[i].(parent := q)), q, ForkLock(i))
    case ForkRun(i) =>
      if i >= |s.procs| then s
      else DropLock(s, q, i, s.procs[i].(state := RUNNABLE, pc := Parked(User)), User)
    case _ => s
  }

  /** One step of the thread of process `q`. */
  function ThreadStep(s: State, q: nat, c: Choice): State
    requires Enabled(s, q)
  {
    if Wants(s, q) != NOBODY then TakeLock(s, q, Wants(s, q), Locked(s, q))
    else match s.procs[q].pc
         case User => if c == Exit && q == s.init then s else Goto(s, q, StartCall(c))
         case ExitAcq | ExitScan(_) | ExitWake(_, _, _) | ExitTell(_, _) | ExitMark | ExitRel | ExitSched => ExitStep(s, q)
         case WaitAcq | WaitScan(_, _) | WaitCheck(_) | WaitAsked | WaitRel => WaitStep(s, q, c)
         case SleepRel(_) | SleepMark(_) | SleepSched(_) | Woken(_) | YieldMark(_) | YieldSched(_) | Resumed(_) => SleepStep(s, q)
         case KillAcq(_) | KillDo(_) => KillStep(s, q, c)
         case _ => ForkStep(s, q, c)
  }

  /** A CPU's scheduler picks process `p` if it is runnable. */
  predicate CanDispatch(s: State, p: nat) {
    p < |s.procs| && s.procs[p].lk == Free && s.procs[p].state == RUNNABLE
  }

  function BackOnCpu(pc: Pc): Pc {
    match pc
    case Asleep(w) => Woken(w)
    case Parked(b) => Resumed(b)
    case _ => pc
  }

  function Dispatch(s: State, p: nat): State
    requires CanDispatch(s, p)
  {
    var r := s.procs[p];
    Put(s, p, r.(state := RUNNING, lk := By(p), pc := BackOnCpu(r.pc)))
  }

  /** After a process has switched to it, the scheduler releases the process's lock. */
  predicate CanRelease(s: State, p: nat) {
    p < |s.procs| && s.procs[p].lk == Sched
  }

  function SchedRelease(s: State, p: nat): State
    requires CanRelease(s, p)
  {
    SetLock(s, p, Free)
  }

  /** Interrupts are on, so that a timer may make the thread yield. */
  predicate Preemptible(pc: Pc) {
    match pc
    case User | ExitAcq | WaitAcq | KillAcq(_) | ForkScan(_) | ForkAcq(_) | ForkLock(_) => true
    case _ => false
  }

  predicate CanPreempt(s: State, q: nat) {
    q < |s.procs| && Preemptible(s.procs[q].pc)
  }

  function Preempt(s: State, q: nat): State
    requires CanPreempt(s, q)
  {
    Goto(s, q, YieldAcq(s.procs[q].pc))
  }

  /** A wakeup on another channel than those of wait, from an interrupt or from elsewhere in the kernel,
      comes to a process that sleeps there, and takes and gives back its lock. */
  predicate CanRouse(s: State, p: nat) {
    p < |s.procs| && s.procs[p].lk == Free && s.procs[p].state == SLEEPING && s.procs[p].chan == OTHER_CHAN
  }

  function Rouse(s: State, p: nat): State
    requires CanRouse(s, p)
  {
    Put(s, p, Woke(s.procs[p], OTHER_CHAN))
  }

  datatype Event = Thread(q: nat, c: Choice) | Timer(q: nat) | Pick(p: nat) | Release(p: nat) | Notify(p: nat)

  predicate Can(s: State, e: Event) {
    match e
    case Thread(q, c) => Enabled(s, q)
    case Timer(q) => CanPreempt(s, q)
    case Pick(p) => CanDispatch(s, p)
    case Release(p) => CanRelease(s, p)
    case Notify(p) => CanRouse(s, p)
  }

  function After(s: State, e: Event): State
    requires Can(s, e)
  {
    match e
    case Thread(q, c) => ThreadStep(s, q, c)
    case Timer(q) => Preempt(s, q)
    case Pick(p) => Dispatch(s, p)
    case Release(p) => SchedRelease(s, p)
    case Notify(p) => Rouse(s, p)
  }
}
