/** What exit, wait, kill, fork and sleep come to when no other thread takes a step during the call: the whole
    process table afterwards, slot by slot. */
module ProcessAlone {
  import opened ProcessSteps

  /** How what the model leaves open turns out, at each point of a call. */
  type Luck = Pc -> Choice

  /** Thread `q` gets from `s` to `s'` in `n` steps of its own, without returning on the way. */
  ghost predicate LeadsIn(s: State, q: nat, luck: Luck, s': State, n: nat)
    decreases n
  {
    if n == 0 then s' == s
    else Enabled(s, q) && s.procs[q].pc != User && LeadsIn(ThreadStep(s, q, luck(s.procs[q].pc)), q, luck, s', n - 1)
  }

  ghost predicate Leads(s: State, q: nat, luck: Luck, s': State) {
    exists n: nat :: LeadsIn(s, q, luck, s', n)
  }

  /** One step of thread `q`, inside a call. */
  ghost predicate Steps(s: State, q: nat, luck: Luck, s': State) {
    Enabled(s, q) && s.procs[q].pc != User && s' == ThreadStep(s, q, luck(s.procs[q].pc))
  }

  /** Thread `q` makes a call and gets to `s'`. */
  ghost predicate Call(s: State, q: nat, c: Choice, luck: Luck, s': State) {
    Enabled(s, q) && s.procs[q].pc == User && Leads(ThreadStep(s, q, c), q, luck, s')
  }

  lemma LeadsSelf(s: State, q: nat, luck: Luck)
    ensures Leads(s, q, luck, s)
  {
    assert LeadsIn(s, q, luck, s, 0);
  }

  lemma LeadsStep(s: State, q: nat, luck: Luck, s1: State, s': State)
    requires Steps(s, q, luck, s1) && Leads(s1, q, luck, s')
    ensures Leads(s, q, luck, s')
  {
    hide ThreadStep;
    var n: nat :| LeadsIn(s1, q, luck, s', n);
    assert LeadsIn(s, q, luck, s', n + 1);
  }

  lemma {:induction false} LeadsOnIn(s: State, q: nat, luck: Luck, s1: State, n: nat, s': State)
    requires LeadsIn(s, q, luck, s1, n) && Leads(s1, q, luck, s')
    ensures Leads(s, q, luck, s')
    decreases n
  {
    hide ThreadStep, Leads;
    if n > 0 {
      LeadsOnIn(ThreadStep(s, q, luck(s.procs[q].pc)), q, luck, s1, n - 1, s');
      LeadsStep(s, q, luck, ThreadStep(s, q, luck(s.procs[q].pc)), s');
    }
  }

  lemma LeadsOn(s: State, q: nat, luck: Luck, s1: State, s': State)
    requires Leads(s, q, luck, s1) && Leads(s1, q, luck, s')
    ensures Leads(s, q, luck, s')
  {
    var n: nat :| LeadsIn(s, q, luck, s1, n);
    LeadsOnIn(s, q, luck, s1, n, s');
  }

  /** All process locks are free. */
  predicate Unlocked(s: State) {
    forall i :: 0 <= i < |s.procs| ==> s.procs[i].lk == Free
  }

  // ---- wait ----

  ghost predicate HasKid(s: State, q: nat) {
    exists c :: 0 <= c < |s.procs| && s.procs[c].parent == q
  }

  ghost predicate FirstZombie(s: State, q: nat, c: nat) {
    && c < |s.procs| && s.procs[c].parent == q && s.procs[c].state == ZOMBIE
    && forall d :: 0 <= d < c ==> !(s.procs[d].parent == q && s.procs[d].state == ZOMBIE)
  }

  ghost predicate NoZombieKid(s: State, q: nat) {
    forall d :: 0 <= d < |s.procs| ==> !(s.procs[d].parent == q && s.procs[d].state == ZOMBIE)
  }

  /** The slot of a zombie that has been freed. */
  function Reaped(p: Proc): Proc {
    Proc(UNUSED, NO_CHAN, false, NOBODY, Free, Fresh, Counts(p.counts.exits, p.counts.frees + 1))
  }

  /** Thread `q` scans in wait, alone, and has passed `i` slots. */
  ghost predicate Scanning(s: State, q: nat, i: nat, kids: bool) {
    && q < |s.procs| && i <= |s.procs| && s.procs[q].pc == WaitScan(i, kids) && s.wl == By(q) && Unlocked(s)
    && (forall d :: 0 <= d < i ==> !(s.procs[d].parent == q && s.procs[d].state == ZOMBIE))
    && (kids <==> exists d :: 0 <= d < i && s.procs[d].parent == q)
    && s.procs[q].parent != q && s.procs[q].state == RUNNING
  }

  /** Back from wait, with `wait_lock` released. */
  function Back(s: State, q: nat): State
    requires q < |s.procs|
  {
    Goto(s.(wl := Free), q, User)
  }

  /** Asleep in wait. */
  function Sleeper(s: State, q: nat): State
    requires q < |s.procs|
  {
    Put(s.(wl := Free), q, s.procs[q].(state := SLEEPING, chan := q, lk := Sched, pc := Asleep(true)))
  }

  lemma WaitReleases(s: State, q: nat, luck: Luck)
    requires q < |s.procs| && s.procs[q].pc == WaitRel
    ensures Leads(s, q, luck, Back(s, q))
  {
    assert Steps(s, q, luck, Back(s, q));
    LeadsSelf(Back(s, q), q, luck);
    LeadsStep(s, q, luck, Back(s, q), Back(s, q));
  }

  lemma LeadsBack(s: State, q: nat, luck: Luck, s1: State)
    requires q < |s.procs| && Steps(s, q, luck, s1) && q < |s1.procs| && s1.procs[q].pc == WaitRel
    ensures Leads(s, q, luck, Back(s1, q))
  {
    hide Steps;
    WaitReleases(s1, q, luck);
    LeadsStep(s, q, luck, s1, Back(s1, q));
  }

  /** The scan has come to its end: with no child wait returns; otherwise it asks whether the process has been
      killed, returns if it has, and goes to sleep if it has not. */
  lemma ScanEnds(s: State, q: nat, luck: Luck, kids: bool)
    requires Scanning(s, q, |s.procs|, kids)
    ensures !kids || s.procs[q].killed ==> Leads(s, q, luck, Back(s, q))
    ensures kids && !s.procs[q].killed ==> Leads(s, q, luck, Sleeper(s, q))
  {
    hide ThreadStep, Leads, Steps;
    if !kids {
      assert Steps(s, q, luck, Goto(s, q, WaitRel)) by { EndOfScan(s, q, luck, kids); }
      LeadsBack(s, q, luck, Goto(s, q, WaitRel));
      assert Back(Goto(s, q, WaitRel), q) == Back(s, q);
    } else {
      var s1 := Goto(s, q, WaitAsk);
      EndOfScan(s, q, luck, kids);
      var s2 := TakeLock(s1, q, q, WaitAsked);
      AskWhetherKilled(s1, q, luck);
      var s3 := Goto(s, q, if s.procs[q].killed then WaitRel else SleepAcq(true));
      assert s3 == Goto(s1, q, if s.procs[q].killed then WaitRel else SleepAcq(true));
      assert Back(s3, q) == Back(s, q) && Sleeper(s3, q) == Sleeper(s, q);
      if s.procs[q].killed {
        LeadsBack(s2, q, luck, s3);
        LeadsStep(s1, q, luck, s2, Back(s, q));
        LeadsStep(s, q, luck, s1, Back(s, q));
      } else {
        FallsAsleep(s3, q, luck);
        LeadsStep(s2, q, luck, s3, Sleeper(s, q));
        LeadsStep(s1, q, luck, s2, Sleeper(s, q));
        LeadsStep(s, q, luck, s1, Sleeper(s, q));
      }
    }
  }

  lemma EndOfScan(s: State, q: nat, luck: Luck, kids: bool)
    requires q < |s.procs| && s.procs[q].pc == WaitScan(|s.procs|, kids)
    ensures Steps(s, q, luck, Goto(s, q, if kids then WaitAsk else WaitRel))
  {
  }

  lemma AskWhetherKilled(s: State, q: nat, luck: Luck)
    requires q < |s.procs| && s.procs[q].pc == WaitAsk && s.procs[q].lk == Free
    ensures var s1 := TakeLock(s, q, q, WaitAsked);
            Steps(s, q, luck, s1) && Steps(s1, q, luck, Goto(s, q, if s.procs[q].killed then WaitRel else SleepAcq(true)))
  {
    var s1 := TakeLock(s, q, q, WaitAsked);
    assert DropLock(s1, q, q, s1.procs[q], if s.procs[q].killed then WaitRel else SleepAcq(true))
        == Goto(s, q, if s.procs[q].killed then WaitRel else SleepAcq(true));
  }

  lemma FallsAsleep(s: State, q: nat, luck: Luck)
    requires q < |s.procs| && s.procs[q].pc == SleepAcq(true) && s.procs[q].lk == Free
    ensures Leads(s, q, luck, Sleeper(s, q))
  {
    hide Steps, Leads;
    var s' := Sleeper(s, q);
    var s1 := TakeLock(s, q, q, SleepRel(true));
    var s2 := Goto(s1.(wl := Free), q, SleepMark(true));
    var s3 := Put(s2, q, s2.procs[q].(chan := q, state := SLEEPING, pc := SleepSched(true)));
    SleepSteps(s, q, luck);
    LeadsSelf(s', q, luck);
    LeadsStep(s3, q, luck, s', s');
    LeadsStep(s2, q, luck, s3, s');
    LeadsStep(s1, q, luck, s2, s');
    LeadsStep(s, q, luck, s1, s');
  }

  lemma SleepSteps(s: State, q: nat, luck: Luck)
    requires q < |s.procs| && s.procs[q].pc == SleepAcq(true) && s.procs[q].lk == Free
    ensures var s1 := TakeLock(s, q, q, SleepRel(true));
            var s2 := Goto(s1.(wl := Free), q, SleepMark(true));
            var s3 := Put(s2, q, s2.procs[q].(chan := q, state := SLEEPING, pc := SleepSched(true)));
            Steps(s, q, luck, s1) && Steps(s1, q, luck, s2) && Steps(s2, q, luck, s3) && Steps(s3, q, luck, Sleeper(s, q))
  {
    var s1 := TakeLock(s, q, q, SleepRel(true));
    var s2 := Goto(s1.(wl := Free), q, SleepMark(true));
    var s3 := Put(s2, q, s2.procs[q].(chan := q, state := SLEEPING, pc := SleepSched(true)));
    assert Sleeper(s, q) == Goto(SetLock(s3, q, Sched), q, Asleep(true));
  }

  /** A slot that is not that of a child is passed over. */
  lemma PassOver(s: State, q: nat, luck: Luck, i: nat, kids: bool)
    requires q < |s.procs| && s.procs[q].pc == WaitScan(i, kids) && i < |s.procs| && s.procs[i].parent != q
    ensures Steps(s, q, luck, Goto(s, q, WaitScan(i + 1, kids)))
  {
    hide ExitStep, SleepStep, KillStep, ForkStep;
  }

  /** A child is looked at under its lock. */
  lemma LookAt(s: State, q: nat, luck: Luck, i: nat, kids: bool)
    requires q < |s.procs| && s.procs[q].pc == WaitScan(i, kids) && i < |s.procs| && s.procs[i].parent == q && i != q
    requires s.procs[i].lk == Free
    ensures var s1 := TakeLock(s, q, i, WaitCheck(i));
            && Steps(s, q, luck, s1)
            && Steps(s1, q, luck, if s.procs[i].state != ZOMBIE then Goto(s, q, WaitScan(i + 1, true))
                                  else if luck(WaitCheck(i)) == No then Goto(s, q, WaitRel)
                                  else Goto(Put(s, i, Reaped(s.procs[i])), q, WaitRel))
  {
    hide ExitStep, SleepStep, KillStep, ForkStep;
    var s1 := TakeLock(s, q, i, WaitCheck(i));
    TakeForLook(s, q, luck, i, kids);
    CheckIs(s, q, i, luck(WaitCheck(i)));
  }

  lemma TakeForLook(s: State, q: nat, luck: Luck, i: nat, kids: bool)
    requires q < |s.procs| && s.procs[q].pc == WaitScan(i, kids) && i < |s.procs| && s.procs[i].parent == q && i != q
    requires s.procs[i].lk == Free
    ensures Steps(s, q, luck, TakeLock(s, q, i, WaitCheck(i)))
  {
  }

  lemma CheckIs(s: State, q: nat, i: nat, c: Choice)
    requires q < |s.procs| && i < |s.procs| && i != q && s.procs[i].lk == Free
    ensures WaitStep(TakeLock(s, q, i, WaitCheck(i)), q, c)
            == if s.procs[i].state != ZOMBIE then Goto(s, q, WaitScan(i + 1, true))
               else if c == No then Goto(s, q, WaitRel) else Goto(Put(s, i, Reaped(s.procs[i])), q, WaitRel)
  {
    var s1 := TakeLock(s, q, i, WaitCheck(i));
    assert DropLock(s1, q, i, s1.procs[i], WaitScan(i + 1, true)) == Goto(s, q, WaitScan(i + 1, true));
    assert DropLock(s1, q, i, s1.procs[i], WaitRel) == Goto(s, q, WaitRel);
    if s.procs[i].state == ZOMBIE {
      assert DropLock(s1, q, i, Freed(s1.procs[i]), WaitRel) == Goto(Put(s, i, Reaped(s.procs[i])), q, WaitRel);
    }
  }

  lemma ScansOn(s: State, q: nat, i: nat, kids: bool)
    requires Scanning(s, q, i, kids) && i < |s.procs| && !(s.procs[i].parent == q && s.procs[i].state == ZOMBIE)
    ensures Scanning(Goto(s, q, WaitScan(i + 1, kids || s.procs[i].parent == q)), q, i + 1, kids || s.procs[i].parent == q)
  {
    var s' := Goto(s, q, WaitScan(i + 1, kids || s.procs[i].parent == q));
    forall d | 0 <= d < |s.procs| ensures s'.procs[d].parent == s.procs[d].parent {
    }
    if kids {
      var d :| 0 <= d < i && s.procs[d].parent == q;
      assert s'.procs[d].parent == q;
    }
    if d :| 0 <= d < i && s'.procs[d].parent == q {
      assert s.procs[d].parent == q;
    }
  }

  lemma Onward(s: State, s1: State, q: nat, luck: Luck, s': State)
    requires Steps(s, q, luck, s1) && (s1 == s' || Steps(s1, q, luck, s'))
    ensures forall t :: Leads(s', q, luck, t) ==> Leads(s, q, luck, t)
  {
    hide Steps, Leads;
    forall t | Leads(s', q, luck, t) ensures Leads(s, q, luck, t) {
      if s1 != s' {
        LeadsStep(s1, q, luck, s', t);
      }
      LeadsStep(s, q, luck, s1, t);
    }
  }

  /** How wait ends does not depend on where it is. */
  lemma SameFamilies(s: State, q: nat, pc: Pc)
    requires q < |s.procs|
    ensures var s' := Goto(s, q, pc);
            && (forall c :: FirstZombie(s', q, c) <==> FirstZombie(s, q, c))
            && (NoZombieKid(s', q) <==> NoZombieKid(s, q)) && (HasKid(s', q) <==> HasKid(s, q))
            && Back(s', q) == Back(s, q) && Sleeper(s', q) == Sleeper(s, q)
  {
    var s' := Goto(s, q, pc);
    assert forall d :: 0 <= d < |s.procs| ==> s'.procs[d].parent == s.procs[d].parent && s'.procs[d].state == s.procs[d].state;
    if c :| 0 <= c < |s.procs| && s.procs[c].parent == q {
      assert s'.procs[c].parent == q;
    }
  }

  lemma SameReaped(s: State, q: nat, pc: Pc, c: nat)
    requires q < |s.procs| && c < |s.procs| && c != q
    ensures var s' := Goto(s, q, pc); Back(Put(s', c, Reaped(s'.procs[c])), q) == Back(Put(s, c, Reaped(s.procs[c])), q)
  {
  }

  /** What wait comes to, wherever in its scan it is: the first zombie child, if there is one, is freed (or left if
      its status cannot be copied out); otherwise wait returns if there is no child or the process has been
      killed, and goes to sleep if not. */
  ghost predicate Waits(s: State, q: nat, luck: Luck)
    requires q < |s.procs|
  {
    && (forall c: nat :: FirstZombie(s, q, c) && c != q ==>
          Leads(s, q, luck, Back(if luck(WaitCheck(c)) == No then s else Put(s, c, Reaped(s.procs[c])), q)))
    && (NoZombieKid(s, q) && (!HasKid(s, q) || s.procs[q].killed) ==> Leads(s, q, luck, Back(s, q)))
    && (NoZombieKid(s, q) && HasKid(s, q) && !s.procs[q].killed ==> Leads(s, q, luck, Sleeper(s, q)))
  }

  lemma WaitsOn(s: State, s1: State, q: nat, luck: Luck, pc: Pc)
    requires q < |s.procs| && Steps(s, q, luck, s1) && (s1 == Goto(s, q, pc) || Steps(s1, q, luck, Goto(s, q, pc)))
    requires Waits(Goto(s, q, pc), q, luck)
    ensures Waits(s, q, luck)
  {
    hide Steps, Leads, NoZombieKid, HasKid;
    var s' := Goto(s, q, pc);
    SameFamilies(s, q, pc);
    Onward(s, s1, q, luck, s');
    forall c: nat | FirstZombie(s, q, c) && c != q
      ensures Leads(s, q, luck, Back(if luck(WaitCheck(c)) == No then s else Put(s, c, Reaped(s.procs[c])), q))
    {
      assert FirstZombie(s', q, c);
      FirstInTable(s, q, c);
      SameReaped(s, q, pc, c);
    }
  }

  lemma FirstInTable(s: State, q: nat, c: nat)
    requires FirstZombie(s, q, c)
    ensures c < |s.procs| && s.procs[c].parent == q && s.procs[c].state == ZOMBIE && !NoZombieKid(s, q)
    ensures forall d: nat :: FirstZombie(s, q, d) ==> d == c
  {
  }

  lemma {:induction false} ScanOn(s: State, q: nat, luck: Luck, i: nat, kids: bool)
    requires Scanning(s, q, i, kids)
    ensures Waits(s, q, luck)
    decreases |s.procs| - i
  {
    hide ThreadStep, Leads, Steps, Waits;
    if i == |s.procs| {
      ScanOver(s, q, luck, kids);
    } else if s.procs[i].parent != q {
      PassOver(s, q, luck, i, kids);
      ScansOn(s, q, i, kids);
      ScanOn(Goto(s, q, WaitScan(i + 1, kids)), q, luck, i + 1, kids);
      WaitsOn(s, Goto(s, q, WaitScan(i + 1, kids)), q, luck, WaitScan(i + 1, kids));
    } else {
      LookAt(s, q, luck, i, kids);
      if s.procs[i].state == ZOMBIE {
        Reaps(s, q, luck, i, kids);
      } else {
        ScansOn(s, q, i, kids);
        ScanOn(Goto(s, q, WaitScan(i + 1, true)), q, luck, i + 1, true);
        WaitsOn(s, TakeLock(s, q, i, WaitCheck(i)), q, luck, WaitScan(i + 1, true));
      }
    }
  }

  lemma ScanOver(s: State, q: nat, luck: Luck, kids: bool)
    requires Scanning(s, q, |s.procs|, kids)
    ensures Waits(s, q, luck)
  {
    hide Leads;
    ScanEnds(s, q, luck, kids);
  }

  lemma Reaps(s: State, q: nat, luck: Luck, i: nat, kids: bool)
    requires Scanning(s, q, i, kids) && i < |s.procs| && s.procs[i].parent == q && s.procs[i].state == ZOMBIE
    ensures Waits(s, q, luck)
  {
    hide Leads, Steps;
    LookAt(s, q, luck, i, kids);
    var s1 := TakeLock(s, q, i, WaitCheck(i));
    var s2 := if luck(WaitCheck(i)) == No then s else Put(s, i, Reaped(s.procs[i]));
    LeadsBack(s1, q, luck, Goto(s2, q, WaitRel));
    LeadsStep(s, q, luck, s1, Back(Goto(s2, q, WaitRel), q));
    assert Back(Goto(s2, q, WaitRel), q) == Back(s2, q);
    assert FirstZombie(s, q, i);
    FirstInTable(s, q, i);
  }

  // ---- wait, as a call ----

  /** Process `q` is about to take `wait_lock`, and nobody holds a lock. */
  predicate AtWait(s: State, q: nat) {
    && q < |s.procs| && s.wl == Free && Unlocked(s) && s.procs[q].pc == WaitAcq
    && s.procs[q].state == RUNNING && s.procs[q].parent != q
  }

  /** Asleep in wait, the lock of the process still in the scheduler's hands. */
  function AsleepInWait(p: Proc, q: nat): Proc {
    p.(state := SLEEPING, chan := q, lk := Sched, pc := Asleep(true))
  }

  lemma WaitFrom(s: State, q: nat, luck: Luck)
    requires AtWait(s, q)
    ensures forall c: nat :: FirstZombie(s, q, c) ==>
              c != q && Leads(s, q, luck, Goto(if luck(WaitCheck(c)) == No then s else Put(s, c, Reaped(s.procs[c])), q, User))
    ensures NoZombieKid(s, q) && (!HasKid(s, q) || s.procs[q].killed) ==> Leads(s, q, luck, Goto(s, q, User))
    ensures NoZombieKid(s, q) && HasKid(s, q) && !s.procs[q].killed ==> Leads(s, q, luck, Put(s, q, AsleepInWait(s.procs[q], q)))
  {
    hide Leads, Steps, NoZombieKid, HasKid;
    var s1 := Goto(s.(wl := By(q)), q, WaitScan(0, false));
    assert Steps(s, q, luck, s1) by { WaitBegins(s, q, luck); }
    ScanOn(s1, q, luck, 0, false);
    SameFamiliesHeld(s, q);
    Onward(s, s1, q, luck, s1);
    forall c: nat | FirstZombie(s, q, c)
      ensures c != q && Leads(s, q, luck, Goto(if luck(WaitCheck(c)) == No then s else Put(s, c, Reaped(s.procs[c])), q, User))
    {
      FirstInTable(s, q, c);
      assert FirstZombie(s1, q, c);
      assert Back(Put(s1, c, Reaped(s1.procs[c])), q) == Goto(Put(s, c, Reaped(s.procs[c])), q, User);
    }
    assert Sleeper(s1, q) == Put(s, q, AsleepInWait(s.procs[q], q));
  }

  lemma WaitBegins(s: State, q: nat, luck: Luck)
    requires AtWait(s, q)
    ensures var s1 := Goto(s.(wl := By(q)), q, WaitScan(0, false)); Steps(s, q, luck, s1) && Scanning(s1, q, 0, false)
  {
  }

  lemma SameFamiliesHeld(s: State, q: nat)
    requires q < |s.procs| && s.wl == Free
    ensures var s1 := Goto(s.(wl := By(q)), q, WaitScan(0, false));
            && (forall c :: FirstZombie(s1, q, c) <==> FirstZombie(s, q, c))
            && (NoZombieKid(s1, q) <==> NoZombieKid(s, q)) && (HasKid(s1, q) <==> HasKid(s, q)) && Back(s1, q) == Goto(s, q, User)
  {
    var s1 := Goto(s.(wl := By(q)), q, WaitScan(0, false));
    assert forall d :: 0 <= d < |s.procs| ==> s1.procs[d].parent == s.procs[d].parent && s1.procs[d].state == s.procs[d].state;
    assert forall d :: 0 <= d < |s.procs| ==> s.procs[d].parent == s1.procs[d].parent;
    if c :| 0 <= c < |s.procs| && s.procs[c].parent == q {
      assert s1.procs[c].parent == q;
    }
  }

  /** Nobody holds a lock, and process `q` is running, outside the calls modelled. */
  predicate Idle(s: State, q: nat) {
    q < |s.procs| && s.wl == Free && Unlocked(s) && s.procs[q].pc == User && s.procs[q].state == RUNNING && s.procs[q].parent != q
  }

  lemma Called(s: State, q: nat, c: Choice, luck: Luck, pc: Pc, s': State)
    requires Idle(s, q) && c in {Exit, Wait, Sleep, Kill, Fork} && !(c == Exit && q == s.init)
    requires pc == StartCall(c) && Leads(Goto(s, q, pc), q, luck, s')
    ensures Call(s, q, c, luck, s')
  {
    hide Leads;
  }

  /** A whole call of wait. The first zombie child is freed, and nothing else changes; or nothing does, if its
      status cannot be copied out. With no zombie child: nothing changes if there is no child or the process
      has been killed; otherwise it sleeps on its own address. */
  lemma WaitAlone(s: State, q: nat, luck: Luck)
    requires Idle(s, q)
    ensures forall c: nat :: FirstZombie(s, q, c) ==>
              Call(s, q, Wait, luck, if luck(WaitCheck(c)) == No then s else Put(s, c, Reaped(s.procs[c])))
    ensures NoZombieKid(s, q) && (!HasKid(s, q) || s.procs[q].killed) ==> Call(s, q, Wait, luck, s)
    ensures NoZombieKid(s, q) && HasKid(s, q) && !s.procs[q].killed ==>
              Call(s, q, Wait, luck, Put(s, q, AsleepInWait(s.procs[q], q)))
  {
    hide Leads, Call, NoZombieKid, HasKid;
    var s1 := Goto(s, q, WaitAcq);
    WaitFrom(s1, q, luck);
    SameFamilies(s, q, WaitAcq);
    assert Goto(s1, q, User) == s && Put(s1, q, AsleepInWait(s1.procs[q], q)) == Put(s, q, AsleepInWait(s.procs[q], q));
    forall c: nat | FirstZombie(s, q, c)
      ensures Call(s, q, Wait, luck, if luck(WaitCheck(c)) == No then s else Put(s, c, Reaped(s.procs[c])))
    {
      FirstInTable(s, q, c);
      assert FirstZombie(s1, q, c);
      assert Goto(Put(s1, c, Reaped(s1.procs[c])), q, User) == Put(s, c, Reaped(s.procs[c]));
      Called(s, q, Wait, luck, WaitAcq, if luck(WaitCheck(c)) == No then s else Put(s, c, Reaped(s.procs[c])));
    }
    if NoZombieKid(s, q) {
      var s' := if !HasKid(s, q) || s.procs[q].killed then s else Put(s, q, AsleepInWait(s.procs[q], q));
      Called(s, q, Wait, luck, WaitAcq, s');
    }
  }

  // ---- kill ----

  /** Thread `q` has looked at the slots below `i`, and none was the one to be killed. */
  lemma {:induction false} KillOn(s: State, q: nat, luck: Luck, i: nat, v: nat)
    requires q < |s.procs| && s.procs[q].pc == KillAcq(i) && Unlocked(s) && i <= v <= |s.procs|
    requires (forall j: nat :: i <= j < v ==> luck(KillDo(j)) != Yes) && (v < |s.procs| ==> luck(KillDo(v)) == Yes)
    ensures Leads(s, q, luck, if v == |s.procs| then Goto(s, q, User)
                              else Put(Goto(s, q, User), v, Killed(Goto(s, q, User).procs[v])))
    decreases v - i
  {
    hide ThreadStep, Leads, Steps;
    var s' := if v == |s.procs| then Goto(s, q, User) else Put(Goto(s, q, User), v, Killed(Goto(s, q, User).procs[v]));
    KillSteps(s, q, luck, i);
    if i == |s.procs| {
      LeadsSelf(s', q, luck);
      LeadsStep(s, q, luck, s', s');
    } else {
      var s1, s2 := TakeLock(s, q, i, KillDo(i)), Goto(s, q, KillAcq(i + 1));
      if i < v {
        KillOn(s2, q, luck, i + 1, v);
        assert Goto(s2, q, User) == Goto(s, q, User);
        LeadsStep(s1, q, luck, s2, s');
      } else {
        LeadsSelf(s', q, luck);
        LeadsStep(s1, q, luck, s', s');
      }
      LeadsStep(s, q, luck, s1, s');
    }
  }

  /** The slot of a process that has been killed: it runs again if it slept. */
  function Killed(p: Proc): Proc {
    p.(killed := true, state := if p.state == SLEEPING then RUNNABLE else p.state)
  }

  lemma KillSteps(s: State, q: nat, luck: Luck, i: nat)
    requires q < |s.procs| && s.procs[q].pc == KillAcq(i) && Unlocked(s)
    ensures i >= |s.procs| ==> Steps(s, q, luck, Goto(s, q, User))
    ensures i < |s.procs| ==>
              var s1 := TakeLock(s, q, i, KillDo(i));
              && Steps(s, q, luck, s1)
              && Steps(s1, q, luck, if luck(KillDo(i)) == Yes then Put(Goto(s, q, User), i, Killed(Goto(s, q, User).procs[i]))
                                    else Goto(s, q, KillAcq(i + 1)))
  {
    if i < |s.procs| {
      KillTakes(s, q, luck, i);
      hide ExitStep, SleepStep, WaitStep, ForkStep, KillStep;
      KillDoes(s, q, i, luck(KillDo(i)));
    }
  }

  lemma KillTakes(s: State, q: nat, luck: Luck, i: nat)
    requires q < |s.procs| && s.procs[q].pc == KillAcq(i) && i < |s.procs| && s.procs[i].lk == Free
    ensures Steps(s, q, luck, TakeLock(s, q, i, KillDo(i)))
  {
    hide ExitStep, SleepStep, WaitStep, ForkStep, KillStep;
  }

  lemma KillDoes(s: State, q: nat, i: nat, c: Choice)
    requires q < |s.procs| && i < |s.procs| && Unlocked(s)
    ensures KillStep(TakeLock(s, q, i, KillDo(i)), q, c)
            == if c == Yes then Put(Goto(s, q, User), i, Killed(Goto(s, q, User).procs[i])) else Goto(s, q, KillAcq(i + 1))
  {
    var s1 := TakeLock(s, q, i, KillDo(i));
    assert DropLock(s1, q, i, s1.procs[i], KillAcq(i + 1)) == Goto(s, q, KillAcq(i + 1));
    assert DropLock(s1, q, i, KillOne(s1.procs[i]), User) == Put(Goto(s, q, User), i, Killed(Goto(s, q, User).procs[i]));
  }

  /** A whole call of kill: the first slot whose process id matches is marked as killed, and runs again if it slept,
      in whatever call; without a match nothing changes. */
  lemma KillAlone(s: State, q: nat, luck: Luck, v: nat)
    requires Idle(s, q) && v <= |s.procs|
    requires (forall j: nat :: j < v ==> luck(KillDo(j)) != Yes) && (v < |s.procs| ==> luck(KillDo(v)) == Yes)
    ensures Call(s, q, Kill, luck, if v == |s.procs| then s else Put(s, v, Killed(s.procs[v])))
  {
    hide Leads, Call;
    KillOn(Goto(s, q, KillAcq(0)), q, luck, 0, v);
    assert Goto(Goto(s, q, KillAcq(0)), q, User) == s;
    Called(s, q, Kill, luck, KillAcq(0), if v == |s.procs| then s else Put(s, v, Killed(s.procs[v])));
  }

  // ---- fork ----

  /** The first slot, from `i` on, that is not in use; their number if there is none. */
  ghost predicate FirstUnused(s: State, i: nat, v: nat) {
    && i <= v <= |s.procs| && (forall j :: i <= j < v ==> s.procs[j].state != UNUSED)
    && (v < |s.procs| ==> s.procs[v].state == UNUSED)
  }

  /** The slot of a new child of `q`. */
  function Born(p: Proc, q: nat): Proc {
    p.(state := RUNNABLE, parent := q, pc := Parked(User))
  }

  /** The slot of a process that was not to be. */
  function Unborn(p: Proc): Proc {
    p.(state := UNUSED, chan := NO_CHAN, killed := false, parent := NOBODY, pc := Fresh)
  }

  lemma ForkTakes(s: State, q: nat, luck: Luck, i: nat)
    requires q < |s.procs| && s.procs[q].pc == ForkScan(i) && Unlocked(s)
    ensures i >= |s.procs| ==> Steps(s, q, luck, Goto(s, q, User))
    ensures i < |s.procs| ==> Steps(s, q, luck, TakeLock(s, q, i, ForkCheck(i)))
  {
    hide ExitStep, SleepStep, WaitStep, KillStep;
  }

  lemma ForkLooks(s: State, q: nat, luck: Luck, i: nat)
    requires q < |s.procs| && s.procs[q].pc == ForkScan(i) && i < |s.procs| && Unlocked(s)
    ensures var s1 := TakeLock(s, q, i, ForkCheck(i));
            Steps(s1, q, luck, if s.procs[i].state == UNUSED then Goto(Put(s1, i, s1.procs[i].(state := USED)), q, ForkMake(i))
                               else Goto(s, q, ForkScan(i + 1)))
  {
    hide ExitStep, SleepStep, WaitStep, KillStep;
    var s1 := TakeLock(s, q, i, ForkCheck(i));
    assert DropLock(s1, q, i, s1.procs[i], ForkScan(i + 1)) == Goto(s, q, ForkScan(i + 1));
  }

  lemma ForkFills(s: State, q: nat, luck: Luck, i: nat)
    requires q < |s.procs| && i < |s.procs| && i != q && Unlocked(s)
    ensures var s2 := Goto(Put(s, i, s.procs[i].(state := USED, lk := By(q))), q, ForkMake(i));
            Steps(s2, q, luck, if luck(ForkMake(i)) == No then Put(Goto(s, q, User), i, Unborn(s.procs[i]))
                               else Goto(Put(s, i, s.procs[i].(state := USED)), q, ForkAcq(i)))
  {
    ForkMakes(s, q, i, luck(ForkMake(i)));
    hide ExitStep, SleepStep, WaitStep, KillStep, ForkStep, Freed;
  }

  lemma ForkMakes(s: State, q: nat, i: nat, c: Choice)
    requires q < |s.procs| && i < |s.procs| && i != q && Unlocked(s)
    ensures var s2 := Goto(Put(s, i, s.procs[i].(state := USED, lk := By(q))), q, ForkMake(i));
            ForkStep(s2, q, c) == if c == No then Put(Goto(s, q, User), i, Unborn(s.procs[i]))
                                  else Goto(Put(s, i, s.procs[i].(state := USED)), q, ForkAcq(i))
  {
    var s2 := Goto(Put(s, i, s.procs[i].(state := USED, lk := By(q))), q, ForkMake(i));
    assert DropLock(s2, q, i, Freed(s2.procs[i]), User) == Put(Goto(s, q, User), i, Unborn(s.procs[i]));
    assert DropLock(s2, q, i, s2.procs[i], ForkAcq(i)) == Goto(Put(s, i, s.procs[i].(state := USED)), q, ForkAcq(i));
  }

  /** From an allocated slot on: the parent is set under `wait_lock`, then the child made runnable. */
  lemma ForkLinks(s: State, q: nat, luck: Luck, i: nat)
    requires q < |s.procs| && s.procs[q].pc == ForkAcq(i) && i < |s.procs| && i != q && Unlocked(s) && s.wl == Free
    ensures Leads(s, q, luck, Put(Goto(s, q, User), i, Born(s.procs[i], q)))
  {
    hide Steps, Leads;
    var s' := Put(Goto(s, q, User), i, Born(s.procs[i], q));
    var s1 := Goto(s.(wl := By(q)), q, ForkParent(i));
    var s2 := Goto(Put(s, i, s.procs[i].(parent := q)), q, ForkLock(i));
    var s3 := TakeLock(s2, q, i, ForkRun(i));
    ForkParents(s, q, luck, i);
    ForkRuns(s, q, luck, i);
    LeadsSelf(s', q, luck);
    LeadsStep(s3, q, luck, s', s');
    LeadsStep(s2, q, luck, s3, s');
    LeadsStep(s1, q, luck, s2, s');
    LeadsStep(s, q, luck, s1, s');
  }

  lemma ForkParents(s: State, q: nat, luck: Luck, i: nat)
    requires q < |s.procs| && s.procs[q].pc == ForkAcq(i) && i < |s.procs| && i != q && s.wl == Free
    ensures var s1 := Goto(s.(wl := By(q)), q, ForkParent(i));
            Steps(s, q, luck, s1) && Steps(s1, q, luck, Goto(Put(s, i, s.procs[i].(parent := q)), q, ForkLock(i)))
  {
    hide ExitStep, SleepStep, WaitStep, KillStep;
    var s1 := Goto(s.(wl := By(q)), q, ForkParent(i));
    assert Goto(Put(s1.(wl := Free), i, s1.procs[i].(parent := q)), q, ForkLock(i))
        == Goto(Put(s, i, s.procs[i].(parent := q)), q, ForkLock(i));
  }

  lemma ForkRuns(s: State, q: nat, luck: Luck, i: nat)
    requires q < |s.procs| && i < |s.procs| && i != q && s.procs[i].lk == Free
    ensures var s2 := Goto(Put(s, i, s.procs[i].(parent := q)), q, ForkLock(i));
            var s3 := TakeLock(s2, q, i, ForkRun(i));
            Steps(s2, q, luck, s3) && Steps(s3, q, luck, Put(Goto(s, q, User), i, Born(s.procs[i], q)))
  {
    ForkLocksAgain(Goto(Put(s, i, s.procs[i].(parent := q)), q, ForkLock(i)), q, luck, i);
    ForkStarts(s, q, i, luck(ForkRun(i)));
    hide ExitStep, SleepStep, WaitStep, KillStep, ForkStep;
  }

  lemma ForkLocksAgain(s: State, q: nat, luck: Luck, i: nat)
    requires q < |s.procs| && i < |s.procs| && s.procs[q].pc == ForkLock(i) && s.procs[i].lk == Free
    ensures Steps(s, q, luck, TakeLock(s, q, i, ForkRun(i)))
  {
    hide ExitStep, SleepStep, WaitStep, KillStep, ForkStep;
  }

  lemma ForkStarts(s: State, q: nat, i: nat, c: Choice)
    requires q < |s.procs| && i < |s.procs| && i != q && s.procs[i].lk == Free
    ensures var s2 := Goto(Put(s, i, s.procs[i].(parent := q)), q, ForkLock(i));
            ForkStep(TakeLock(s2, q, i, ForkRun(i)), q, c) == Put(Goto(s, q, User), i, Born(s.procs[i], q))
  {
    var s2 := Goto(Put(s, i, s.procs[i].(parent := q)), q, ForkLock(i));
    var s3 := TakeLock(s2, q, i, ForkRun(i));
    assert DropLock(s3, q, i, s3.procs[i].(state := RUNNABLE, pc := Parked(User)), User)
        == Put(Goto(s, q, User), i, Born(s.procs[i], q));
  }

  lemma {:induction false} ForkOn(s: State, q: nat, luck: Luck, i: nat, v: nat)
    requires q < |s.procs| && s.procs[q].pc == ForkScan(i) && s.procs[q].state == RUNNING && Unlocked(s) && s.wl == Free
    requires FirstUnused(s, i, v)
    ensures Leads(s, q, luck, if v == |s.procs| then Goto(s, q, User)
                              else if luck(ForkMake(v)) == No then Put(Goto(s, q, User), v, Unborn(s.procs[v]))
                              else Put(Goto(s, q, User), v, Born(s.procs[v], q)))
    decreases v - i
  {
    hide Leads, Steps;
    var s' := if v == |s.procs| then Goto(s, q, User)
              else Put(Goto(s, q, User), v, if luck(ForkMake(v)) == No then Unborn(s.procs[v]) else Born(s.procs[v], q));
    ForkTakes(s, q, luck, i);
    if i == |s.procs| {
      LeadsSelf(s', q, luck);
      LeadsStep(s, q, luck, s', s');
    } else {
      ForkLooks(s, q, luck, i);
      var s1 := TakeLock(s, q, i, ForkCheck(i));
      if i < v {
        var s2 := Goto(s, q, ForkScan(i + 1));
        ForkOn(s2, q, luck, i + 1, v);
        assert Goto(s2, q, User) == Goto(s, q, User) && (v < |s.procs| && v != q ==> s2.procs[v] == s.procs[v]);
        LeadsStep(s1, q, luck, s2, s');
      } else {
        ForkHere(s, q, luck, i);
      }
      LeadsStep(s, q, luck, s1, s');
    }
  }

  lemma ForkHere(s: State, q: nat, luck: Luck, i: nat)
    requires q < |s.procs| && s.procs[q].pc == ForkScan(i) && i < |s.procs| && i != q && Unlocked(s) && s.wl == Free
    requires s.procs[i].state == UNUSED
    ensures Leads(TakeLock(s, q, i, ForkCheck(i)), q, luck,
                  Put(Goto(s, q, User), i, if luck(ForkMake(i)) == No then Unborn(s.procs[i]) else Born(s.procs[i], q)))
  {
    hide Leads, Steps;
    ForkLooks(s, q, luck, i);
    ForkFills(s, q, luck, i);
    var s1 := TakeLock(s, q, i, ForkCheck(i));
    var s2 := Goto(Put(s, i, s.procs[i].(state := USED, lk := By(q))), q, ForkMake(i));
    var s' := Put(Goto(s, q, User), i, if luck(ForkMake(i)) == No then Unborn(s.procs[i]) else Born(s.procs[i], q));
    assert Goto(Put(s1, i, s1.procs[i].(state := USED)), q, ForkMake(i)) == s2;
    if luck(ForkMake(i)) == No {
      LeadsSelf(s', q, luck);
      LeadsStep(s2, q, luck, s', s');
    } else {
      var s3 := Goto(Put(s, i, s.procs[i].(state := USED)), q, ForkAcq(i));
      ForkLinks(s3, q, luck, i);
      assert Put(Goto(s3, q, User), i, Born(s3.procs[i], q)) == s';
      LeadsStep(s2, q, luck, s3, s');
    }
    LeadsStep(s1, q, luck, s2, s');
  }

  /** A whole call of fork: the first unused slot becomes a runnable child of the caller, ready to go on outside the
      calls modelled; if memory runs out for it the slot is unused again; without such a slot nothing changes. */
  lemma ForkAlone(s: State, q: nat, luck: Luck, v: nat)
    requires Idle(s, q) && FirstUnused(s, 0, v)
    ensures Call(s, q, Fork, luck, if v == |s.procs| then s
                                   else Put(s, v, if luck(ForkMake(v)) == No then Unborn(s.procs[v]) else Born(s.procs[v], q)))
  {
    hide Leads, Call;
    var s1 := Goto(s, q, ForkScan(0));
    ForkOn(s1, q, luck, 0, v);
    assert Goto(s1, q, User) == s && (v < |s.procs| ==> v != q && s1.procs[v] == s.procs[v]);
    Called(s, q, Fork, luck, ForkScan(0),
           if v == |s.procs| then s else Put(s, v, if luck(ForkMake(v)) == No then Unborn(s.procs[v]) else Born(s.procs[v], q)));
  }

  // ---- exit ----

  /** The processes from `j` on that sleep on `chan` run again, except the one that runs the wakeup. */
  function WokenFrom(s: State, q: nat, j: nat, chan: int): State {
    s.(procs := seq(|s.procs|, x requires 0 <= x < |s.procs| => if x >= j && x != q then Woke(s.procs[x], chan) else s.procs[x]))
  }

  predicate AtWakeup(pc: Pc, j: nat) {
    (pc.ExitTell? || pc.ExitWake?) && pc.j == j && !pc.held
  }

  /** Where the loop of wakeup is, with the lock of slot `j` or without. */
  function At(pc: Pc, j: nat, held: bool): Pc
    requires pc.ExitTell? || pc.ExitWake?
  {
    match pc
    case ExitTell(_, _) => ExitTell(j, held)
    case ExitWake(i, _, _) => ExitWake(i, j, held)
  }

  /** The channel woken: that of the parent, or that of init. */
  function Chan(s: State, q: nat): int
    requires q < |s.procs|
  {
    if s.procs[q].pc.ExitTell? then s.procs[q].parent else s.init
  }

  lemma WakeTakes(s: State, q: nat, luck: Luck, j: nat)
    requires q < |s.procs| && AtWakeup(s.procs[q].pc, j) && j < |s.procs| && s.procs[j].lk == Free && j != q
    ensures Steps(s, q, luck, TakeLock(s, q, j, At(s.procs[q].pc, j, true)))
  {
    hide ExitStep, ForkStep, SleepStep, WaitStep, KillStep;
  }

  lemma WakeDoes(s: State, q: nat, j: nat)
    requires q < |s.procs| && AtWakeup(s.procs[q].pc, j) && j < |s.procs| && s.procs[j].lk == Free && j != q
    ensures ExitStep(TakeLock(s, q, j, At(s.procs[q].pc, j, true)), q)
            == Goto(Put(s, j, Woke(s.procs[j], Chan(s, q))), q, At(s.procs[q].pc, j + 1, false))
  {
    var pc := At(s.procs[q].pc, j + 1, false);
    var s1 := TakeLock(s, q, j, At(s.procs[q].pc, j, true));
    assert DropLock(s1, q, j, Woke(s1.procs[j], Chan(s, q)), pc) == Goto(Put(s, j, Woke(s.procs[j], Chan(s, q))), q, pc);
  }

  lemma WakeGoes(s: State, q: nat, luck: Luck, j: nat)
    requires q < |s.procs| && AtWakeup(s.procs[q].pc, j) && j < |s.procs| && s.procs[j].lk == Free && j != q
    ensures var s1 := TakeLock(s, q, j, At(s.procs[q].pc, j, true)); Steps(s1, q, luck, ExitStep(s1, q))
  {
    hide ExitStep, ForkStep, SleepStep, WaitStep, KillStep;
  }

  lemma WakeSkips(s: State, q: nat, luck: Luck, j: nat)
    requires q < |s.procs| && AtWakeup(s.procs[q].pc, j) && (j >= |s.procs| || j == q)
    ensures Steps(s, q, luck, ExitStep(s, q))
    ensures ExitStep(s, q)
            == Goto(s, q, if j < |s.procs| then At(s.procs[q].pc, j + 1, false)
                          else if s.procs[q].pc.ExitTell? then ExitLock else ExitScan(s.procs[q].pc.i + 1))
  {
    hide ForkStep, SleepStep, WaitStep, KillStep;
  }

  /** What is left of a wakeup: everybody from `j` on who sleeps on the channel runs again. */
  lemma {:induction false} WakeOn(s: State, q: nat, luck: Luck, j: nat)
    requires q < |s.procs| && AtWakeup(s.procs[q].pc, j) && j <= |s.procs| && Unlocked(s)
    ensures Leads(s, q, luck, Goto(WokenFrom(s, q, j, Chan(s, q)), q,
                                   if s.procs[q].pc.ExitTell? then ExitLock else ExitScan(s.procs[q].pc.i + 1)))
    decreases |s.procs| - j
  {
    hide Leads, Steps, Woke, ExitStep;
    var out := if s.procs[q].pc.ExitTell? then ExitLock else ExitScan(s.procs[q].pc.i + 1);
    var s' := Goto(WokenFrom(s, q, j, Chan(s, q)), q, out);
    if j == |s.procs| {
      WakeSkips(s, q, luck, j);
      assert Goto(s, q, out) == s';
      LeadsSelf(s', q, luck);
      LeadsStep(s, q, luck, s', s');
    } else if j == q {
      var s1 := Goto(s, q, At(s.procs[q].pc, j + 1, false));
      WakeSkips(s, q, luck, j);
      WakeOn(s1, q, luck, j + 1);
      assert Goto(WokenFrom(s1, q, j + 1, Chan(s1, q)), q, out) == s';
      LeadsStep(s, q, luck, s1, s');
    } else {
      WakeTakes(s, q, luck, j);
      WakeDoes(s, q, j);
      WakeGoes(s, q, luck, j);
      var s1 := TakeLock(s, q, j, At(s.procs[q].pc, j, true));
      var s2 := Goto(Put(s, j, Woke(s.procs[j], Chan(s, q))), q, At(s.procs[q].pc, j + 1, false));
      WokeKeepsLock(s.procs[j], Chan(s, q));
      WakeOn(s2, q, luck, j + 1);
      assert Goto(WokenFrom(s2, q, j + 1, Chan(s2, q)), q, out) == s';
      LeadsStep(s1, q, luck, s2, s');
      LeadsStep(s, q, luck, s1, s');
    }
  }

  lemma WokeKeepsLock(p: Proc, chan: int)
    ensures Woke(p, chan).lk == p.lk && Woke(p, chan).parent == p.parent && Woke(p, chan).pc == p.pc
  {
  }

  /** A child of `q` in a slot from `i` on. */
  ghost predicate KidFrom(s: State, q: nat, i: nat) {
    exists d :: i <= d < |s.procs| && s.procs[d].parent == q
  }

  /** The children of `q` from slot `i` on have been given to init, and if there are any, init woken. */
  ghost function Orphaned(s: State, q: nat, i: nat): (s': State)
    ensures |s'.procs| == |s.procs|
  {
    s.(procs := seq(|s.procs|, x requires 0 <= x < |s.procs| => OrphanedAt(s, q, i, x)))
  }

  ghost function OrphanedAt(s: State, q: nat, i: nat, x: nat): Proc
    requires x < |s.procs|
  {
    var p := if x >= i && s.procs[x].parent == q then s.procs[x].(parent := s.init) else s.procs[x];
    if x != q && KidFrom(s, q, i) then Woke(p, s.init) else p
  }

  lemma ScanStep(s: State, q: nat, luck: Luck, i: nat)
    requires q < |s.procs| && s.procs[q].pc == ExitScan(i)
    ensures Steps(s, q, luck, if i >= |s.procs| then Goto(s, q, ExitTell(0, false))
                              else if s.procs[i].parent == q
                              then Goto(Put(s, i, s.procs[i].(parent := s.init)), q, ExitWake(i, 0, false))
                              else Goto(s, q, ExitScan(i + 1)))
  {
    hide ForkStep, SleepStep, WaitStep, KillStep;
  }

  lemma OrphanPassed(s: State, q: nat, i: nat)
    requires q < |s.procs| && s.procs[q].parent != q && i < |s.procs| && s.procs[i].parent != q
    ensures var s1 := Goto(s, q, ExitScan(i + 1));
            Goto(Orphaned(s1, q, i + 1), q, ExitTell(0, false)) == Goto(Orphaned(s, q, i), q, ExitTell(0, false))
  {
    var s1 := Goto(s, q, ExitScan(i + 1));
    SameKids(s, s1, q, i, i + 1);
    forall x | 0 <= x < |s.procs| && x != q ensures OrphanedAt(s1, q, i + 1, x) == OrphanedAt(s, q, i, x) {
    }
  }

  lemma SameKids(s: State, s1: State, q: nat, i: nat, j: nat)
    requires |s1.procs| == |s.procs| && i <= j
    requires forall x :: 0 <= x < |s.procs| && x >= j ==> s1.procs[x].parent == s.procs[x].parent
    requires forall x :: i <= x < j && x < |s.procs| ==> s.procs[x].parent != q
    ensures KidFrom(s1, q, j) <==> KidFrom(s, q, i)
  {
    if d :| i <= d < |s.procs| && s.procs[d].parent == q {
      assert s1.procs[d].parent == q;
    }
    if d :| j <= d < |s1.procs| && s1.procs[d].parent == q {
      assert s.procs[d].parent == q;
    }
  }

  /** A child is given to init, and init woken. */
  lemma OrphanGiven(s: State, q: nat, i: nat, s2: State)
    requires q < |s.procs| && s.procs[q].parent != q && i < |s.procs| && s.procs[i].parent == q && s.init != q
    requires s2 == Goto(WokenFrom(Put(s, i, s.procs[i].(parent := s.init)), q, 0, s.init), q, ExitScan(i + 1))
    ensures Goto(Orphaned(s2, q, i + 1), q, ExitTell(0, false)) == Goto(Orphaned(s, q, i), q, ExitTell(0, false))
    ensures s2.procs[q].parent != q && s2.init == s.init && (Unlocked(s) ==> Unlocked(s2))
  {
    assert KidFrom(s, q, i);
    forall x | 0 <= x < |s.procs| && x != q ensures OrphanedAt(s2, q, i + 1, x) == OrphanedAt(s, q, i, x) {
    }
  }

  lemma {:induction false} OrphanOn(s: State, q: nat, luck: Luck, i: nat)
    requires q < |s.procs| && s.procs[q].pc == ExitScan(i) && s.procs[q].parent != q && s.init != q
    requires Unlocked(s) && i <= |s.procs|
    ensures Leads(s, q, luck, Goto(Orphaned(s, q, i), q, ExitTell(0, false)))
    decreases |s.procs| - i
  {
    hide Leads, Steps, Woke, Orphaned, Unlocked;
    var s' := Goto(Orphaned(s, q, i), q, ExitTell(0, false));
    ScanStep(s, q, luck, i);
    if i == |s.procs| {
      NoOrphans(s, q);
      LeadsSelf(s', q, luck);
      LeadsStep(s, q, luck, s', s');
    } else if s.procs[i].parent != q {
      var s1 := Goto(s, q, ExitScan(i + 1));
      StillUnlocked(s, q, s.procs[q].(pc := ExitScan(i + 1)));
      OrphanOn(s1, q, luck, i + 1);
      OrphanPassed(s, q, i);
      LeadsStep(s, q, luck, s1, s');
    } else {
      var s0 := Put(s, i, s.procs[i].(parent := s.init));
      var s1 := Goto(s0, q, ExitWake(i, 0, false));
      StillUnlocked(s, i, s.procs[i].(parent := s.init));
      StillUnlocked(s0, q, s0.procs[q].(pc := ExitWake(i, 0, false)));
      WakeOn(s1, q, luck, 0);
      var s2 := Goto(WokenFrom(s0, q, 0, s.init), q, ExitScan(i + 1));
      assert s2 == Goto(WokenFrom(s1, q, 0, Chan(s1, q)), q, ExitScan(i + 1));
      OrphanGiven(s, q, i, s2);
      OrphanOn(s2, q, luck, i + 1);
      LeadsOn(s1, q, luck, s2, s');
      LeadsStep(s, q, luck, s1, s');
    }
  }

  lemma NoOrphans(s: State, q: nat)
    requires q < |s.procs|
    ensures Orphaned(s, q, |s.procs|) == s
  {
    forall x | 0 <= x < |s.procs| ensures OrphanedAt(s, q, |s.procs|, x) == s.procs[x] {
    }
  }

  lemma StillUnlocked(s: State, i: nat, p: Proc)
    requires i < |s.procs| && Unlocked(s) && p.lk == s.procs[i].lk
    ensures Unlocked(Put(s, i, p))
  {
  }

  /** The slots after the exit of `q`: it is a zombie that has switched off its CPU; its children are those of init,
      and init has been woken if there were any; its parent has been woken. */
  ghost function Exited(s: State, q: nat, x: nat): Proc
    requires q < |s.procs| && x < |s.procs|
  {
    var p := s.procs[x];
    if x == q then p.(state := ZOMBIE, pc := Gone, lk := Sched, counts := Counts(p.counts.exits + 1, p.counts.frees))
    else p.(parent := if p.parent == q then s.init else p.parent,
            state := if p.state == SLEEPING && (p.chan == s.procs[q].parent || (HasKid(s, q) && p.chan == s.init))
                     then RUNNABLE else p.state)
  }

  ghost function AfterExit(s: State, q: nat): State
    requires q < |s.procs|
  {
    s.(procs := seq(|s.procs|, x requires 0 <= x < |s.procs| => Exited(s, q, x)))
  }

  /** A whole call of exit, which does not return. */
  lemma ExitAlone(s: State, q: nat, luck: Luck)
    requires Idle(s, q) && q != s.init
    ensures Call(s, q, Exit, luck, AfterExit(s, q))
  {
    hide Leads, Call, Steps, Orphaned, Woke, AfterExit;
    var s1 := Goto(s, q, ExitAcq);
    var s2 := Goto(s.(wl := By(q)), q, ExitScan(0));
    ExitBegins(s, q, luck);
    OrphanOn(s2, q, luck, 0);
    var s3 := Goto(Orphaned(s2, q, 0), q, ExitTell(0, false));
    OrphansUnlocked(s2, q);
    WakeOn(s3, q, luck, 0);
    var s4 := Goto(WokenFrom(s3, q, 0, Chan(s3, q)), q, ExitLock);
    ExitOver(s, q, luck, s2, s3, s4);
    LeadsOn(s3, q, luck, s4, AfterExit(s, q));
    LeadsOn(s2, q, luck, s3, AfterExit(s, q));
    LeadsStep(s1, q, luck, s2, AfterExit(s, q));
    Called(s, q, Exit, luck, ExitAcq, AfterExit(s, q));
  }

  lemma ExitBegins(s: State, q: nat, luck: Luck)
    requires Idle(s, q)
    ensures var s2 := Goto(s.(wl := By(q)), q, ExitScan(0)); Steps(Goto(s, q, ExitAcq), q, luck, s2) && Unlocked(s2)
  {
    hide ForkStep, SleepStep, WaitStep, KillStep;
    var s1 := Goto(s, q, ExitAcq);
    assert Goto(s1.(wl := By(q)), q, ExitScan(0)) == Goto(s.(wl := By(q)), q, ExitScan(0));
  }

  lemma OrphansUnlocked(s: State, q: nat)
    requires q < |s.procs| && Unlocked(s) && s.procs[q].parent != q
    ensures var s3 := Goto(Orphaned(s, q, 0), q, ExitTell(0, false));
            Unlocked(s3) && s3.procs[q].parent == s.procs[q].parent && Chan(s3, q) == s.procs[q].parent
  {
  }

  /** Nobody is left to be woken: the process becomes a zombie and switches to the scheduler. */
  lemma ExitOver(s: State, q: nat, luck: Luck, s2: State, s3: State, s4: State)
    requires Idle(s, q) && s2 == Goto(s.(wl := By(q)), q, ExitScan(0))
    requires s3 == Goto(Orphaned(s2, q, 0), q, ExitTell(0, false))
    requires s4 == Goto(WokenFrom(s3, q, 0, s.procs[q].parent), q, ExitLock)
    ensures Leads(s4, q, luck, AfterExit(s, q))
  {
    hide Leads, Steps;
    LastSteps(s4, q, luck);
    var p := s4.procs[q];
    var last := p.(state := ZOMBIE, pc := Gone, lk := Sched, counts := Counts(p.counts.exits + 1, p.counts.frees));
    var s' := Put(s4.(wl := Free), q, last);
    assert s' == AfterExit(s, q) by {
      SameKids(s, s2, q, 0, 0);
      assert KidFrom(s, q, 0) <==> HasKid(s, q);
      forall x | 0 <= x < |s.procs| ensures s'.procs[x] == Exited(s, q, x) {
      }
    }
  }

  lemma LastSteps(s: State, q: nat, luck: Luck)
    requires q < |s.procs| && s.procs[q].pc == ExitLock && s.procs[q].lk == Free
    ensures var p := s.procs[q];
            Leads(s, q, luck, Put(s.(wl := Free), q, p.(state := ZOMBIE, pc := Gone, lk := Sched,
                                                        counts := Counts(p.counts.exits + 1, p.counts.frees))))
  {
    hide Leads, Steps;
    var p := s.procs[q];
    var s' := Put(s.(wl := Free), q, p.(state := ZOMBIE, pc := Gone, lk := Sched,
                                          counts := Counts(p.counts.exits + 1, p.counts.frees)));
    var s1 := TakeLock(s, q, q, ExitMark);
    var s2 := Put(s, q, p.(state := ZOMBIE, pc := ExitRel, lk := By(q), counts := Counts(p.counts.exits + 1, p.counts.frees)));
    var s3 := Goto(s2.(wl := Free), q, ExitSched);
    MarkSteps(s, q, luck);
    SwitchSteps(s2, q, luck);
    assert Goto(SetLock(s3, q, Sched), q, Gone) == s';
    LeadsSelf(s', q, luck);
    LeadsStep(s3, q, luck, s', s');
    LeadsStep(s2, q, luck, s3, s');
    LeadsStep(s1, q, luck, s2, s');
    LeadsStep(s, q, luck, s1, s');
  }

  lemma MarkSteps(s: State, q: nat, luck: Luck)
    requires q < |s.procs| && s.procs[q].pc == ExitLock && s.procs[q].lk == Free
    ensures var p, s1 := s.procs[q], TakeLock(s, q, q, ExitMark);
            && Steps(s, q, luck, s1)
            && Steps(s1, q, luck, Put(s, q, p.(state := ZOMBIE, pc := ExitRel, lk := By(q),
                                                 counts := Counts(p.counts.exits + 1, p.counts.frees))))
  {
    hide ForkStep, SleepStep, WaitStep, KillStep;
  }

  lemma SwitchSteps(s: State, q: nat, luck: Luck)
    requires q < |s.procs| && s.procs[q].pc == ExitRel
    ensures var s1 := Goto(s.(wl := Free), q, ExitSched);
            Steps(s, q, luck, s1) && Steps(s1, q, luck, Goto(SetLock(s1, q, Sched), q, Gone))
  {
    hide ForkStep, SleepStep, WaitStep, KillStep;
  }

  // ---- sleep ----

  /** A whole call of sleep, other than that of wait: the process sleeps, its lock with the scheduler. */
  lemma SleepAlone(s: State, q: nat, luck: Luck)
    requires Idle(s, q)
    ensures Call(s, q, Sleep, luck, Put(s, q, s.procs[q].(state := SLEEPING, chan := OTHER_CHAN, lk := Sched,
                                                              pc := Asleep(false))))
  {
    hide Leads, Call, Steps;
    var s' := Put(s, q, s.procs[q].(state := SLEEPING, chan := OTHER_CHAN, lk := Sched, pc := Asleep(false)));
    var s0 := Goto(s, q, SleepAcq(false));
    var s1 := TakeLock(s0, q, q, SleepRel(false));
    var s2 := Goto(s1, q, SleepMark(false));
    var s3 := Put(s2, q, s2.procs[q].(chan := OTHER_CHAN, state := SLEEPING, pc := SleepSched(false)));
    OtherSleepSteps(s0, q, luck);
    assert Goto(SetLock(s3, q, Sched), q, Asleep(false)) == s';
    LeadsSelf(s', q, luck);
    LeadsStep(s3, q, luck, s', s');
    LeadsStep(s2, q, luck, s3, s');
    LeadsStep(s1, q, luck, s2, s');
    LeadsStep(s0, q, luck, s1, s');
    Called(s, q, Sleep, luck, SleepAcq(false), s');
  }

  lemma OtherSleepSteps(s: State, q: nat, luck: Luck)
    requires q < |s.procs| && s.procs[q].pc == SleepAcq(false) && s.procs[q].lk == Free
    ensures var s1 := TakeLock(s, q, q, SleepRel(false));
            var s2 := Goto(s1, q, SleepMark(false));
            var s3 := Put(s2, q, s2.procs[q].(chan := OTHER_CHAN, state := SLEEPING, pc := SleepSched(false)));
            && Steps(s, q, luck, s1) && Steps(s1, q, luck, s2) && Steps(s2, q, luck, s3)
            && Steps(s3, q, luck, Goto(SetLock(s3, q, Sched), q, Asleep(false)))
  {
    OtherSleepLocks(s, q, luck);
    var s2 := Goto(TakeLock(s, q, q, SleepRel(false)), q, SleepMark(false));
    OtherSleepMarks(s2, q, luck);
    hide Steps;
  }

  lemma OtherSleepLocks(s: State, q: nat, luck: Luck)
    requires q < |s.procs| && s.procs[q].pc == SleepAcq(false) && s.procs[q].lk == Free
    ensures var s1 := TakeLock(s, q, q, SleepRel(false));
            Steps(s, q, luck, s1) && Steps(s1, q, luck, Goto(s1, q, SleepMark(false)))
  {
    hide ForkStep, ExitStep, WaitStep, KillStep;
  }

  lemma OtherSleepMarks(s: State, q: nat, luck: Luck)
    requires q < |s.procs| && s.procs[q].pc == SleepMark(false)
    ensures var s1 := Put(s, q, s.procs[q].(chan := OTHER_CHAN, state := SLEEPING, pc := SleepSched(false)));
            Steps(s, q, luck, s1) && Steps(s1, q, luck, Goto(SetLock(s1, q, Sched), q, Asleep(false)))
  {
    hide ForkStep, ExitStep, WaitStep, KillStep;
  }

  /** Back on a CPU after a wakeup: from wait the process goes round to the scan again, from anywhere else it returns. */
  lemma WakesUp(s: State, q: nat, luck: Luck, inWait: bool)
    requires q < |s.procs| && s.procs[q].pc == Woken(inWait) && s.procs[q].lk == By(q)
    ensures Leads(s, q, luck, Put(s, q, s.procs[q].(chan := NO_CHAN, lk := Free, pc := if inWait then WaitAcq else User)))
  {
    hide ForkStep, ExitStep, WaitStep, KillStep, Leads;
    var s' := Put(s, q, s.procs[q].(chan := NO_CHAN, lk := Free, pc := if inWait then WaitAcq else User));
    assert Steps(s, q, luck, s');
    LeadsSelf(s', q, luck);
    LeadsStep(s, q, luck, s', s');
  }

  // ---- yield ----

  /** A thread preempted by the timer gives up its CPU, and once the scheduler has picked it again goes on where it
      was: nothing has changed. */
  lemma YieldAlone(s: State, q: nat, luck: Luck)
    requires CanPreempt(s, q) && s.procs[q].state == RUNNING && s.procs[q].lk == Free
    ensures var away := Put(s, q, s.procs[q].(state := RUNNABLE, lk := Sched, pc := Parked(s.procs[q].pc)));
            && Leads(Preempt(s, q), q, luck, away) && CanRelease(away, q) && CanDispatch(SchedRelease(away, q), q)
            && Leads(Dispatch(SchedRelease(away, q), q), q, luck, s)
  {
    hide Leads, Steps;
    var p := s.procs[q];
    var away := Put(s, q, p.(state := RUNNABLE, lk := Sched, pc := Parked(p.pc)));
    var s1 := TakeLock(Preempt(s, q), q, q, YieldMark(p.pc));
    var s2 := Put(s, q, p.(state := RUNNABLE, lk := By(q), pc := YieldSched(p.pc)));
    YieldSteps(s, q, luck);
    LeadsSelf(away, q, luck);
    LeadsStep(s2, q, luck, away, away);
    LeadsStep(s1, q, luck, s2, away);
    LeadsStep(Preempt(s, q), q, luck, s1, away);
    YieldEnds(s, q, luck);
    LeadsSelf(s, q, luck);
    LeadsStep(Put(s, q, p.(lk := By(q), pc := Resumed(p.pc))), q, luck, s, s);
    assert Dispatch(SchedRelease(away, q), q) == Put(s, q, p.(lk := By(q), pc := Resumed(p.pc)));
  }

  lemma YieldSteps(s: State, q: nat, luck: Luck)
    requires CanPreempt(s, q) && s.procs[q].state == RUNNING && s.procs[q].lk == Free
    ensures var p := s.procs[q];
            var s1 := TakeLock(Preempt(s, q), q, q, YieldMark(p.pc));
            var s2 := Put(s, q, p.(state := RUNNABLE, lk := By(q), pc := YieldSched(p.pc)));
            && Steps(Preempt(s, q), q, luck, s1) && Steps(s1, q, luck, s2)
            && Steps(s2, q, luck, Put(s, q, p.(state := RUNNABLE, lk := Sched, pc := Parked(p.pc))))
  {
    YieldLocks(s, q, luck, s.procs[q].pc);
    YieldMarks(s, q, luck, s.procs[q].pc);
    YieldSwitches(s, q, luck, s.procs[q].pc);
    hide Steps;
  }

  lemma YieldLocks(s: State, q: nat, luck: Luck, pc: Pc)
    requires CanPreempt(s, q) && s.procs[q].lk == Free && s.procs[q].pc == pc
    ensures Steps(Preempt(s, q), q, luck, TakeLock(Preempt(s, q), q, q, YieldMark(pc)))
  {
    hide ForkStep, ExitStep, WaitStep, KillStep, SleepStep;
  }

  lemma YieldMarks(s: State, q: nat, luck: Luck, pc: Pc)
    requires CanPreempt(s, q) && s.procs[q].lk == Free && s.procs[q].pc == pc
    ensures Steps(TakeLock(Preempt(s, q), q, q, YieldMark(pc)), q, luck,
                  Put(s, q, s.procs[q].(state := RUNNABLE, lk := By(q), pc := YieldSched(pc))))
  {
    hide ForkStep, ExitStep, WaitStep, KillStep;
  }

  lemma YieldSwitches(s: State, q: nat, luck: Luck, pc: Pc)
    requires q < |s.procs|
    ensures Steps(Put(s, q, s.procs[q].(state := RUNNABLE, lk := By(q), pc := YieldSched(pc))), q, luck,
                  Put(s, q, s.procs[q].(state := RUNNABLE, lk := Sched, pc := Parked(pc))))
  {
    hide ForkStep, ExitStep, WaitStep, KillStep;
    var s2 := Put(s, q, s.procs[q].(state := RUNNABLE, lk := By(q), pc := YieldSched(pc)));
    assert Goto(SetLock(s2, q, Sched), q, Parked(pc)) == Put(s, q, s.procs[q].(state := RUNNABLE, lk := Sched, pc := Parked(pc)));
  }

  lemma YieldEnds(s: State, q: nat, luck: Luck)
    requires q < |s.procs| && s.procs[q].state == RUNNING && s.procs[q].lk == Free
    ensures var p := s.procs[q]; Steps(Put(s, q, p.(lk := By(q), pc := Resumed(p.pc))), q, luck, s)
  {
    hide ForkStep, ExitStep, WaitStep, KillStep;
    var p := s.procs[q];
    var s1 := Put(s, q, p.(lk := By(q), pc := Resumed(p.pc)));
    assert DropLock(s1, q, q, s1.procs[q], p.pc) == s;
  }

  // ---- A child exits while its parent sleeps in wait ----

  predicate SleepsFor(s: State, p: nat) {
    && p < |s.procs| && s.procs[p].state == SLEEPING && s.procs[p].chan == p && s.procs[p].pc == Asleep(true)
    && s.procs[p].lk == Free && s.procs[p].parent != p
  }

  /** Child `q` of `p` has exited, the scheduler has released its lock and picked `p`. */
  ghost function HandedOver(s: State, q: nat, p: nat): State
    requires q < |s.procs| && p < |s.procs| && p != q && SleepsFor(s, p) && s.procs[q].parent == p
  {
    assert AfterExit(s, q).procs[q] == Exited(s, q, q) && AfterExit(s, q).procs[p] == Exited(s, q, p);
    Dispatch(SchedRelease(AfterExit(s, q), q), p)
  }

  /** The parent when it next goes to take `wait_lock`. */
  ghost function Rescanning(s: State, q: nat, p: nat): State
    requires q < |s.procs| && p < |s.procs| && p != q && SleepsFor(s, p) && s.procs[q].parent == p
  {
    var t := HandedOver(s, q, p);
    Put(t, p, t.procs[p].(chan := NO_CHAN, lk := Free, pc := WaitAcq))
  }

  lemma HandedOverIs(s: State, q: nat, p: nat)
    requires Idle(s, q) && SleepsFor(s, p) && s.procs[q].parent == p && p != q
    ensures var t := HandedOver(s, q, p);
            && |t.procs| == |s.procs| && t.wl == Free && t.init == s.init
            && t.procs[p].state == RUNNING && t.procs[p].pc == Woken(true) && t.procs[p].lk == By(p)
            && t.procs[p].parent == (if s.procs[p].parent == q then s.init else s.procs[p].parent)
            && t.procs[q] == Exited(s, q, q).(lk := Free)
            && forall d :: 0 <= d < |s.procs| && d != p && d != q ==> t.procs[d] == Exited(s, q, d)
  {
  }

  lemma Rescans(s: State, q: nat, p: nat)
    requires Idle(s, q) && SleepsFor(s, p) && s.procs[q].parent == p && p != q
    requires s.init < |s.procs| && s.procs[s.init].parent == NOBODY
    ensures AtWait(Rescanning(s, q, p), p)
    ensures var t := Rescanning(s, q, p);
            |t.procs| == |s.procs| && forall d :: 0 <= d < |s.procs| && d != p ==>
              t.procs[d].parent == Exited(s, q, d).parent && t.procs[d].state == Exited(s, q, d).state
  {
    hide HandedOver;
    HandedOverIs(s, q, p);
  }

  lemma ParentIsWoken(s: State, q: nat, p: nat, luck: Luck)
    requires Idle(s, q) && SleepsFor(s, p) && s.procs[q].parent == p && p != q
    ensures Leads(HandedOver(s, q, p), p, luck, Rescanning(s, q, p))
  {
    hide Leads, HandedOver;
    HandedOverIs(s, q, p);
    WakesUp(HandedOver(s, q, p), p, luck, true);
  }

  lemma FirstAgain(s: State, q: nat, p: nat, c: nat)
    requires Idle(s, q) && SleepsFor(s, p) && s.procs[q].parent == p && p != q
    requires s.init < |s.procs| && s.procs[s.init].parent == NOBODY && FirstZombie(AfterExit(s, q), p, c)
    ensures FirstZombie(Rescanning(s, q, p), p, c) && c != p
    ensures NoZombieKid(s, p) && NoZombieKid(s, q) ==> c == q
  {
    hide Rescanning, HandedOver;
    Rescans(s, q, p);
    var s1 := AfterExit(s, q);
    assert forall d :: 0 <= d < |s.procs| ==> s1.procs[d] == Exited(s, q, d);
  }

  /** The parent of `q`, picked by the scheduler, frees child `c` and returns from wait. */
  ghost predicate Collects(s: State, q: nat, p: nat, luck: Luck, c: nat)
    requires q < |s.procs| && p < |s.procs| && p != q && SleepsFor(s, p) && s.procs[q].parent == p
  {
    var t := Rescanning(s, q, p);
    c < |t.procs| && Leads(HandedOver(s, q, p), p, luck, Goto(Put(t, c, Reaped(t.procs[c])), p, User))
  }

  /** A child that exits is not waited for in vain: its parent, asleep in wait, is woken, and when it runs it frees
      its first zombie child and returns. That is this child, unless the parent had another, or is init and has
      just been given one. */
  lemma ExitThenWait(s: State, q: nat, p: nat, luck: Luck, c: nat)
    requires Idle(s, q) && q != s.init && SleepsFor(s, p) && s.procs[q].parent == p
    requires s.init < |s.procs| && s.procs[s.init].parent == NOBODY
    requires FirstZombie(AfterExit(s, q), p, c) && luck(WaitCheck(c)) != No
    ensures NoZombieKid(s, p) && NoZombieKid(s, q) ==> c == q
    ensures p != q && c != p && Collects(s, q, p, luck, c)
  {
    hide Leads, HandedOver, Rescanning, AfterExit;
    var t := Rescanning(s, q, p);
    ParentIsWoken(s, q, p, luck);
    Rescans(s, q, p);
    FirstAgain(s, q, p, c);
    WaitFrom(t, p, luck);
    LeadsOn(HandedOver(s, q, p), p, luck, t, Goto(Put(t, c, Reaped(t.procs[c])), p, User));
  }

  /** There is such a child. */
  lemma SomeFirstZombie(s: State, q: nat, p: nat) returns (c: nat)
    requires Idle(s, q) && SleepsFor(s, p) && s.procs[q].parent == p
    ensures FirstZombie(AfterExit(s, q), p, c)
  {
    var s1 := AfterExit(s, q);
    assert s1.procs[q] == Exited(s, q, q);
    c := 0;
    while !(s1.procs[c].parent == p && s1.procs[c].state == ZOMBIE)
      invariant c <= q && forall d :: 0 <= d < c ==> !(s1.procs[d].parent == p && s1.procs[d].state == ZOMBIE)
      decreases q - c
    {
      c := c + 1;
    }
  }
}
