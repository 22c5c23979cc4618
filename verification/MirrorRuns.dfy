/** Whole runs of the mirrored log with no fault set: transactions that complete, transactions
    cut short by a crash, and recoveries that are themselves cut short. */
module MirrorRuns {
  import opened DiskWrites
  import opened RaidDisk
  import opened RedoLog
  import CrashSafety
  import opened MirrorCrash

  /** Where the two halves' files differ, the log read from disk 0 will rewrite both. */
  ghost predicate Covered(area: Area, d: seq<Block>) {
    && |d| == FSSIZE
    && GoodLog(area, View(DISK0_ONLY, d))
    && (forall b :: Home(area, b) && View(DISK0_ONLY, d)[b] != View(DISK1_ONLY, d)[b] ==>
                      Writes(InstallWrites(area, View(DISK0_ONLY, d)), b))
  }

  /** Two disks that receive the same writes, the second possibly one write behind, agree on
      every block on which they agreed or which was written, except the one in flight. */
  lemma LockstepAgrees(v0: seq<Block>, v1: seq<Block>, ws: seq<Write>, j0: nat, j1: nat, b: nat)
    requires |v0| == |v1| && b < |v0|
    requires j1 <= j0 <= |ws| && j0 <= j1 + 1
    requires j0 == j1 + 1 ==> ws[j1].blockno != b
    requires v0[b] == v1[b] || Writes(ws[..j1], b)
    ensures Apply(v0, ws[..j0])[b] == Apply(v1, ws[..j1])[b]
  {
    ApplyAt(v0, v1, ws[..j1], b);
    ApplyAt(v1, v0, ws[..j1], b);
    if j0 == j1 + 1 {
      ApplyPrefix(v0, ws, j1);
    }
  }

  /** Which home block a commit has in flight on disk 1, if any. */
  lemma InFlight(area: Area, header: Block, lh: seq<int>, data: seq<Block>, i: nat)
    requires |header.words| == WORDS_PER_BLOCK && |lh| == |data| && Loggable(area, lh) && Layout(area)
    requires i < |CommitWrites(area, header, lh, data)|
    ensures var b := CommitWrites(area, header, lh, data)[i].blockno;
            Home(area, b) ==> |lh| < i <= 2 * |lh| && Writes(HomeWrites(area, lh, data), b)
  {
    var n := |lh|;
    var h := HeaderFor(header, lh);
    var ws := CommitWrites(area, header, lh, data);
    if n < i <= 2 * n {
      assert ws[i] == HomeWrites(area, lh, data)[i - n - 1];
    } else if i < n {
      assert ws[i] == LogWrites(area, data)[i];
    }
  }

  lemma CommitDifference(area: Area, v0: seq<Block>, v1: seq<Block>,
                         header: Block, lh: seq<int>, data: seq<Block>, j0: nat, j1: nat, b: nat)
    requires GoodLog(area, v0) && LogCount(area, v0) == 0 && SameFiles(area, v0, v1)
    requires |header.words| == WORDS_PER_BLOCK && |lh| == |data| && Loggable(area, lh)
    requires j1 <= j0 <= |CommitWrites(area, header, lh, data)| && j0 <= j1 + 1
    requires Home(area, b)
    ensures var w0 := Apply(v0, CommitWrites(area, header, lh, data)[..j0]);
            && GoodLog(area, w0)
            && (w0[b] != Apply(v1, CommitWrites(area, header, lh, data)[..j1])[b] ==>
                  Writes(InstallWrites(area, w0), b))
  {
    hide Apply, CommitWrites, HomeWrites, Writes, Replay;
    var ws := CommitWrites(area, header, lh, data);
    CrashSafety.CommitIsAtomic(area, v0, header, lh, data, j0);
    if j0 == j1 + 1 && ws[j1].blockno == b {
      InFlight(area, header, lh, data, j1);
      CrashSafety.CrashInInstall(area, v0, header, lh, data, j0 - |lh| - 1);
    } else {
      LockstepAgrees(v0, v1, ws, j0, j1, b);
    }
  }

  lemma CrashedIsCovered(area: Area, d: seq<Block>, header: Block, lh: seq<int>, data: seq<Block>, k: nat)
    requires LogicallyEqual(area, d)
    requires |header.words| == WORDS_PER_BLOCK && |lh| == |data| && Loggable(area, lh)
    ensures Covered(area, Crashed(area, NO_FAULT, d, header, lh, data, k))
  {
    hide Apply, Mirror, View, CommitWrites, HomeWrites, Writes;
    var ws := CommitWrites(area, header, lh, data);
    CommitInRange(area, header, lh, data);
    var ps := Mirror(NO_FAULT, ws);
    HalvesInLockstep(d, ws, 0);
    var k' := if k < |ps| then k else |ps|;
    assert ps[..|ps|] == ps;
    HalvesInLockstep(d, ws, k');
    var v0, v1 := View(DISK0_ONLY, d), View(DISK1_ONLY, d);
    CrashSafety.CommitIsAtomic(area, v0, header, lh, data, (k' + 1) / 2);
    forall b | Home(area, b) {
      CommitDifference(area, v0, v1, header, lh, data, (k' + 1) / 2, k' / 2, b);
    }
  }

  lemma AttemptKeepsCovered(area: Area, d: seq<Block>, cut: nat)
    requires Covered(area, d)
    ensures Covered(area, Attempt(area, NO_FAULT, d, cut))
  {
    hide Apply, Mirror, View;
    NoFaultView(d);
    var v0, v1 := View(DISK0_ONLY, d), View(DISK1_ONLY, d);
    var ws, homew := RecoverWrites(area, v0), InstallWrites(area, v0);
    RecoverWritesReach(area, NO_FAULT, v0);
    var ps := Mirror(NO_FAULT, ws);
    HalvesInLockstep(d, ws, 0);
    var k := if cut < |ps| then cut else |ps|;
    assert ps[..|ps|] == ps;
    HalvesInLockstep(d, ws, k);
    var j0, j1 := (k + 1) / 2, k / 2;
    var w0, w1 := Apply(v0, ws[..j0]), Apply(v1, ws[..j1]);
    CrashSafety.RecoveryIsRestartable(area, v0, j0);
    if j0 <= |homew| {
      assert ws[..j0] == homew[..j0];
      CrashSafety.ReplayAfterInstall(area, v0, j0);
    }
    forall b | Home(area, b) && w0[b] != w1[b] ensures Writes(InstallWrites(area, w0), b) {
      if !Writes(homew, b) {
        InstallWritesHome(area, v0, b);
        PrefixWrites(ws, j0, b);
        PrefixWrites(ws, j1, b);
        ApplyAt(v0, v0, ws[..j0], b);
        ApplyAt(v1, v1, ws[..j1], b);
      } else if j0 > |homew| {
        assert ws[..|homew|] == homew;
        LongerWrites(ws, |homew|, j1, b);
        LockstepAgrees(v0, v1, ws, j0, j1, b);
      }
    }
  }

  lemma LongerWrites(ws: seq<Write>, k: nat, m: nat, b: nat)
    requires k <= m <= |ws| && Writes(ws[..k], b)
    ensures Writes(ws[..m], b)
  {
    var i :| 0 <= i < k && ws[..k][i].blockno == b;
    assert ws[..m][i].blockno == b;
  }

  lemma InstallWritesHome(area: Area, v: seq<Block>, b: nat)
    requires GoodLog(area, v) && Home(area, b)
    ensures Writes(RecoverWrites(area, v), b) ==> Writes(InstallWrites(area, v), b)
  {
    var homew, ws := InstallWrites(area, v), RecoverWrites(area, v);
    if Writes(ws, b) {
      var i :| 0 <= i < |ws| && ws[i].blockno == b;
      assert ws[i] == homew[i];
    }
  }

  lemma {:induction false} AttemptsKeepCovered(area: Area, d: seq<Block>, cuts: seq<nat>)
    requires Covered(area, d)
    ensures Covered(area, Attempts(area, NO_FAULT, d, cuts))
    decreases |cuts|
  {
    hide Covered;
    if cuts != [] {
      AttemptKeepsCovered(area, d, cuts[0]);
      AttemptsKeepCovered(area, Attempt(area, NO_FAULT, d, cuts[0]), cuts[1..]);
    }
  }

  /** Complete recovery with no fault set resynchronises the halves. */
  lemma RecoveryResynchronises(area: Area, d: seq<Block>)
    requires Covered(area, d)
    ensures GoodLog(area, View(NO_FAULT, d)) && LogicallyEqual(area, Recovered(area, NO_FAULT, d))
  {
    hide Apply, Mirror, View;
    NoFaultView(d);
    var v0, v1 := View(DISK0_ONLY, d), View(DISK1_ONLY, d);
    var ws, homew := RecoverWrites(area, v0), InstallWrites(area, v0);
    RecoverWritesReach(area, NO_FAULT, v0);
    HalvesInLockstep(d, ws, 2 * |ws|);
    assert ws[..|ws|] == ws && Mirror(NO_FAULT, ws)[..2 * |ws|] == Mirror(NO_FAULT, ws);
    var w0, w1 := Apply(v0, ws), Apply(v1, ws);
    CrashSafety.RecoveryCompletes(area, v0);
    assert ws[|homew|].blockno == area.start;
    ApplyAt(v1, v0, ws, area.start);
    assert ws[..|homew|] == homew;
    forall b | 0 <= b < LOGICAL_DISK_SIZE && Home(area, b) ensures w0[b] == w1[b] {
      if Writes(homew, b) {
        LongerWrites(ws, |homew|, |ws|, b);
      }
      LockstepAgrees(v0, v1, ws, |ws|, |ws|, b);
    }
  }

  // ---------- Runs ----------

  /** A transaction of the blocks `lh`, either completed or cut short after `k` physical writes
      and followed by interrupted recoveries and a complete one. `header` is what the header
      block held in memory. */
  datatype Event =
    | Commit(header: Block, lh: seq<int>, data: seq<Block>)
    | Crash(header: Block, lh: seq<int>, data: seq<Block>, k: nat, cuts: seq<nat>)
  {
    predicate Valid(area: Area) {
      |header.words| == WORDS_PER_BLOCK && |lh| == |data| && Loggable(area, lh)
    }
  }

  function Step(area: Area, d: seq<Block>, e: Event): (r: seq<Block>)
    requires |d| == FSSIZE && e.Valid(area)
    ensures |r| == FSSIZE
  {
    match e
    case Commit(header, lh, data) =>
      Apply(d, Mirror(NO_FAULT, CommitWrites(area, header, lh, data)))
    case Crash(header, lh, data, k, cuts) =>
      var d1 := Attempts(area, NO_FAULT, Crashed(area, NO_FAULT, d, header, lh, data, k), cuts);
      if GoodLog(area, View(NO_FAULT, d1)) then Recovered(area, NO_FAULT, d1) else d1
  }

  function StepFiles(area: Area, v: seq<Block>, e: Event): (r: seq<Block>)
    requires e.Valid(area)
  {
    if e.Crash? && !HeaderReached(NO_FAULT, e.lh, e.k) then v else CrashSafety.Committed(area, v, e.lh, e.data)
  }

  function Run(area: Area, d: seq<Block>, es: seq<Event>): (r: seq<Block>)
    requires |d| == FSSIZE && forall i :: 0 <= i < |es| ==> es[i].Valid(area)
    ensures |r| == FSSIZE
    decreases |es|
  {
    if es == [] then d else Run(area, Step(area, d, es[0]), es[1..])
  }

  /** The files a client expects: each transaction applied as a whole or not at all. */
  function RunFiles(area: Area, v: seq<Block>, es: seq<Event>): (r: seq<Block>)
    requires forall i :: 0 <= i < |es| ==> es[i].Valid(area)
    decreases |es|
  {
    if es == [] then v else RunFiles(area, StepFiles(area, v, es[0]), es[1..])
  }

  lemma CommitStep(area: Area, d: seq<Block>, e: Event)
    requires LogicallyEqual(area, d) && e.Commit? && e.Valid(area)
    ensures LogicallyEqual(area, Step(area, d, e))
    ensures SameFiles(area, View(DISK0_ONLY, Step(area, d, e)), StepFiles(area, View(DISK0_ONLY, d), e))
  {
    hide Apply, Mirror, View, CommitWrites, CrashSafety.Committed;
    var ws := CommitWrites(area, e.header, e.lh, e.data);
    CommitInRange(area, e.header, e.lh, e.data);
    HalvesInLockstep(d, ws, 2 * |ws|);
    assert ws[..|ws|] == ws && Mirror(NO_FAULT, ws)[..2 * |ws|] == Mirror(NO_FAULT, ws);
    var v0, v1 := View(DISK0_ONLY, d), View(DISK1_ONLY, d);
    CommitLeavesEmptyLog(area, v0, e.header, e.lh, e.data);
    CommitLeavesEmptyLog(area, v1, e.header, e.lh, e.data);
    CrashSafety.SameFilesAfter(area, v0, v1, ws);
  }

  lemma CommitLeavesEmptyLog(area: Area, v: seq<Block>, header: Block, lh: seq<int>, data: seq<Block>)
    requires GoodLog(area, v) && LogCount(area, v) == 0
    requires |header.words| == WORDS_PER_BLOCK && |lh| == |data| && Loggable(area, lh)
    ensures var w := Apply(v, CommitWrites(area, header, lh, data));
            GoodLog(area, w) && LogCount(area, w) == 0 && SameFiles(area, w, CrashSafety.Committed(area, v, lh, data))
  {
    if lh != [] {
      CrashSafety.CrashAfterErase(area, v, header, lh, data);
    }
  }

  lemma CrashStep(area: Area, d: seq<Block>, e: Event)
    requires LogicallyEqual(area, d) && e.Crash? && e.Valid(area)
    ensures LogicallyEqual(area, Step(area, d, e))
    ensures SameFiles(area, View(DISK0_ONLY, Step(area, d, e)), StepFiles(area, View(DISK0_ONLY, d), e))
  {
    hide Apply, Mirror, View, CommitWrites, CrashSafety.Committed, Attempts, Crashed, Recovered;
    CrashedIsCovered(area, d, e.header, e.lh, e.data, e.k);
    var d' := Crashed(area, NO_FAULT, d, e.header, e.lh, e.data, e.k);
    AttemptsKeepCovered(area, d', e.cuts);
    var d1 := Attempts(area, NO_FAULT, d', e.cuts);
    RecoveryResynchronises(area, d1);
    NoFaultView(d);
    EitherHalfRecovers(area, NO_FAULT, d, e.header, e.lh, e.data, e.k, e.cuts);
    NoFaultView(Step(area, d, e));
  }

  lemma StepFilesRespects(area: Area, v: seq<Block>, w: seq<Block>, e: Event)
    requires e.Valid(area) && SameFiles(area, v, w)
    ensures SameFiles(area, StepFiles(area, v, e), StepFiles(area, w, e))
  {
    CrashSafety.SameFilesAfter(area, v, w, HomeWrites(area, e.lh, e.data));
  }

  lemma {:induction false} RunFilesRespects(area: Area, v: seq<Block>, w: seq<Block>, es: seq<Event>)
    requires forall i :: 0 <= i < |es| ==> es[i].Valid(area)
    requires SameFiles(area, v, w)
    ensures SameFiles(area, RunFiles(area, v, es), RunFiles(area, w, es))
    decreases |es|
  {
    if es != [] {
      StepFilesRespects(area, v, w, es[0]);
      RunFilesRespects(area, StepFiles(area, v, es[0]), StepFiles(area, w, es[0]), es[1..]);
    }
  }

  /** Crash safety of whole runs: through any sequence of transactions, crashes and interrupted
      recoveries, the halves stay logically equal and the files are those of the transactions
      whose header reached disk 0, in order, each applied as a whole. */
  lemma {:induction false} RunsAreAtomic(area: Area, d: seq<Block>, es: seq<Event>)
    requires LogicallyEqual(area, d) && forall i :: 0 <= i < |es| ==> es[i].Valid(area)
    ensures LogicallyEqual(area, Run(area, d, es))
    ensures SameFiles(area, View(DISK0_ONLY, Run(area, d, es)), RunFiles(area, View(DISK0_ONLY, d), es))
    decreases |es|
  {
    hide Apply, Mirror, View, Step, StepFiles, LogicallyEqual, BothGood;
    SameFilesRefl(area, d);
    if es != [] {
      var d1 := Step(area, d, es[0]);
      if es[0].Commit? { CommitStep(area, d, es[0]); } else { CrashStep(area, d, es[0]); }
      RunsAreAtomic(area, d1, es[1..]);
      RunFilesRespects(area, View(DISK0_ONLY, d1), StepFiles(area, View(DISK0_ONLY, d), es[0]), es[1..]);
    }
  }

  lemma SameFilesRefl(area: Area, d: seq<Block>)
    requires LogicallyEqual(area, d)
    ensures |d| == FSSIZE && SameFiles(area, View(DISK0_ONLY, d), View(DISK0_ONLY, d))
  {
  }
}
