/** Crash safety seen from the two physical disks: what recovery finds on either half after a
    crash between any two physical block writes. */
module MirrorCrash {
  import opened DiskWrites
  import opened RaidDisk
  import opened RedoLog
  import CrashSafety

  /** Reading from one half alone: the other disk is failed. */
  const DISK0_ONLY := Fault(1, -1)
  const DISK1_ONLY := Fault(0, -1)

  ghost predicate BothGood(area: Area, d: seq<Block>) {
    && |d| == FSSIZE
    && GoodLog(area, View(DISK0_ONLY, d)) && LogCount(area, View(DISK0_ONLY, d)) == 0
    && GoodLog(area, View(DISK1_ONLY, d)) && LogCount(area, View(DISK1_ONLY, d)) == 0
  }

  /** Both halves hold the same files and an empty log. */
  ghost predicate LogicallyEqual(area: Area, d: seq<Block>) {
    BothGood(area, d) && SameFiles(area, View(DISK0_ONLY, d), View(DISK1_ONLY, d))
  }

  predicate InRange(ws: seq<Write>) {
    forall i :: 0 <= i < |ws| ==> ws[i].blockno < LOGICAL_DISK_SIZE
  }

  lemma NoFaultView(d: seq<Block>)
    requires |d| == FSSIZE
    ensures View(NO_FAULT, d) == View(DISK0_ONLY, d)
  {
  }

  lemma {:induction false} MirrorDoubles(ws: seq<Write>)
    requires InRange(ws)
    ensures |Mirror(NO_FAULT, ws)| == 2 * |ws|
  {
    if ws != [] {
      MirrorDoubles(ws[..|ws| - 1]);
      BothCopies(ws[|ws| - 1], 1);
    }
  }

  lemma MirrorEven(ws: seq<Write>, i: nat)
    requires InRange(ws) && i <= |ws|
    ensures |Mirror(NO_FAULT, ws)| == 2 * |ws|
    ensures Mirror(NO_FAULT, ws)[..2 * i] == Mirror(NO_FAULT, ws[..i])
  {
    hide Mirror;
    MirrorDoubles(ws);
    MirrorDoubles(ws[..i]);
    MirrorAppend(NO_FAULT, ws[..i], ws[i..]);
    assert ws == ws[..i] + ws[i..];
  }

  lemma MirrorOdd(ws: seq<Write>, i: nat)
    requires InRange(ws) && i < |ws|
    ensures |Mirror(NO_FAULT, ws)| == 2 * |ws|
    ensures Mirror(NO_FAULT, ws)[..2 * i + 1] == Mirror(NO_FAULT, ws[..i]) + [ws[i]]
  {
    MirrorEven(ws, i);
    MirrorEven(ws, i + 1);
    MirrorPrefix(NO_FAULT, ws, i);
    BothCopies(ws[i], 2);
    assert Mirror(NO_FAULT, ws)[..2 * i + 1] == Mirror(NO_FAULT, ws)[..2 * i + 2][..2 * i + 1];
  }

  /** With no fault set, after `k` physical writes disk 0 has seen (k+1)/2 logical writes and
      disk 1 has seen k/2: disk 1 equals disk 0 or is exactly one block write behind. */
  lemma HalvesInLockstep(d: seq<Block>, ws: seq<Write>, k: nat)
    requires |d| == FSSIZE && InRange(ws) && k <= 2 * |ws|
    ensures |Mirror(NO_FAULT, ws)| == 2 * |ws|
    ensures View(DISK0_ONLY, Apply(d, Mirror(NO_FAULT, ws)[..k])) == Apply(View(DISK0_ONLY, d), ws[..(k + 1) / 2])
    ensures View(DISK1_ONLY, Apply(d, Mirror(NO_FAULT, ws)[..k])) == Apply(View(DISK1_ONLY, d), ws[..k / 2])
  {
    hide Apply, Put, View, Mirror;
    var i := k / 2;
    MirrorWhole(NO_FAULT, DISK0_ONLY, d, ws[..i]);
    MirrorWhole(NO_FAULT, DISK1_ONLY, d, ws[..i]);
    if k == 2 * i {
      MirrorEven(ws, i);
    } else {
      MirrorOdd(ws, i);
      var d1 := Apply(d, Mirror(NO_FAULT, ws[..i]));
      ApplyAppend(d, Mirror(NO_FAULT, ws[..i]), [ws[i]]);
      ApplyFew(d1, ws[i], ws[i]);
      PutBothCopies(d1, ws[i].blockno, ws[i].data);
      ApplyPrefix(View(DISK0_ONLY, d), ws, i);
    }
  }

  lemma PutBothCopies(d: seq<Block>, b: nat, data: Block)
    requires |d| == FSSIZE && b < LOGICAL_DISK_SIZE
    ensures var w := Write(b, data);
            var d1 := Put(d, w);
            var d2 := Put(d1, Write(b + DISK1_START_BLOCK, data));
            && View(DISK0_ONLY, d1) == Put(View(DISK0_ONLY, d), w) && View(DISK1_ONLY, d1) == View(DISK1_ONLY, d)
            && View(DISK0_ONLY, d2) == View(DISK0_ONLY, d1) && View(DISK1_ONLY, d2) == Put(View(DISK1_ONLY, d), w)
  {
    var d1 := Put(d, Write(b, data));
    ViewOfPut(DISK0_ONLY, d, b, data);
    ViewOfPut(DISK1_ONLY, d, b, data);
    ViewOfPut(DISK0_ONLY, d1, b, data);
    ViewOfPut(DISK1_ONLY, d1, b, data);
  }

  lemma BothCopies(w: Write, k: nat)
    requires w.blockno < LOGICAL_DISK_SIZE && 1 <= k <= 2
    ensures var p1 := Write(w.blockno + DISK1_START_BLOCK, w.data);
            && |NO_FAULT.CopiesWritten(w)| == 2
            && NO_FAULT.CopiesWritten(w)[..k] == if k == 1 then [w] else [w, p1]
  {
    var p1 := Write(w.blockno + DISK1_START_BLOCK, w.data);
    assert NO_FAULT.CopiesWritten(w) == [w, p1];
    assert [w, p1][..1] == [w] && [w, p1][..2] == [w, p1];
  }

  // ---------- Recovery attempts, any number of them, each cut short anywhere ----------

  /** One attempt at recovery under fault `g`, cut short after `cut` physical writes. */
  function Attempt(area: Area, g: Fault, d: seq<Block>, cut: nat): (r: seq<Block>)
    requires |d| == FSSIZE
    ensures |r| == FSSIZE
  {
    if !GoodLog(area, View(g, d)) then d else
      var ps := Mirror(g, RecoverWrites(area, View(g, d)));
      Apply(d, if cut < |ps| then ps[..cut] else ps)
  }

  function Attempts(area: Area, g: Fault, d: seq<Block>, cuts: seq<nat>): (r: seq<Block>)
    requires |d| == FSSIZE
    ensures |r| == FSSIZE
    decreases |cuts|
  {
    if cuts == [] then d else Attempts(area, g, Attempt(area, g, d, cuts[0]), cuts[1..])
  }

  /** Recovery that runs to its end. */
  function Recovered(area: Area, g: Fault, d: seq<Block>): (r: seq<Block>)
    requires |d| == FSSIZE && GoodLog(area, View(g, d))
    ensures |r| == FSSIZE
  {
    Apply(d, Mirror(g, RecoverWrites(area, View(g, d))))
  }

  lemma RecoverWritesReach(area: Area, g: Fault, v: seq<Block>)
    requires GoodLog(area, v) && Mirrored(area) && g.Readable()
    ensures InRange(RecoverWrites(area, v)) && ReachesAll(g, g, RecoverWrites(area, v))
  {
  }

  lemma AttemptKeepsPromise(area: Area, g: Fault, d: seq<Block>, cut: nat)
    requires |d| == FSSIZE && GoodLog(area, View(g, d)) && g.Readable()
    ensures var d1 := Attempt(area, g, d, cut);
            && GoodLog(area, View(g, d1))
            && SameFiles(area, Replay(area, View(g, d1)), Replay(area, View(g, d)))
  {
    hide Apply, Mirror, View, Replay;
    var v := View(g, d);
    var ws := RecoverWrites(area, v);
    RecoverWritesReach(area, g, v);
    var ps := Mirror(g, ws);
    var k := if cut < |ps| then cut else |ps|;
    assert ps[..|ps|] == ps;
    var j := MirrorCrash(g, g, d, ws, k);
    CrashSafety.RecoveryIsRestartable(area, v, j);
  }

  lemma {:induction false} AttemptsKeepPromise(area: Area, g: Fault, d: seq<Block>, cuts: seq<nat>)
    requires |d| == FSSIZE && GoodLog(area, View(g, d)) && g.Readable()
    ensures var d1 := Attempts(area, g, d, cuts);
            && GoodLog(area, View(g, d1))
            && SameFiles(area, Replay(area, View(g, d1)), Replay(area, View(g, d)))
    decreases |cuts|
  {
    hide View, Replay, Attempt, GoodLog;
    if cuts != [] {
      AttemptKeepsPromise(area, g, d, cuts[0]);
      AttemptsKeepPromise(area, g, Attempt(area, g, d, cuts[0]), cuts[1..]);
    }
  }

  /** Any number of interrupted attempts followed by one that completes puts the promised files
      in place and empties the log. */
  lemma RecoveryAlwaysCompletes(area: Area, g: Fault, d: seq<Block>, cuts: seq<nat>)
    requires |d| == FSSIZE && GoodLog(area, View(g, d)) && g.Readable()
    ensures var d1 := Attempts(area, g, d, cuts);
            && GoodLog(area, View(g, d1))
            && var v := View(g, Recovered(area, g, d1));
               GoodLog(area, v) && LogCount(area, v) == 0 && SameFiles(area, v, Replay(area, View(g, d)))
  {
    hide Apply, Mirror, View, Replay, Attempts;
    AttemptsKeepPromise(area, g, d, cuts);
    var d1 := Attempts(area, g, d, cuts);
    var ws := RecoverWrites(area, View(g, d1));
    RecoverWritesReach(area, g, View(g, d1));
    MirrorWhole(g, g, d1, ws);
    CrashSafety.RecoveryCompletes(area, View(g, d1));
  }

  // ---------- A crash during commit ----------

  /** The physical disk after a commit under fault `f` was cut short after `k` physical writes. */
  function Crashed(area: Area, f: Fault, d: seq<Block>, header: Block, lh: seq<int>, data: seq<Block>, k: nat): (r: seq<Block>)
    requires |d| == FSSIZE
    requires |header.words| == WORDS_PER_BLOCK && |lh| == |data| && Loggable(area, lh)
    ensures |r| == FSSIZE
  {
    var ps := Mirror(f, CommitWrites(area, header, lh, data));
    Apply(d, if k < |ps| then ps[..k] else ps)
  }

  lemma CommitInRange(area: Area, header: Block, lh: seq<int>, data: seq<Block>)
    requires |header.words| == WORDS_PER_BLOCK && |lh| == |data| && Loggable(area, lh) && Layout(area) && Mirrored(area)
    ensures InRange(CommitWrites(area, header, lh, data))
    ensures |CommitWrites(area, header, lh, data)| == if lh == [] then 0 else 2 * |lh| + 2
  {
  }

  /** Crash atomicity on the mirrored disk, for every fault `f` during the commit and every fault
      `g` during recovery whose readers see what writers under `f` write: the files seen after
      recovery are all old or all new, wherever the commit and the attempts at recovery stop. */
  lemma CommitCrashIsAtomic(area: Area, f: Fault, g: Fault, d: seq<Block>,
                            header: Block, lh: seq<int>, data: seq<Block>, k: nat, cuts: seq<nat>)
    requires |d| == FSSIZE && GoodLog(area, View(g, d)) && LogCount(area, View(g, d)) == 0
    requires |header.words| == WORDS_PER_BLOCK && |lh| == |data| && Loggable(area, lh)
    requires g.Readable() && ReachesAll(f, g, CommitWrites(area, header, lh, data))
    ensures var v, d1 := View(g, d), Attempts(area, g, Crashed(area, f, d, header, lh, data, k), cuts);
            && GoodLog(area, View(g, d1))
            && var w := View(g, Recovered(area, g, d1));
               SameFiles(area, w, v) || SameFiles(area, w, CrashSafety.Committed(area, v, lh, data))
  {
    hide Apply, Mirror, View, Replay, CommitWrites, Attempts, CrashSafety.Committed;
    var ws := CommitWrites(area, header, lh, data);
    var ps := Mirror(f, ws);
    var k' := if k < |ps| then k else |ps|;
    assert ps[..|ps|] == ps;
    var j := MirrorCrash(f, g, d, ws, k');
    CrashSafety.CommitIsAtomic(area, View(g, d), header, lh, data, j);
    RecoveryAlwaysCompletes(area, g, Crashed(area, f, d, header, lh, data, k), cuts);
  }

  /** The half from which recovery under `g` reads has seen the header of this commit. */
  predicate HeaderReached(g: Fault, lh: seq<int>, k: nat) {
    lh != [] && (if g.diskFail == 0 then k / 2 > |lh| else (k + 1) / 2 > |lh|)
  }

  /** Either half recovers alone. With no fault set during the commit, and whichever disk is then
      missing, recovery from the remaining half gives the files from before the transaction if the
      crash came before that half's header write, and those of the whole transaction otherwise. */
  lemma EitherHalfRecovers(area: Area, g: Fault, d: seq<Block>,
                           header: Block, lh: seq<int>, data: seq<Block>, k: nat, cuts: seq<nat>)
    requires BothGood(area, d) && g in {NO_FAULT, DISK0_ONLY, DISK1_ONLY}
    requires |header.words| == WORDS_PER_BLOCK && |lh| == |data| && Loggable(area, lh)
    ensures var v, d1 := View(g, d), Attempts(area, g, Crashed(area, NO_FAULT, d, header, lh, data, k), cuts);
            && GoodLog(area, View(g, d1))
            && SameFiles(area, View(g, Recovered(area, g, d1)),
                         if HeaderReached(g, lh, k) then CrashSafety.Committed(area, v, lh, data) else v)
  {
    hide Apply, Mirror, View, Replay, CommitWrites, Attempts, CrashSafety.Committed;
    var ws := CommitWrites(area, header, lh, data);
    CommitInRange(area, header, lh, data);
    var ps := Mirror(NO_FAULT, ws);
    HalvesInLockstep(d, ws, 0);
    var k' := if k < |ps| then k else |ps|;
    assert ps[..|ps|] == ps;
    HalvesInLockstep(d, ws, k');
    var d' := Crashed(area, NO_FAULT, d, header, lh, data, k);
    NoFaultView(d);
    NoFaultView(d');
    var j := if g.diskFail == 0 then k' / 2 else (k' + 1) / 2;
    assert View(g, d') == Apply(View(g, d), ws[..j]);
    CrashSafety.CommitIsAtomic(area, View(g, d), header, lh, data, j);
    RecoveryAlwaysCompletes(area, g, d', cuts);
  }
}
