/** Commits under one fault setting, recovered under another: for which pairs of settings every crash point
    of every transaction is all-or-nothing. The settings do not survive a restart, so that they may differ. */
module FaultPairs {
  import opened DiskWrites
  import opened RaidDisk
  import opened RedoLog
  import CrashSafety
  import MirrorCrash
  import MirroredRead
  import DiskLoss

  // ---- What a reader sees of writes that may not reach him ----

  /** Block by block: writes under `f` are seen by a reader under `g` where they reach him, and only there. */
  lemma {:induction false} SeenWhereReached(f: Fault, g: Fault, d: seq<Block>, ws: seq<Write>, b: nat)
    requires |d| == FSSIZE && MirrorCrash.InRange(ws) && b < LOGICAL_DISK_SIZE
    ensures View(g, Apply(d, Mirror(f, ws)))[b] == if Reaches(f, g, b) then Apply(View(g, d), ws)[b] else View(g, d)[b]
  {
    hide Reaches, Fault.CopiesWritten;
    if ws != [] {
      var n := |ws| - 1;
      SeenWhereReached(f, g, d, ws[..n], b);
      ApplyAppend(d, Mirror(f, ws[..n]), f.CopiesWritten(ws[n]));
      MirroredRead.CopyHolds(f, g, Apply(d, Mirror(f, ws[..n])), ws[n]);
    }
  }

  /** The physical writes of a list never touch a copy that they do not reach. */
  lemma {:induction false} NeverTouched(f: Fault, g: Fault, ws: seq<Write>, b: nat)
    requires MirrorCrash.InRange(ws) && b < LOGICAL_DISK_SIZE && !Reaches(f, g, b)
    ensures forall i :: 0 <= i < |Mirror(f, ws)| ==> Mirror(f, ws)[i].blockno != g.ReadCopy(b)
  {
    if ws != [] {
      NeverTouched(f, g, ws[..|ws| - 1], b);
    }
  }

  lemma UnreachedUntouched(f: Fault, g: Fault, d: seq<Block>, ws: seq<Write>, k: nat, b: nat)
    requires |d| == FSSIZE && MirrorCrash.InRange(ws) && b < LOGICAL_DISK_SIZE && !Reaches(f, g, b) && k <= |Mirror(f, ws)|
    ensures View(g, Apply(d, Mirror(f, ws)[..k]))[b] == View(g, d)[b]
  {
    NeverTouched(f, g, ws, b);
    ApplyAt(d, d, Mirror(f, ws)[..k], g.ReadCopy(b));
  }

  // ---- Recovery, by readers who may not see their own writes to the header ----

  /** Recovery under `g` sees what it writes to the blocks of the log found on disk. */
  predicate Recoverable(area: Area, g: Fault, v: seq<Block>)
    requires GoodLog(area, v)
  {
    ReachesAll(g, g, InstallWrites(area, v))
  }

  /** An attempt shows its reader some prefix of its writes. */
  lemma AttemptIsPrefix(area: Area, g: Fault, d: seq<Block>, cut: nat) returns (j: nat)
    requires |d| == FSSIZE && GoodLog(area, View(g, d)) && Recoverable(area, g, View(g, d))
    ensures j <= |RecoverWrites(area, View(g, d))|
    ensures View(g, MirrorCrash.Attempt(area, g, d, cut)) == Apply(View(g, d), RecoverWrites(area, View(g, d))[..j])
  {
    hide Apply, Mirror, View, Reaches, Fault.CopiesWritten;
    var v := View(g, d);
    var homew, clear := InstallWrites(area, v), Write(area.start, HeaderFor(v[area.start], []));
    var ws := RecoverWrites(area, v);
    var ps := Mirror(g, ws);
    var k := if cut < |ps| then cut else |ps|;
    assert ps[..|ps|] == ps;
    if Reaches(g, g, area.start) {
      assert ReachesAll(g, g, ws);
      j := RaidDisk.MirrorCrash(g, g, d, ws, k);
    } else {
      Sequel(g, v, homew, [clear]);
      var hs := Mirror(g, homew);
      if k <= |hs| {
        assert ps[..k] == hs[..k];
        j := RaidDisk.MirrorCrash(g, g, d, homew, k);
        assert homew[..j] == ws[..j];
      } else {
        j := |homew|;
        assert ps[..k] == hs + Mirror(g, [clear])[..k - |hs|] && ws[..j] == homew;
        ApplyAppend(d, hs, Mirror(g, [clear])[..k - |hs|]);
        MirrorWhole(g, g, d, homew);
        ClearUnseen(g, Apply(d, hs), clear, k - |hs|);
      }
    }
  }

  lemma ClearUnseen(g: Fault, d: seq<Block>, clear: Write, k: nat)
    requires |d| == FSSIZE && clear.blockno < LOGICAL_DISK_SIZE && !Reaches(g, g, clear.blockno) && k <= |Mirror(g, [clear])|
    ensures View(g, Apply(d, Mirror(g, [clear])[..k])) == View(g, d)
  {
    hide Apply, View;
    forall b | 0 <= b < LOGICAL_DISK_SIZE ensures View(g, Apply(d, Mirror(g, [clear])[..k]))[b] == View(g, d)[b] {
      if b == clear.blockno {
        UnreachedUntouched(g, g, d, [clear], k, b);
      } else {
        OthersUntouched(g, d, clear, k, b);
      }
    }
  }

  lemma OthersUntouched(g: Fault, d: seq<Block>, w: Write, k: nat, b: nat)
    requires |d| == FSSIZE && w.blockno < LOGICAL_DISK_SIZE && b < LOGICAL_DISK_SIZE && b != w.blockno && k <= |Mirror(g, [w])|
    ensures View(g, Apply(d, Mirror(g, [w])[..k]))[b] == View(g, d)[b]
  {
    assert [w][..0] == [];
    assert Mirror(g, [w]) == g.CopiesWritten(w);
    ApplyAt(d, d, Mirror(g, [w])[..k], g.ReadCopy(b));
  }

  /** Any number of interrupted attempts keep what the disk promises. */
  lemma {:induction false} AttemptsKeep(area: Area, g: Fault, d: seq<Block>, cuts: seq<nat>)
    requires |d| == FSSIZE && GoodLog(area, View(g, d)) && Recoverable(area, g, View(g, d))
    ensures var d1 := MirrorCrash.Attempts(area, g, d, cuts);
            && GoodLog(area, View(g, d1)) && Recoverable(area, g, View(g, d1))
            && SameFiles(area, Replay(area, View(g, d1)), Replay(area, View(g, d)))
    decreases |cuts|
  {
    hide View, Replay, MirrorCrash.Attempt, GoodLog, Recoverable, Apply, RecoverWrites;
    if cuts != [] {
      var d1 := MirrorCrash.Attempt(area, g, d, cuts[0]);
      var j := AttemptIsPrefix(area, g, d, cuts[0]);
      StillRecoverable(area, g, View(g, d), j);
      AttemptsKeep(area, g, d1, cuts[1..]);
    }
  }

  lemma StillRecoverable(area: Area, g: Fault, v: seq<Block>, j: nat)
    requires GoodLog(area, v) && Recoverable(area, g, v) && j <= |RecoverWrites(area, v)|
    ensures var w := Apply(v, RecoverWrites(area, v)[..j]);
            && GoodLog(area, w) && Recoverable(area, g, w) && SameFiles(area, Replay(area, w), Replay(area, v))
  {
    hide Replay, Apply, Reaches;
    CrashSafety.RecoveryIsRestartable(area, v, j);
    var homew := InstallWrites(area, v);
    if j <= |homew| {
      assert RecoverWrites(area, v)[..j] == homew[..j];
      CrashSafety.ReplayAfterInstall(area, v, j);
    } else {
      assert RecoverWrites(area, v)[..j] == RecoverWrites(area, v);
      CrashSafety.RecoveryCompletes(area, v);
    }
  }

  /** Recovery that runs to its end, after any number that did not, puts the promised files in place. */
  lemma RecoveryInstalls(area: Area, g: Fault, d: seq<Block>, cuts: seq<nat>)
    requires |d| == FSSIZE && GoodLog(area, View(g, d)) && Recoverable(area, g, View(g, d))
    ensures var d1 := MirrorCrash.Attempts(area, g, d, cuts);
            && GoodLog(area, View(g, d1))
            && SameFiles(area, View(g, MirrorCrash.Recovered(area, g, d1)), Replay(area, View(g, d)))
  {
    hide View, Replay, MirrorCrash.Attempts, Recoverable, Apply, Mirror, Reaches;
    AttemptsKeep(area, g, d, cuts);
    var d1 := MirrorCrash.Attempts(area, g, d, cuts);
    var v := View(g, d1);
    var homew, clear := InstallWrites(area, v), Write(area.start, HeaderFor(v[area.start], []));
    InstallsReach(area, g, v);
    Sequel(g, d1, homew, [clear]);
    var w := View(g, MirrorCrash.Recovered(area, g, d1));
    CrashSafety.RecoveryCompletes(area, v);
    forall b | 0 <= b < LOGICAL_DISK_SIZE && Home(area, b) ensures w[b] == Replay(area, v)[b] {
      SeenWhereReached(g, g, d1, RecoverWrites(area, v), b);
      InstalledOrKept(area, g, v, b);
    }
  }

  lemma InstallsReach(area: Area, g: Fault, v: seq<Block>)
    requires GoodLog(area, v) && Mirrored(area)
    ensures MirrorCrash.InRange(RecoverWrites(area, v)) && MirrorCrash.InRange(InstallWrites(area, v))
  {
  }

  /** A home block is written by recovery where its reader sees it, or not at all. */
  lemma InstalledOrKept(area: Area, g: Fault, v: seq<Block>, b: nat)
    requires GoodLog(area, v) && Recoverable(area, g, v) && b < LOGICAL_DISK_SIZE && Home(area, b)
    ensures Apply(v, RecoverWrites(area, v))[b] == Replay(area, v)[b]
    ensures Reaches(g, g, b) || Replay(area, v)[b] == v[b]
  {
    hide Reaches;
    var homew, clear := InstallWrites(area, v), Write(area.start, HeaderFor(v[area.start], []));
    ApplyAppend(v, homew, [clear]);
    ApplyFew(Apply(v, homew), clear, clear);
    ApplyAt(v, v, homew, b);
  }

  // ---- The pairs ----

  /** The blocks that transactions use: header, as many log blocks as fit, and the files. */
  predicate InUse(area: Area, b: nat) {
    b == area.start || (area.start < b < area.start + area.size && b <= area.start + LOGSIZE)
    || (b < LOGICAL_DISK_SIZE && Home(area, b))
  }

  /** Readers under `g` see all that writers under `f` write, and what they write themselves to files. */
  ghost predicate AllReach(area: Area, f: Fault, g: Fault) {
    (forall b: nat :: InUse(area, b) ==> Reaches(f, g, b)) && forall b: nat :: b < LOGICAL_DISK_SIZE && Home(area, b) ==> Reaches(g, g, b)
  }

  /** Readers under `g` see nothing that matters of what writers under `f` write. */
  ghost predicate NoneReach(area: Area, f: Fault, g: Fault) {
    !Reaches(f, g, area.start) && forall b: nat :: b < LOGICAL_DISK_SIZE && Home(area, b) ==> !Reaches(f, g, b)
  }

  /** A transaction as `log_write` makes it, on a disk that its reader finds in order. */
  ghost predicate Admissible(area: Area, g: Fault, d: seq<Block>, header: Block, lh: seq<int>, data: seq<Block>) {
    && |d| == FSSIZE && GoodLog(area, View(g, d)) && LogCount(area, View(g, d)) == 0
    && |header.words| == WORDS_PER_BLOCK && |lh| == |data| && Loggable(area, lh) && Distinct(lh)
  }

  /** The files after a commit under `f` was cut short after `k` physical writes, and then recovered under `g`,
      after any interrupted attempts. */
  function Outcome(area: Area, f: Fault, g: Fault, d: seq<Block>, header: Block, lh: seq<int>, data: seq<Block>,
                   k: nat, cuts: seq<nat>): (w: seq<Block>)
    requires |d| == FSSIZE && |header.words| == WORDS_PER_BLOCK && |lh| == |data| && Loggable(area, lh)
  {
    Completed(area, g, MirrorCrash.Attempts(area, g, MirrorCrash.Crashed(area, f, d, header, lh, data, k), cuts))
  }

  function Completed(area: Area, g: Fault, d: seq<Block>): (w: seq<Block>)
    requires |d| == FSSIZE
  {
    View(g, if GoodLog(area, View(g, d)) then MirrorCrash.Recovered(area, g, d) else d)
  }

  /** The transaction has happened as a whole or not at all. */
  ghost predicate Whole(area: Area, f: Fault, g: Fault, d: seq<Block>, header: Block, lh: seq<int>, data: seq<Block>,
                        k: nat, cuts: seq<nat>)
    requires Admissible(area, g, d, header, lh, data)
  {
    DiskLoss.WholeOrNone(area, View(g, d), lh, data, Outcome(area, f, g, d, header, lh, data, k, cuts))
  }

  lemma AllReachWhole(area: Area, f: Fault, g: Fault, d: seq<Block>, header: Block, lh: seq<int>, data: seq<Block>,
                      k: nat, cuts: seq<nat>)
    requires Admissible(area, g, d, header, lh, data) && AllReach(area, f, g)
    ensures Whole(area, f, g, d, header, lh, data, k, cuts)
  {
    hide Apply, Mirror, View, Replay, CommitWrites, MirrorCrash.Attempts, CrashSafety.Committed, Reaches, Recoverable, Distinct;
    var ws := CommitWrites(area, header, lh, data);
    CommitReaches(area, f, g, header, lh, data);
    var ps := Mirror(f, ws);
    var k' := if k < |ps| then k else |ps|;
    assert ps[..|ps|] == ps;
    var j := RaidDisk.MirrorCrash(f, g, d, ws, k');
    var v := View(g, d);
    CrashSafety.CommitIsAtomic(area, v, header, lh, data, j);
    AllRecoverable(area, g, Apply(v, ws[..j]));
    RecoveryInstalls(area, g, MirrorCrash.Crashed(area, f, d, header, lh, data, k), cuts);
  }

  lemma CommitReaches(area: Area, f: Fault, g: Fault, header: Block, lh: seq<int>, data: seq<Block>)
    requires |header.words| == WORDS_PER_BLOCK && |lh| == |data| && Loggable(area, lh) && Layout(area) && Mirrored(area)
    requires forall b: nat :: InUse(area, b) ==> Reaches(f, g, b)
    ensures ReachesAll(f, g, CommitWrites(area, header, lh, data))
  {
    hide Reaches;
    var ws := CommitWrites(area, header, lh, data);
    forall i | 0 <= i < |ws| ensures ws[i].blockno < LOGICAL_DISK_SIZE && InUse(area, ws[i].blockno) {
    }
  }

  lemma AllRecoverable(area: Area, g: Fault, v: seq<Block>)
    requires GoodLog(area, v) && Mirrored(area) && forall b: nat :: b < LOGICAL_DISK_SIZE && Home(area, b) ==> Reaches(g, g, b)
    ensures Recoverable(area, g, v)
  {
    hide Reaches;
  }

  lemma EmptyRecoverable(area: Area, g: Fault, v: seq<Block>)
    requires GoodLog(area, v) && LogCount(area, v) == 0
    ensures Recoverable(area, g, v) && Replay(area, v) == v
  {
    CrashSafety.ReplayOfEmpty(area, v);
  }

  lemma NoneReachWhole(area: Area, f: Fault, g: Fault, d: seq<Block>, header: Block, lh: seq<int>, data: seq<Block>,
                       k: nat, cuts: seq<nat>)
    requires Admissible(area, g, d, header, lh, data) && NoneReach(area, f, g)
    ensures Whole(area, f, g, d, header, lh, data, k, cuts)
  {
    hide Apply, Mirror, View, Replay, CommitWrites, MirrorCrash.Attempts, CrashSafety.Committed, Reaches, Recoverable, Distinct;
    var ws := CommitWrites(area, header, lh, data);
    MirrorCrash.CommitInRange(area, header, lh, data);
    var ps := Mirror(f, ws);
    var k' := if k < |ps| then k else |ps|;
    assert ps[..|ps|] == ps;
    var d' := MirrorCrash.Crashed(area, f, d, header, lh, data, k);
    var v, u := View(g, d), View(g, d');
    UnreachedUntouched(f, g, d, ws, k', area.start);
    forall b | 0 <= b < LOGICAL_DISK_SIZE && Home(area, b) ensures u[b] == v[b] {
      UnreachedUntouched(f, g, d, ws, k', b);
    }
    assert GoodLog(area, u) && LogCount(area, u) == 0;
    EmptyRecoverable(area, g, u);
    RecoveryInstalls(area, g, d', cuts);
  }

  // ---- Every other pair tears some transaction ----

  /** A block full of one word. */
  function FullOf(n: int): Block {
    Block(seq(WORDS_PER_BLOCK, _ => n))
  }

  const ZERO := FullOf(0)
  const ONE := FullOf(1)
  const TWO := FullOf(2)

  lemma ThreeBlocks()
    ensures ZERO != ONE && ZERO != TWO && ONE != TWO
    ensures |ZERO.words| == WORDS_PER_BLOCK && ZERO.words[0] == 0 && IsHeader(ZERO) && HeaderBlocks(ZERO) == []
  {
    assert ZERO.words[0] == 0 && ONE.words[0] == 1 && TWO.words[0] == 2;
  }

  /** A log area with room for two blocks, and files behind it. */
  predicate Roomy(area: Area) {
    Mirrored(area) && 3 <= area.size && area.start + area.size + 2 * LOGSIZE <= LOGICAL_DISK_SIZE
  }

  /** A disk whose log is empty and whose log blocks hold ones, with zeros everywhere else; and both halves. */
  function Half(area: Area): (v: seq<Block>)
    ensures |v| == LOGICAL_DISK_SIZE && forall b :: 0 <= b < LOGICAL_DISK_SIZE ==> v[b] == Imaged(area, b)
  {
    seq(LOGICAL_DISK_SIZE, b => Imaged(area, b))
  }

  function Image(area: Area): (d: seq<Block>)
    ensures |d| == FSSIZE
  {
    Half(area) + Half(area)
  }

  function Imaged(area: Area, b: int): Block {
    if area.start < b < area.start + area.size then ONE else ZERO
  }

  lemma ImageSeen(area: Area, g: Fault)
    requires Roomy(area)
    ensures forall b :: 0 <= b < LOGICAL_DISK_SIZE ==> View(g, Image(area))[b] == Imaged(area, b)
    ensures GoodLog(area, View(g, Image(area))) && LogCount(area, View(g, Image(area))) == 0
  {
    hide View, Image;
    ThreeBlocks();
    var v := View(g, Image(area));
    forall b | 0 <= b < LOGICAL_DISK_SIZE ensures v[b] == Imaged(area, b) {
      ImageAt(area, g, b);
    }
    assert v[area.start] == ZERO;
    assert HeaderBlocks(v[area.start]) == [];
  }

  lemma ImageAt(area: Area, g: Fault, b: nat)
    requires b < LOGICAL_DISK_SIZE
    ensures View(g, Image(area))[b] == Imaged(area, b)
  {
    hide Imaged;
    assert View(g, Image(area))[b] == Image(area)[g.ReadCopy(b)];
  }

  function Twos(n: nat): (data: seq<Block>)
    ensures |data| == n
  {
    seq(n, _ => TWO)
  }

  lemma ImageAdmissible(area: Area, g: Fault, lh: seq<int>)
    requires Roomy(area) && Loggable(area, lh) && Distinct(lh)
    ensures Admissible(area, g, Image(area), ZERO, lh, Twos(|lh|))
  {
    ThreeBlocks();
    ImageSeen(area, g);
  }

  /** The physical writes for the first `j` logical writes of a commit. */
  function After(f: Fault, ws: seq<Write>, j: nat): nat
    requires j <= |ws|
  {
    |Mirror(f, ws[..j])|
  }

  /** What a reader finds after the first `j` writes of a commit. */
  lemma CrashedAfter(area: Area, f: Fault, g: Fault, d: seq<Block>, header: Block, lh: seq<int>, data: seq<Block>, j: nat)
    requires |d| == FSSIZE && |header.words| == WORDS_PER_BLOCK && |lh| == |data| && Loggable(area, lh) && Layout(area) && Mirrored(area)
    requires j <= |CommitWrites(area, header, lh, data)|
    ensures var ws := CommitWrites(area, header, lh, data);
            var u, v := View(g, MirrorCrash.Crashed(area, f, d, header, lh, data, After(f, ws, j))), View(g, d);
            forall b :: 0 <= b < LOGICAL_DISK_SIZE ==> u[b] == if Reaches(f, g, b) then Apply(v, ws[..j])[b] else v[b]
  {
    hide Apply, Mirror, View, CommitWrites, Reaches;
    var ws := CommitWrites(area, header, lh, data);
    MirrorCrash.CommitInRange(area, header, lh, data);
    assert ws == ws[..j] + ws[j..];
    MirrorAppend(f, ws[..j], ws[j..]);
    var k := After(f, ws, j);
    assert Mirror(f, ws)[..k] == Mirror(f, ws[..j]);
    var d' := MirrorCrash.Crashed(area, f, d, header, lh, data, k);
    assert d' == Apply(d, Mirror(f, ws[..j])) by {
      assert k == |Mirror(f, ws)| ==> Mirror(f, ws)[..k] == Mirror(f, ws);
    }
    forall b | 0 <= b < LOGICAL_DISK_SIZE
      ensures View(g, d')[b] == if Reaches(f, g, b) then Apply(View(g, d), ws[..j])[b] else View(g, d)[b]
    {
      SeenWhereReached(f, g, d, ws[..j], b);
    }
  }

  /** One home block not as before, and one not as the transaction leaves it: neither none of it nor all. */
  lemma NotWhole(area: Area, f: Fault, g: Fault, d: seq<Block>, header: Block, lh: seq<int>, data: seq<Block>,
                 k: nat, x: nat, y: nat)
    requires Admissible(area, g, d, header, lh, data)
    requires x < LOGICAL_DISK_SIZE && Home(area, x) && y < LOGICAL_DISK_SIZE && Home(area, y)
    requires var u := View(g, MirrorCrash.Crashed(area, f, d, header, lh, data, k));
             && GoodLog(area, u) && Recoverable(area, g, u)
             && Replay(area, u)[x] != View(g, d)[x]
             && Replay(area, u)[y] != CrashSafety.Committed(area, View(g, d), lh, data)[y]
    ensures !Whole(area, f, g, d, header, lh, data, k, [])
  {
    hide View, Replay, Apply, MirrorCrash.Attempts, MirrorCrash.Crashed, MirrorCrash.Recovered, Recoverable, CrashSafety.Committed;
    RecoveryInstalls(area, g, MirrorCrash.Crashed(area, f, d, header, lh, data, k), []);
  }

  lemma CommittedAt(area: Area, v: seq<Block>, lh: seq<int>, data: seq<Block>, i: nat)
    requires |v| == area.blocks && |lh| == |data| && Loggable(area, lh) && Distinct(lh) && i < |lh|
    ensures CrashSafety.Committed(area, v, lh, data)[lh[i]] == data[i]
  {
    hide CrashSafety.Committed;
    assert Home(area, lh[i]);
    DiskLoss.PrefixIsAll(area, v, lh, data);
    DiskLoss.PrefixAt(area, v, lh, data, |lh|, lh[i]);
  }

  /** One home block reached and another not: the complete commit shows one of them. */
  lemma TornFiles(area: Area, f: Fault, g: Fault, x: nat, y: nat) returns (k: nat)
    requires Roomy(area) && x < LOGICAL_DISK_SIZE && Home(area, x) && y < LOGICAL_DISK_SIZE && Home(area, y)
    requires Reaches(f, g, x) && !Reaches(f, g, y)
    ensures Admissible(area, g, Image(area), ZERO, [x, y], Twos(2))
    ensures !Whole(area, f, g, Image(area), ZERO, [x, y], Twos(2), k, [])
  {
    hide Apply, Mirror, View, Replay, CommitWrites, Reaches, Recoverable, Image, HeaderFor, HomeWrites, CrashSafety.Committed;
    ThreeBlocks();
    var lh: seq<int>, data, d := [x, y], Twos(2), Image(area);
    ImageAdmissible(area, g, lh);
    ImageSeen(area, g);
    var v, ws := View(g, d), CommitWrites(area, ZERO, lh, data);
    k := After(f, ws, |ws|);
    CrashedAfter(area, f, g, d, ZERO, lh, data, |ws|);
    var u := View(g, MirrorCrash.Crashed(area, f, d, ZERO, lh, data, k));
    assert ws[..|ws|] == ws;
    CrashSafety.CrashAfterErase(area, v, ZERO, lh, data);
    CommittedAt(area, v, lh, data, 0);
    CommittedAt(area, v, lh, data, 1);
    EmptyLogSeen(area, Apply(v, ws), v, u);
    EmptyRecoverable(area, g, u);
    NotWhole(area, f, g, d, ZERO, lh, data, k, x, y);
  }

  lemma EmptyLogSeen(area: Area, w: seq<Block>, v: seq<Block>, u: seq<Block>)
    requires GoodLog(area, w) && LogCount(area, w) == 0 && GoodLog(area, v) && LogCount(area, v) == 0
    requires |u| == area.blocks && (u[area.start] == w[area.start] || u[area.start] == v[area.start])
    ensures GoodLog(area, u) && LogCount(area, u) == 0
  {
  }

  /** What the first writes after the header leave in the home blocks. */
  lemma AfterSome(area: Area, v: seq<Block>, header: Block, lh: seq<int>, data: seq<Block>, m: nat, b: nat)
    requires GoodLog(area, v) && |header.words| == WORDS_PER_BLOCK && |lh| == |data| > 0 && Loggable(area, lh) && m <= |lh|
    requires Distinct(lh) && b < area.blocks && Home(area, b)
    ensures var w := Apply(v, CommitWrites(area, header, lh, data)[..|lh| + 1 + m]);
            && ((forall i :: 0 <= i < m ==> lh[i] != b) ==> w[b] == v[b])
            && (forall i :: 0 <= i < m && lh[i] == b ==> w[b] == data[i])
  {
    hide Apply, HeaderFor, HomeWrites, LogWrites;
    var u := CrashSafety.AfterHeader(area, v, header, lh, data);
    var homew := HomeWrites(area, lh, data);
    CrashSafety.CommitSplit(area, header, lh, data, m);
    ApplyAppend(v, LogWrites(area, data) + [Write(area.start, HeaderFor(header, lh))], homew[..m]);
    DiskLoss.PrefixAt(area, u, lh, data, m, b);
  }

  /** The header not reached: while the commit installs its blocks, no log tells of the others. */
  lemma TornWithoutHeader(area: Area, f: Fault, g: Fault, x: nat, y: nat) returns (k: nat)
    requires Roomy(area) && x < LOGICAL_DISK_SIZE && Home(area, x) && y < LOGICAL_DISK_SIZE && Home(area, y) && x != y
    requires Reaches(f, g, x) && Reaches(f, g, y) && !Reaches(f, g, area.start)
    ensures Admissible(area, g, Image(area), ZERO, [x, y], Twos(2))
    ensures !Whole(area, f, g, Image(area), ZERO, [x, y], Twos(2), k, [])
  {
    hide Apply, Mirror, View, Replay, CommitWrites, Reaches, Recoverable, Image, HeaderFor, HomeWrites, CrashSafety.Committed;
    ThreeBlocks();
    var lh: seq<int>, data, d := [x, y], Twos(2), Image(area);
    ImageAdmissible(area, g, lh);
    ImageSeen(area, g);
    var v, ws := View(g, d), CommitWrites(area, ZERO, lh, data);
    MirrorCrash.CommitInRange(area, ZERO, lh, data);
    k := After(f, ws, 4);
    CrashedAfter(area, f, g, d, ZERO, lh, data, 4);
    var u := View(g, MirrorCrash.Crashed(area, f, d, ZERO, lh, data, k));
    AfterSome(area, v, ZERO, lh, data, 1, x);
    AfterSome(area, v, ZERO, lh, data, 1, y);
    assert lh[0] == x && u[x] == data[0] == TWO && v[x] == ZERO;
    CommittedAt(area, v, lh, data, 1);
    EmptyLogSeen(area, v, v, u);
    EmptyRecoverable(area, g, u);
    NotWhole(area, f, g, d, ZERO, lh, data, k, x, y);
  }

  /** What a reader finds just after the header has been written, where it is reached. */
  lemma AfterHeaderSeen(area: Area, f: Fault, g: Fault, lh: seq<int>) returns (k: nat, u: seq<Block>)
    requires Roomy(area) && Loggable(area, lh) && Distinct(lh) && |lh| > 0 && Reaches(f, g, area.start)
    ensures Admissible(area, g, Image(area), ZERO, lh, Twos(|lh|))
    ensures u == View(g, MirrorCrash.Crashed(area, f, Image(area), ZERO, lh, Twos(|lh|), k))
    ensures GoodLog(area, u) && u[area.start] == HeaderFor(ZERO, lh) && HeaderBlocks(u[area.start]) == lh
    ensures LogCount(area, u) == |lh|
    ensures forall i :: 0 <= i < |lh| ==> LoggedData(area, u)[i] == if LogBlockReached(area, f, g, i + 1) then TWO else ONE
    ensures forall b :: 0 <= b < LOGICAL_DISK_SIZE && Home(area, b) ==> u[b] == ZERO
  {
    hide Apply, Mirror, View, CommitWrites, Reaches, Image, HeaderFor, HeaderBlocks, Replay;
    ThreeBlocks();
    var n, data, d := |lh|, Twos(|lh|), Image(area);
    ImageAdmissible(area, g, lh);
    ImageSeen(area, g);
    var v, ws := View(g, d), CommitWrites(area, ZERO, lh, data);
    MirrorCrash.CommitInRange(area, ZERO, lh, data);
    k := After(f, ws, n + 1);
    CrashedAfter(area, f, g, d, ZERO, lh, data, n + 1);
    u := View(g, MirrorCrash.Crashed(area, f, d, ZERO, lh, data, k));
    HeaderWritten(area, v, lh, data);
    var w := Apply(v, ws[..n + 1]);
    assert u[area.start] == w[area.start];
    assert GoodLog(area, u) && LogCount(area, u) == n;
    forall i | 0 <= i < n ensures LoggedData(area, u)[i] == if LogBlockReached(area, f, g, i + 1) then TWO else ONE {
      var b := area.start + (i + 1);
      assert LoggedData(area, u)[i] == u[b] && LoggedData(area, w)[i] == w[b];
    }
  }

  /** The disk just after the header has been written. */
  lemma HeaderWritten(area: Area, v: seq<Block>, lh: seq<int>, data: seq<Block>)
    requires GoodLog(area, v) && |lh| == |data| > 0 && Loggable(area, lh)
    ensures |CommitWrites(area, ZERO, lh, data)| >= |lh| + 1 && |ZERO.words| == WORDS_PER_BLOCK
    ensures var w := Apply(v, CommitWrites(area, ZERO, lh, data)[..|lh| + 1]);
            && w[area.start] == HeaderFor(ZERO, lh) && SameFiles(area, w, v)
            && GoodLog(area, w) && LogCount(area, w) == |lh| && LoggedData(area, w) == data
  {
    hide Apply, HeaderFor, HeaderBlocks;
    ThreeBlocks();
    var w := CrashSafety.AfterHeader(area, v, ZERO, lh, data);
    var written := LogWrites(area, data) + [Write(area.start, HeaderFor(ZERO, lh))];
    CrashSafety.CommitSplit(area, ZERO, lh, data, 0);
    assert HomeWrites(area, lh, data)[..0] == [] && written + [] == written;
    assert |lh| + 1 + 0 == |lh| + 1;
    forall i | 0 <= i < |lh| ensures LoggedData(area, w)[i] == data[i] {
      assert InstallWrites(area, w)[i] == HomeWrites(area, lh, data)[i];
    }
  }

  /** The header reached and a log block not: recovery installs what the log block held before. */
  lemma TornLog(area: Area, f: Fault, g: Fault, lh: seq<int>) returns (k: nat)
    requires Roomy(area) && Loggable(area, lh) && Distinct(lh) && |lh| > 0
    requires Reaches(f, g, area.start) && !Reaches(f, g, area.start + |lh|)
    requires forall i :: 0 <= i < |lh| ==> Reaches(g, g, lh[i])
    ensures Admissible(area, g, Image(area), ZERO, lh, Twos(|lh|))
    ensures !Whole(area, f, g, Image(area), ZERO, lh, Twos(|lh|), k, [])
  {
    hide Apply, Mirror, View, CommitWrites, Reaches, Image, HeaderFor, HeaderBlocks, CrashSafety.Committed, Replay, Whole;
    ThreeBlocks();
    var n, data := |lh|, Twos(|lh|);
    var u;
    k, u := AfterHeaderSeen(area, f, g, lh);
    ImageSeen(area, g);
    ReplayAt(area, u, lh, n - 1);
    assert !LogBlockReached(area, f, g, n - 1 + 1);
    assert Home(area, lh[n - 1]);
    CommittedAt(area, View(g, Image(area)), lh, data, n - 1);
    assert Recoverable(area, g, u);
    NotWhole(area, f, g, Image(area), ZERO, lh, data, k, lh[n - 1], lh[n - 1]);
  }

  lemma ReplayAt(area: Area, u: seq<Block>, lh: seq<int>, i: nat)
    requires GoodLog(area, u) && HeaderBlocks(u[area.start]) == lh && Distinct(lh) && i < |lh|
    ensures Loggable(area, lh) && LogCount(area, u) == |lh|
    ensures Replay(area, u)[lh[i]] == LoggedData(area, u)[i]
  {
    CommittedAt(area, u, lh, LoggedData(area, u), i);
  }

  /** A home block that its reader does not see written by recovery, where the commit itself is seen. */
  lemma TornByRecovery(area: Area, f: Fault, g: Fault, x: nat, y: nat) returns (k: nat)
    requires Roomy(area) && x < LOGICAL_DISK_SIZE && Home(area, x) && y < LOGICAL_DISK_SIZE && Home(area, y) && x != y
    requires Reaches(f, g, area.start) && Reaches(f, g, area.start + 2)
    requires !Reaches(g, g, x) && Reaches(g, g, y)
    ensures Admissible(area, g, Image(area), ZERO, [x, y], Twos(2))
    ensures !Whole(area, f, g, Image(area), ZERO, [x, y], Twos(2), k, [])
  {
    hide Apply, Mirror, View, CommitWrites, Reaches, Image, HeaderFor, HeaderBlocks, CrashSafety.Committed, Replay;
    ThreeBlocks();
    var lh: seq<int>, data := [x, y], Twos(2);
    var u;
    k, u := AfterHeaderSeen(area, f, g, lh);
    ImageSeen(area, g);
    ReplayAt(area, u, lh, 1);
    CommittedAt(area, View(g, Image(area)), lh, data, 0);
    assert LogBlockReached(area, f, g, 1 + 1);
    var d' := MirrorCrash.Crashed(area, f, Image(area), ZERO, lh, data, k);
    RecoveredAt(area, g, d', x);
    RecoveredAt(area, g, d', y);
  }

  /** A home block after a recovery whose reader may not see all of it. */
  lemma RecoveredAt(area: Area, g: Fault, d: seq<Block>, b: nat)
    requires |d| == FSSIZE && GoodLog(area, View(g, d)) && b < LOGICAL_DISK_SIZE && Home(area, b)
    ensures View(g, MirrorCrash.Recovered(area, g, d))[b]
            == if Reaches(g, g, b) then Replay(area, View(g, d))[b] else View(g, d)[b]
  {
    hide View, Mirror, Reaches, Apply;
    var v := View(g, d);
    var homew, clear := InstallWrites(area, v), Write(area.start, HeaderFor(v[area.start], []));
    InstallsReach(area, g, v);
    SeenWhereReached(g, g, d, RecoverWrites(area, v), b);
    ApplyAppend(v, homew, [clear]);
    ApplyFew(Apply(v, homew), clear, clear);
  }

  // ---- Exactly ----

  /** Every crash point of every transaction is all-or-nothing. */
  ghost predicate AlwaysWhole(area: Area, f: Fault, g: Fault) {
    forall d, header, lh, data, k, cuts ::
      Admissible(area, g, d, header, lh, data) ==> Whole(area, f, g, d, header, lh, data, k, cuts)
  }

  /** For which pairs of fault settings, during the commit and during recovery, every crash point of every
      transaction is all-or-nothing: exactly those under which recovery sees all that the commit writes and
      what it writes to files itself, or nothing that matters of what the commit writes. */
  lemma AtomicPairsExactly(area: Area, f: Fault, g: Fault)
    requires Roomy(area)
    ensures AlwaysWhole(area, f, g) <==> AllReach(area, f, g) || NoneReach(area, f, g)
  {
    hide Reaches, Whole, Admissible, InUse;
    if AllReach(area, f, g) || NoneReach(area, f, g) {
      forall d, header, lh, data, k, cuts | Admissible(area, g, d, header, lh, data)
        ensures Whole(area, f, g, d, header, lh, data, k, cuts)
      {
        if AllReach(area, f, g) {
          AllReachWhole(area, f, g, d, header, lh, data, k, cuts);
        } else {
          NoneReachWhole(area, f, g, d, header, lh, data, k, cuts);
        }
      }
    } else {
      OthersTear(area, f, g);
    }
  }

  predicate LogBlockReached(area: Area, f: Fault, g: Fault, s: nat) {
    Reaches(f, g, area.start + s)
  }

  lemma OthersTear(area: Area, f: Fault, g: Fault)
    requires Roomy(area) && !AllReach(area, f, g) && !NoneReach(area, f, g)
    ensures !AlwaysWhole(area, f, g)
  {
    hide Reaches, Whole, Admissible;
    var a: nat, b: nat := area.start + area.size, area.start + area.size + 1;
    if x: nat, y: nat :| x < LOGICAL_DISK_SIZE && Home(area, x) && y < LOGICAL_DISK_SIZE && Home(area, y)
                         && Reaches(f, g, x) && !Reaches(f, g, y) {
      var k := TornFiles(area, f, g, x, y);
    } else if Reaches(f, g, a) {
      if !Reaches(f, g, area.start) {
        var k := TornWithoutHeader(area, f, g, a, b);
      } else if s: nat :| 1 <= s <= LOGSIZE && s < area.size && !LogBlockReached(area, f, g, s) {
        var lh := SomeFiles(area, g, s);
        var k := TornLog(area, f, g, lh);
      } else {
        RecoveryTears(area, f, g);
      }
    } else {
      HeaderAlone(area, f, g);
      var lh := SomeFiles(area, g, 1);
      var k := TornLog(area, f, g, lh);
    }
  }

  lemma RecoveryTears(area: Area, f: Fault, g: Fault)
    requires Roomy(area) && !AllReach(area, f, g) && Reaches(f, g, area.start)
    requires forall s: nat :: 1 <= s <= LOGSIZE && s < area.size ==> LogBlockReached(area, f, g, s)
    requires forall x: nat :: x < LOGICAL_DISK_SIZE && Home(area, x) ==> Reaches(f, g, x)
    ensures !AlwaysWhole(area, f, g)
  {
    hide Reaches, Whole, Admissible;
    forall b: nat | InUse(area, b) ensures Reaches(f, g, b) {
      if area.start < b < area.start + area.size {
        assert LogBlockReached(area, f, g, b - area.start);
      }
    }
    var x: nat :| x < LOGICAL_DISK_SIZE && Home(area, x) && !Reaches(g, g, x);
    var a: nat := area.start + area.size;
    var y: nat := if x == a then a + 1 else a;
    OneBad(g, x, y);
    assert LogBlockReached(area, f, g, 2);
    var k := TornByRecovery(area, f, g, x, y);
  }

  /** At most one block is not reached by the writes of its own reader. */
  lemma OneBad(g: Fault, x: nat, y: nat)
    requires x < LOGICAL_DISK_SIZE && y < LOGICAL_DISK_SIZE && !Reaches(g, g, x) && x != y
    ensures Reaches(g, g, y)
  {
  }

  /** `s` files that recovery under `g` sees itself write. */
  lemma SomeFiles(area: Area, g: Fault, s: nat) returns (lh: seq<int>)
    requires Roomy(area) && 1 <= s <= LOGSIZE && s < area.size
    ensures |lh| == s && Loggable(area, lh) && Distinct(lh) && forall i :: 0 <= i < s ==> lh[i] >= 0 && Reaches(g, g, lh[i])
  {
    hide Reaches;
    var a := area.start + area.size;
    lh := seq(s, i => a + i);
    if i :| 0 <= i < s && !Reaches(g, g, lh[i]) {
      var bad: nat := lh[i];
      lh := seq(s, j => a + LOGSIZE + j);
      forall j | 0 <= j < s ensures Reaches(g, g, lh[j]) {
        OneBad(g, bad, lh[j]);
      }
    }
  }

  /** If the header is reached and no file is, the log blocks are not reached either. */
  lemma HeaderAlone(area: Area, f: Fault, g: Fault)
    requires Roomy(area) && !NoneReach(area, f, g)
    requires forall x: nat :: x < LOGICAL_DISK_SIZE && Home(area, x) ==> !Reaches(f, g, x)
    ensures Reaches(f, g, area.start) && !Reaches(f, g, area.start + 1)
  {
    var a: nat, b: nat, c: nat := area.start + area.size, area.start + area.size + 1, area.start + area.size + 2;
    assert Home(area, a) && Home(area, b) && Home(area, c);
    assert !Reaches(f, g, a) && !Reaches(f, g, b) && !Reaches(f, g, c);
  }
}
