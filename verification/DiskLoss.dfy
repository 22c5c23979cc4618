/** Losing disk 0 after recovery has started from it. Recovery may be interrupted with both disks
    working and resumed from disk 1 alone; the result is all-or-nothing unless the original crash
    fell exactly between the two copies of the header and the transaction changes two blocks or more. */
module DiskLoss {
  import opened DiskWrites
  import opened RaidDisk
  import opened RedoLog
  import opened CrashSafety
  import opened MirrorCrash
  import MirrorRuns

  /** Both halves promise the files `t`, and so does every write the log of disk 0 holds. */
  ghost predicate Promise(area: Area, v0: seq<Block>, v1: seq<Block>, t: seq<Block>) {
    && GoodLog(area, v0) && GoodLog(area, v1) && |t| == area.blocks
    && SameFiles(area, Replay(area, v1), t)
    && Agree(InstallWrites(area, v0), t)
    && (forall b :: 0 <= b < area.blocks && Home(area, b) && v1[b] != t[b] ==> Writes(InstallWrites(area, v0), b))
  }

  /** Every write of the list puts the contents that `t` has there. */
  predicate Agree(ws: seq<Write>, t: seq<Block>) {
    forall i :: 0 <= i < |ws| ==> ws[i].blockno < |t| && ws[i].data == t[ws[i].blockno]
  }

  lemma {:induction false} ApplyAgree(v: seq<Block>, ws: seq<Write>, t: seq<Block>, b: nat)
    requires Agree(ws, t) && |v| == |t| && b < |v|
    ensures Apply(v, ws)[b] == if Writes(ws, b) then t[b] else v[b]
  {
    ApplyAt(v, v, ws, b);
    if ws != [] {
      var n := |ws| - 1;
      PrefixWrites(ws, n, b);
      ApplyAgree(v, ws[..n], t, b);
      if Writes(ws, b) && ws[n].blockno != b {
        var i :| 0 <= i < |ws| && ws[i].blockno == b;
        assert ws[..n][i].blockno == b;
      }
    }
  }

  lemma HomeWritesAgree(area: Area, v: seq<Block>, lh: seq<int>, data: seq<Block>)
    requires |v| == area.blocks && |lh| == |data| && Loggable(area, lh) && Distinct(lh)
    ensures Agree(HomeWrites(area, lh, data), Committed(area, v, lh, data))
  {
    var ws := HomeWrites(area, lh, data);
    forall i | 0 <= i < |ws| ensures Apply(v, ws)[ws[i].blockno] == ws[i].data {
      var b := ws[i].blockno;
      ApplyPrefix(v, ws, i);
      var tail := ws[i + 1..];
      assert ws == ws[..i + 1] + tail;
      ApplyAppend(v, ws[..i + 1], tail);
      ApplyAt(Apply(v, ws[..i + 1]), v, tail, b);
      forall m | 0 <= m < |tail| ensures tail[m].blockno != b {
        assert tail[m] == ws[i + 1 + m];
      }
    }
  }

  /** A commit leaves alone the home blocks it does not log. */
  lemma UnloggedUntouched(area: Area, v: seq<Block>, header: Block, lh: seq<int>, data: seq<Block>, j: nat, b: nat)
    requires |v| == area.blocks && Layout(area) && Home(area, b)
    requires |header.words| == WORDS_PER_BLOCK && |lh| == |data| && Loggable(area, lh)
    requires j <= |CommitWrites(area, header, lh, data)|
    requires !Writes(HomeWrites(area, lh, data), b)
    ensures Apply(v, CommitWrites(area, header, lh, data)[..j])[b] == v[b]
  {
    var ws := CommitWrites(area, header, lh, data);
    if Writes(ws[..j], b) {
      var i :| 0 <= i < j && ws[..j][i].blockno == b;
      MirrorRuns.InFlight(area, header, lh, data, i);
      assert false;
    }
    ApplyAt(v, v, ws[..j], b);
  }

  lemma PromiseBeforeHeader(area: Area, v0: seq<Block>, v1: seq<Block>,
                            header: Block, lh: seq<int>, data: seq<Block>, j0: nat, j1: nat)
    requires GoodLog(area, v0) && LogCount(area, v0) == 0 && GoodLog(area, v1) && LogCount(area, v1) == 0
    requires SameFiles(area, v0, v1)
    requires |header.words| == WORDS_PER_BLOCK && |lh| == |data| > 0 && Loggable(area, lh)
    requires j1 <= j0 <= |lh|
    ensures var ws := CommitWrites(area, header, lh, data);
            Promise(area, Apply(v0, ws[..j0]), Apply(v1, ws[..j1]), v0)
  {
    hide Apply;
    CrashInLogWrites(area, v0, header, lh, data, j0);
    CrashInLogWrites(area, v1, header, lh, data, j1);
    ReplayOfEmpty(area, Apply(v0, CommitWrites(area, header, lh, data)[..j0]));
  }

  lemma PromiseWhileInstalling(area: Area, v0: seq<Block>, v1: seq<Block>,
                               header: Block, lh: seq<int>, data: seq<Block>, j0: nat, j1: nat)
    requires GoodLog(area, v0) && GoodLog(area, v1) && SameFiles(area, v0, v1)
    requires |header.words| == WORDS_PER_BLOCK && |lh| == |data| > 0 && Loggable(area, lh) && Distinct(lh)
    requires |lh| < j1 <= j0 <= 2 * |lh| + 1
    ensures var ws := CommitWrites(area, header, lh, data);
            Promise(area, Apply(v0, ws[..j0]), Apply(v1, ws[..j1]), Committed(area, v0, lh, data))
  {
    hide Apply, HomeWrites, Replay, Writes, Committed, Agree, SameFiles, InstallWrites, HeaderFor, Loggable;
    var ws := CommitWrites(area, header, lh, data);
    var n, homew := |lh|, HomeWrites(area, lh, data);
    CrashInInstall(area, v0, header, lh, data, j0 - n - 1);
    CrashInInstall(area, v1, header, lh, data, j1 - n - 1);
    CommittedSame(area, v0, v1, lh, data, Replay(area, Apply(v1, ws[..j1])));
    HomeWritesAgree(area, v0, lh, data);
    forall b | 0 <= b < area.blocks && Home(area, b)
      ensures Apply(v1, ws[..j1])[b] != Committed(area, v0, lh, data)[b] ==> Writes(homew, b)
    {
      UnloggedSame(area, v0, v1, header, lh, data, j1, b);
    }
  }

  lemma CommittedSame(area: Area, v0: seq<Block>, v1: seq<Block>, lh: seq<int>, data: seq<Block>, w: seq<Block>)
    requires SameFiles(area, v0, v1) && |lh| == |data| && Loggable(area, lh)
    requires SameFiles(area, w, Committed(area, v1, lh, data))
    ensures SameFiles(area, w, Committed(area, v0, lh, data)) && |Committed(area, v0, lh, data)| == area.blocks
  {
    hide Apply, HomeWrites;
    SameFilesAfter(area, v0, v1, HomeWrites(area, lh, data));
  }

  /** A block that is not logged has, at any time, the contents the transaction leaves it with. */
  lemma UnloggedSame(area: Area, v0: seq<Block>, v1: seq<Block>, header: Block, lh: seq<int>, data: seq<Block>, j: nat, b: nat)
    requires GoodLog(area, v0) && GoodLog(area, v1) && SameFiles(area, v0, v1) && Home(area, b)
    requires |header.words| == WORDS_PER_BLOCK && |lh| == |data| && Loggable(area, lh)
    requires j <= |CommitWrites(area, header, lh, data)|
    ensures !Writes(HomeWrites(area, lh, data), b) ==>
              Apply(v1, CommitWrites(area, header, lh, data)[..j])[b] == Committed(area, v0, lh, data)[b]
  {
    hide Apply, HomeWrites, CommitWrites, Writes;
    if !Writes(HomeWrites(area, lh, data), b) {
      UnloggedUntouched(area, v1, header, lh, data, j, b);
      ApplyAt(v0, v0, HomeWrites(area, lh, data), b);
    }
  }

  lemma PromiseAfterErase(area: Area, v0: seq<Block>, v1: seq<Block>,
                          header: Block, lh: seq<int>, data: seq<Block>, j1: nat)
    requires GoodLog(area, v0) && GoodLog(area, v1) && SameFiles(area, v0, v1)
    requires |header.words| == WORDS_PER_BLOCK && |lh| == |data| > 0 && Loggable(area, lh)
    requires 2 * |lh| + 1 <= j1 <= 2 * |lh| + 2 == |CommitWrites(area, header, lh, data)|
    ensures var ws := CommitWrites(area, header, lh, data);
            Promise(area, Apply(v0, ws), Apply(v1, ws[..j1]), Committed(area, v0, lh, data))
  {
    hide Apply, HomeWrites;
    var ws := CommitWrites(area, header, lh, data);
    assert ws[..|ws|] == ws;
    CrashAfterErase(area, v0, header, lh, data);
    ReplayOfEmpty(area, Apply(v0, ws));
    SameFilesAfter(area, v0, v1, HomeWrites(area, lh, data));
    if j1 == |ws| {
      CrashAfterErase(area, v1, header, lh, data);
    } else {
      CrashInInstall(area, v1, header, lh, data, |lh|);
    }
  }

  /** A commit cut short anywhere but between its two header copies leaves both halves promising
      the same files. */
  lemma CrashPromises(area: Area, v0: seq<Block>, v1: seq<Block>,
                      header: Block, lh: seq<int>, data: seq<Block>, j0: nat, j1: nat)
    requires GoodLog(area, v0) && LogCount(area, v0) == 0 && GoodLog(area, v1) && LogCount(area, v1) == 0
    requires SameFiles(area, v0, v1)
    requires |header.words| == WORDS_PER_BLOCK && |lh| == |data| && Loggable(area, lh) && Distinct(lh)
    requires j1 <= j0 <= |CommitWrites(area, header, lh, data)| && j0 <= j1 + 1
    requires j0 == |lh| + 1 ==> j1 == |lh| + 1
    ensures var ws := CommitWrites(area, header, lh, data);
            Promise(area, Apply(v0, ws[..j0]), Apply(v1, ws[..j1]),
                    if j0 <= |lh| then v0 else Committed(area, v0, lh, data))
  {
    hide Apply, HomeWrites, CommitWrites, Promise;
    var ws := CommitWrites(area, header, lh, data);
    CommitLength(area, header, lh, data);
    if lh == [] {
      PromiseNothing(area, v0, v1);
      NoWrites(NO_FAULT, v0);
      NoWrites(NO_FAULT, v1);
      assert ws[..j0] == [] && ws[..j1] == [];
    } else if j0 <= |lh| {
      PromiseBeforeHeader(area, v0, v1, header, lh, data, j0, j1);
    } else if j0 <= 2 * |lh| + 1 {
      PromiseWhileInstalling(area, v0, v1, header, lh, data, j0, j1);
    } else {
      assert ws[..j0] == ws;
      PromiseAfterErase(area, v0, v1, header, lh, data, j1);
    }
  }

  lemma PromiseNothing(area: Area, v0: seq<Block>, v1: seq<Block>)
    requires GoodLog(area, v0) && LogCount(area, v0) == 0 && GoodLog(area, v1) && LogCount(area, v1) == 0
    requires SameFiles(area, v0, v1)
    ensures Promise(area, v0, v1, v0)
  {
    ReplayOfEmpty(area, v0);
    ReplayOfEmpty(area, v1);
  }

  // ---------- Interrupted recovery from disk 0, with both disks written ----------

  lemma InstallKeepsPromise(area: Area, v0: seq<Block>, v1: seq<Block>, t: seq<Block>, j0: nat, j1: nat)
    requires Promise(area, v0, v1, t) && j1 <= j0 <= |InstallWrites(area, v0)|
    ensures var ws := InstallWrites(area, v0);
            Promise(area, Apply(v0, ws[..j0]), Apply(v1, ws[..j1]), t)
  {
    hide Apply, HomeWrites, Writes, HeaderBlocks;
    var ws := InstallWrites(area, v0);
    var w1 := Apply(v1, ws[..j1]);
    ReplayAfterInstall(area, v0, j0);
    LogUntouched(area, v0, v1, j1);
    forall b | 0 <= b < area.blocks && Home(area, b)
      ensures Replay(area, w1)[b] == t[b] && (w1[b] != t[b] ==> Writes(ws, b))
    {
      ApplyAgree(v1, ws[..j1], t, b);
      ApplyAt(v1, w1, InstallWrites(area, v1), b);
      ApplyAt(w1, v1, InstallWrites(area, v1), b);
    }
  }

  lemma LogUntouched(area: Area, v0: seq<Block>, v1: seq<Block>, j1: nat)
    requires GoodLog(area, v0) && GoodLog(area, v1) && j1 <= |InstallWrites(area, v0)|
    ensures var w1 := Apply(v1, InstallWrites(area, v0)[..j1]);
            GoodLog(area, w1) && w1[area.start] == v1[area.start] && InstallWrites(area, w1) == InstallWrites(area, v1)
  {
    var ws := InstallWrites(area, v0)[..j1];
    var w1 := Apply(v1, ws);
    forall b | InLog(area, b) ensures w1[b] == v1[b] {
      HomeWritesKeepLog(area, v1, ws, b);
    }
    SameLogArea(area, v1, w1);
  }

  lemma EraseKeepsPromise(area: Area, v0: seq<Block>, v1: seq<Block>, t: seq<Block>, erased: bool)
    requires Promise(area, v0, v1, t)
    ensures var ws := InstallWrites(area, v0);
            var clear := Write(area.start, HeaderFor(v0[area.start], []));
            var w1 := Apply(v1, ws);
            Promise(area, Put(Apply(v0, ws), clear), if erased then Put(w1, clear) else w1, t)
  {
    hide Apply, HomeWrites, HeaderBlocks, Writes;
    var ws := InstallWrites(area, v0);
    var clear := Write(area.start, HeaderFor(v0[area.start], []));
    var w0, w1 := Apply(v0, ws), Apply(v1, ws);
    RecoverStages(NO_FAULT, area, v0);
    RecoveryCompletes(area, v0);
    ApplyFew(w0, clear, clear);
    ReplayOfEmpty(area, Put(w0, clear));
    InstallKeepsPromise(area, v0, v1, t, |ws|, |ws|);
    assert ws[..|ws|] == ws;
    forall b | 0 <= b < area.blocks && Home(area, b) ensures w1[b] == t[b] {
      ApplyAgree(v1, ws, t, b);
    }
    if erased {
      ReplayOfEmpty(area, Put(w1, clear));
    }
  }

  lemma NoFaultAttemptKeepsPromise(area: Area, d: seq<Block>, t: seq<Block>, cut: nat)
    requires |d| == FSSIZE && Promise(area, View(DISK0_ONLY, d), View(DISK1_ONLY, d), t)
    ensures var d1 := Attempt(area, NO_FAULT, d, cut);
            Promise(area, View(DISK0_ONLY, d1), View(DISK1_ONLY, d1), t)
  {
    hide Apply, Mirror, View, HomeWrites, HeaderBlocks;
    NoFaultView(d);
    var v0, v1 := View(DISK0_ONLY, d), View(DISK1_ONLY, d);
    var ws, homew := RecoverWrites(area, v0), InstallWrites(area, v0);
    RecoverWritesReach(area, NO_FAULT, v0);
    var ps := Mirror(NO_FAULT, ws);
    HalvesInLockstep(d, ws, 0);
    var k := if cut < |ps| then cut else |ps|;
    assert ps[..|ps|] == ps;
    HalvesInLockstep(d, ws, k);
    var j0, j1 := (k + 1) / 2, k / 2;
    if j0 <= |homew| {
      assert ws[..j0] == homew[..j0] && ws[..j1] == homew[..j1];
      InstallKeepsPromise(area, v0, v1, t, j0, j1);
    } else {
      assert ws[..j0] == ws && ws[..|homew|] == homew;
      ApplyPrefix(v0, ws, |homew|);
      ApplyPrefix(v1, ws, |homew|);
      EraseKeepsPromise(area, v0, v1, t, j1 == |ws|);
    }
  }

  lemma {:induction false} NoFaultAttemptsKeepPromise(area: Area, d: seq<Block>, t: seq<Block>, cuts: seq<nat>)
    requires |d| == FSSIZE && Promise(area, View(DISK0_ONLY, d), View(DISK1_ONLY, d), t)
    ensures var d1 := Attempts(area, NO_FAULT, d, cuts);
            Promise(area, View(DISK0_ONLY, d1), View(DISK1_ONLY, d1), t)
    decreases |cuts|
  {
    hide View, Attempt, Promise;
    if cuts != [] {
      NoFaultAttemptKeepsPromise(area, d, t, cuts[0]);
      NoFaultAttemptsKeepPromise(area, Attempt(area, NO_FAULT, d, cuts[0]), t, cuts[1..]);
    }
  }

  /** Disk 0 may be lost at any point of an interrupted recovery. If the crash of the commit did
      not fall exactly between the two header copies, resuming from disk 1 alone still gives the
      whole transaction or none of it, as decided by the header on disk 0. */
  lemma DiskLostDuringRecovery(area: Area, d: seq<Block>, header: Block, lh: seq<int>, data: seq<Block>,
                               k: nat, cuts: seq<nat>, moreCuts: seq<nat>)
    requires LogicallyEqual(area, d)
    requires |header.words| == WORDS_PER_BLOCK && |lh| == |data| && Loggable(area, lh) && Distinct(lh)
    requires lh != [] ==> k != 2 * |lh| + 1
    ensures var d1 := Attempts(area, NO_FAULT, Crashed(area, NO_FAULT, d, header, lh, data, k), cuts);
            var d2 := Attempts(area, DISK1_ONLY, d1, moreCuts);
            var v := View(DISK0_ONLY, d);
            && GoodLog(area, View(DISK1_ONLY, d2))
            && SameFiles(area, View(DISK1_ONLY, Recovered(area, DISK1_ONLY, d2)),
                         if HeaderReached(NO_FAULT, lh, k) then Committed(area, v, lh, data) else v)
  {
    hide Apply, Mirror, View, CommitWrites, Attempts, Committed, Recovered, Replay;
    var ws := CommitWrites(area, header, lh, data);
    CommitInRange(area, header, lh, data);
    var ps := Mirror(NO_FAULT, ws);
    HalvesInLockstep(d, ws, 0);
    var k' := if k < |ps| then k else |ps|;
    assert ps[..|ps|] == ps;
    HalvesInLockstep(d, ws, k');
    var v0, v1 := View(DISK0_ONLY, d), View(DISK1_ONLY, d);
    CrashPromises(area, v0, v1, header, lh, data, (k' + 1) / 2, k' / 2);
    var t := if (k' + 1) / 2 <= |lh| then v0 else Committed(area, v0, lh, data);
    var d' := Crashed(area, NO_FAULT, d, header, lh, data, k);
    NoFaultAttemptsKeepPromise(area, d', t, cuts);
    RecoveryAlwaysCompletes(area, DISK1_ONLY, Attempts(area, NO_FAULT, d', cuts), moreCuts);
  }

  // ---------- A crash exactly between the two copies of the header ----------

  /** The first `m` blocks of the transaction have been installed on disk 1, whose log is empty. The
      log on disk 0 still holds the transaction, or has been erased after all of it was installed. */
  ghost predicate Partway(area: Area, v0: seq<Block>, v1: seq<Block>, v: seq<Block>, lh: seq<int>, data: seq<Block>, m: nat) {
    && GoodLog(area, v0) && GoodLog(area, v1) && LogCount(area, v1) == 0
    && |lh| == |data| && Loggable(area, lh) && Distinct(lh) && m <= |lh|
    && SameFiles(area, v1, Prefix(area, v, lh, data, m))
    && (InstallWrites(area, v0) == HomeWrites(area, lh, data) || (m == |lh| && LogCount(area, v0) == 0))
  }

  /** The files with only the first `m` blocks of the transaction changed. */
  function Prefix(area: Area, v: seq<Block>, lh: seq<int>, data: seq<Block>, m: nat): (r: seq<Block>)
    requires |lh| == |data| && Loggable(area, lh) && m <= |lh|
    ensures |r| == |v|
  {
    Apply(v, HomeWrites(area, lh, data)[..m])
  }

  lemma PrefixAgrees(area: Area, v: seq<Block>, lh: seq<int>, data: seq<Block>, m: nat)
    requires |v| == area.blocks && |lh| == |data| && Loggable(area, lh) && Distinct(lh) && m <= |lh|
    ensures Agree(HomeWrites(area, lh, data)[..m], Prefix(area, v, lh, data, m))
  {
    assert HomeWrites(area, lh, data)[..m] == HomeWrites(area, lh[..m], data[..m]);
    HomeWritesAgree(area, v, lh[..m], data[..m]);
  }

  /** Installing a prefix of the blocks over another prefix leaves the longer of the two. */
  lemma PrefixOverPrefix(area: Area, v: seq<Block>, lh: seq<int>, data: seq<Block>, m: nat, j: nat)
    requires |v| == area.blocks && |lh| == |data| && Loggable(area, lh) && Distinct(lh) && m <= |lh| && j <= |lh|
    ensures Apply(Prefix(area, v, lh, data, m), HomeWrites(area, lh, data)[..j])
            == Prefix(area, v, lh, data, if m < j then j else m)
  {
    hide Apply, HomeWrites, Loggable, Distinct;
    var ws := HomeWrites(area, lh, data);
    var t := Prefix(area, v, lh, data, m);
    if m < j {
      assert ws[..j][..m] == ws[..m];
      ApplyAbsorbs(v, ws[..j], m);
    } else {
      PrefixAgrees(area, v, lh, data, m);
      assert ws[..j] == ws[..m][..j];
      forall b | 0 <= b < |t| ensures Apply(t, ws[..j])[b] == t[b] {
        ApplyAgree(t, ws[..j], t, b);
      }
    }
  }

  /** How much of the transaction the attempts at recovery have installed on disk 1. */
  function Furthest(n: nat, cuts: seq<nat>, m: nat): (r: nat)
    decreases |cuts|
  {
    if cuts == [] then m else Furthest(n, cuts[1..], Further(n, cuts[0], m))
  }

  function Further(n: nat, cut: nat, m: nat): nat {
    var j := if cut / 2 < n then cut / 2 else n;
    if m < j then j else m
  }

  lemma InstallPartway(area: Area, v0: seq<Block>, v1: seq<Block>, v: seq<Block>, lh: seq<int>, data: seq<Block>,
                       m: nat, j0: nat, j1: nat)
    requires |v| == area.blocks && Partway(area, v0, v1, v, lh, data, m)
    requires InstallWrites(area, v0) == HomeWrites(area, lh, data) && j1 <= j0 <= |lh|
    ensures var ws := HomeWrites(area, lh, data);
            Partway(area, Apply(v0, ws[..j0]), Apply(v1, ws[..j1]), v, lh, data, if m < j1 then j1 else m)
  {
    hide Apply, HomeWrites, Distinct, Prefix;
    var ws := HomeWrites(area, lh, data);
    ReplayAfterInstall(area, v0, j0);
    LogUntouched(area, v0, v1, j1);
    SameFilesAfter(area, v1, Prefix(area, v, lh, data, m), ws[..j1]);
    PrefixOverPrefix(area, v, lh, data, m, j1);
  }

  lemma ErasePartway(area: Area, v0: seq<Block>, v1: seq<Block>, v: seq<Block>, lh: seq<int>, data: seq<Block>, h: Block, erased: bool)
    requires |v| == area.blocks && Partway(area, v0, v1, v, lh, data, |lh|) && |h.words| == WORDS_PER_BLOCK
    ensures var clear := Write(area.start, HeaderFor(h, []));
            Partway(area, Put(v0, clear), if erased then Put(v1, clear) else v1, v, lh, data, |lh|)
  {
    hide Apply, HomeWrites, Distinct, Prefix;
    ReplayOfEmpty(area, Put(v0, Write(area.start, HeaderFor(h, []))));
  }

  lemma AttemptPartway(area: Area, d: seq<Block>, v: seq<Block>, lh: seq<int>, data: seq<Block>, m: nat, cut: nat)
    requires |d| == FSSIZE && |v| == area.blocks
    requires Partway(area, View(DISK0_ONLY, d), View(DISK1_ONLY, d), v, lh, data, m)
    ensures var d1 := Attempt(area, NO_FAULT, d, cut);
            Partway(area, View(DISK0_ONLY, d1), View(DISK1_ONLY, d1), v, lh, data, Further(|lh|, cut, m))
  {
    hide Apply, Mirror, View, RecoverWrites;
    NoFaultView(d);
    var v0, v1 := View(DISK0_ONLY, d), View(DISK1_ONLY, d);
    var ws := RecoverWrites(area, v0);
    RecoverWritesReach(area, NO_FAULT, v0);
    var ps := Mirror(NO_FAULT, ws);
    HalvesInLockstep(d, ws, 0);
    var k := if cut < |ps| then cut else |ps|;
    assert ps[..|ps|] == ps;
    HalvesInLockstep(d, ws, k);
    AttemptWrites(area, v0, v1, v, lh, data, m, cut);
  }

  /** One attempt, seen from the two halves. */
  lemma AttemptWrites(area: Area, v0: seq<Block>, v1: seq<Block>, v: seq<Block>, lh: seq<int>, data: seq<Block>, m: nat, cut: nat)
    requires |v| == area.blocks && Partway(area, v0, v1, v, lh, data, m)
    ensures var ws := RecoverWrites(area, v0);
            var k := if cut < 2 * |ws| then cut else 2 * |ws|;
            Partway(area, Apply(v0, ws[..(k + 1) / 2]), Apply(v1, ws[..k / 2]), v, lh, data, Further(|lh|, cut, m))
  {
    hide Apply, HomeWrites, HeaderBlocks, Partway, Loggable, HeaderFor, GoodLog;
    PartwayGood(area, v0, v1, v, lh, data, m);
    var ws, homew := RecoverWrites(area, v0), InstallWrites(area, v0);
    var k := if cut < 2 * |ws| then cut else 2 * |ws|;
    var j0, j1 := (k + 1) / 2, k / 2;
    if j0 <= |homew| {
      assert ws[..j0] == homew[..j0] && ws[..j1] == homew[..j1];
      AttemptInstalls(area, v0, v1, v, lh, data, m, j0, j1);
    } else {
      assert ws[..j0] == ws && ws[..|homew| + 1] == ws;
      AttemptErases(area, v0, v1, v, lh, data, m, j1);
    }
  }

  lemma PartwayGood(area: Area, v0: seq<Block>, v1: seq<Block>, v: seq<Block>, lh: seq<int>, data: seq<Block>, m: nat)
    requires Partway(area, v0, v1, v, lh, data, m)
    ensures GoodLog(area, v0) && m <= |lh|
    ensures |InstallWrites(area, v0)| == |lh| || (m == |lh| && |InstallWrites(area, v0)| == 0)
  {
  }

  lemma AttemptErases(area: Area, v0: seq<Block>, v1: seq<Block>, v: seq<Block>, lh: seq<int>, data: seq<Block>, m: nat, j1: nat)
    requires |v| == area.blocks && Partway(area, v0, v1, v, lh, data, m)
    requires |InstallWrites(area, v0)| <= j1 <= |RecoverWrites(area, v0)|
    ensures Partway(area, Apply(v0, RecoverWrites(area, v0)), Apply(v1, RecoverWrites(area, v0)[..j1]), v, lh, data, |lh|)
  {
    hide Apply, HomeWrites, HeaderBlocks, Partway, Loggable, HeaderFor;
    PartwayGood(area, v0, v1, v, lh, data, m);
    var ws, homew := RecoverWrites(area, v0), InstallWrites(area, v0);
    var n := |homew|;
    assert ws[..n] == homew && homew[..n] == homew && ws[..n + 1] == ws;
    ApplyPrefix(v0, ws, n);
    ApplyPrefix(v1, ws, n);
    AttemptInstalls(area, v0, v1, v, lh, data, m, n, n);
    ErasePartway(area, Apply(v0, homew), Apply(v1, homew), v, lh, data, v0[area.start], j1 == n + 1);
  }

  /** The installing part of an attempt, with the log on disk 0 still full or already erased. */
  lemma AttemptInstalls(area: Area, v0: seq<Block>, v1: seq<Block>, v: seq<Block>, lh: seq<int>, data: seq<Block>,
                        m: nat, j0: nat, j1: nat)
    requires |v| == area.blocks && Partway(area, v0, v1, v, lh, data, m)
    requires j1 <= j0 <= |InstallWrites(area, v0)|
    ensures var ws := InstallWrites(area, v0);
            Partway(area, Apply(v0, ws[..j0]), Apply(v1, ws[..j1]), v, lh, data, if m < j1 then j1 else m)
  {
    hide Apply, HomeWrites, Distinct, Prefix, SameFiles, Loggable;
    if InstallWrites(area, v0) == HomeWrites(area, lh, data) {
      InstallPartway(area, v0, v1, v, lh, data, m, j0, j1);
    } else {
      ReplayOfEmpty(area, v0);
      NoWrites(NO_FAULT, v0);
      NoWrites(NO_FAULT, v1);
    }
  }

  lemma {:induction false} AttemptsPartway(area: Area, d: seq<Block>, v: seq<Block>, lh: seq<int>, data: seq<Block>, m: nat, cuts: seq<nat>)
    requires |d| == FSSIZE && |v| == area.blocks
    requires Partway(area, View(DISK0_ONLY, d), View(DISK1_ONLY, d), v, lh, data, m)
    ensures var d1 := Attempts(area, NO_FAULT, d, cuts);
            Partway(area, View(DISK0_ONLY, d1), View(DISK1_ONLY, d1), v, lh, data, Furthest(|lh|, cuts, m))
    decreases |cuts|
  {
    hide View, Attempt, Partway;
    if cuts != [] {
      AttemptPartway(area, d, v, lh, data, m, cuts[0]);
      AttemptsPartway(area, Attempt(area, NO_FAULT, d, cuts[0]), v, lh, data, Further(|lh|, cuts[0], m), cuts[1..]);
    }
  }

  /** The two halves when the commit is cut short between the two copies of its header. */
  lemma BetweenHeadersState(area: Area, d: seq<Block>, header: Block, lh: seq<int>, data: seq<Block>)
    requires LogicallyEqual(area, d)
    requires |header.words| == WORDS_PER_BLOCK && |lh| == |data| > 0 && Loggable(area, lh) && Distinct(lh)
    ensures var d' := Crashed(area, NO_FAULT, d, header, lh, data, 2 * |lh| + 1);
            Partway(area, View(DISK0_ONLY, d'), View(DISK1_ONLY, d'), View(DISK0_ONLY, d), lh, data, 0)
  {
    hide Apply, Mirror, View, CommitWrites, HeaderBlocks, Replay, Committed, HomeWrites;
    var n := |lh|;
    var ws := CommitWrites(area, header, lh, data);
    CommitInRange(area, header, lh, data);
    HalvesInLockstep(d, ws, 2 * n + 1);
    assert (2 * n + 1 + 1) / 2 == n + 1 && (2 * n + 1) / 2 == n;
    CrashInInstall(area, View(DISK0_ONLY, d), header, lh, data, 0);
    CrashInLogWrites(area, View(DISK1_ONLY, d), header, lh, data, n);
    NoWrites(NO_FAULT, View(DISK0_ONLY, d));
    assert HomeWrites(area, lh, data)[..0] == [];
  }

  /** The files on disk 1 when a commit cut short after `k` physical writes is followed by attempts at
      recovery from disk 0, disk 0 is lost, and recovery is resumed from disk 1 and completed. */
  function Resumed(area: Area, d: seq<Block>, header: Block, lh: seq<int>, data: seq<Block>,
                   k: nat, cuts: seq<nat>, moreCuts: seq<nat>): (r: seq<Block>)
    requires |d| == FSSIZE
    requires |header.words| == WORDS_PER_BLOCK && |lh| == |data| && Loggable(area, lh)
  {
    var d1 := Attempts(area, NO_FAULT, Crashed(area, NO_FAULT, d, header, lh, data, k), cuts);
    var d2 := Attempts(area, DISK1_ONLY, d1, moreCuts);
    View(DISK1_ONLY, if GoodLog(area, View(DISK1_ONLY, d2)) then Recovered(area, DISK1_ONLY, d2) else d2)
  }

  /** If the crash fell between the two copies of the header, disk 1 ends up with exactly those first
      blocks of the transaction that the attempts had installed when disk 0 was lost. */
  lemma BetweenHeadersLeavesPrefix(area: Area, d: seq<Block>, header: Block, lh: seq<int>, data: seq<Block>,
                                   cuts: seq<nat>, moreCuts: seq<nat>)
    requires LogicallyEqual(area, d)
    requires |header.words| == WORDS_PER_BLOCK && |lh| == |data| > 0 && Loggable(area, lh) && Distinct(lh)
    ensures var m := Furthest(|lh|, cuts, 0);
            && m <= |lh|
            && SameFiles(area, Resumed(area, d, header, lh, data, 2 * |lh| + 1, cuts, moreCuts),
                         Prefix(area, View(DISK0_ONLY, d), lh, data, m))
  {
    hide Apply, Mirror, View, HeaderBlocks, Replay, Prefix, Crashed, Attempts, Recovered, Distinct, Loggable;
    var d' := Crashed(area, NO_FAULT, d, header, lh, data, 2 * |lh| + 1);
    BetweenHeadersState(area, d, header, lh, data);
    AttemptsPartway(area, d', View(DISK0_ONLY, d), lh, data, 0, cuts);
    var d1 := Attempts(area, NO_FAULT, d', cuts);
    ReplayOfEmpty(area, View(DISK1_ONLY, d1));
    RecoveryAlwaysCompletes(area, DISK1_ONLY, d1, moreCuts);
  }

  // ---------- Exactly when losing disk 0 leaves the transaction whole ----------

  ghost predicate WholeOrNone(area: Area, v: seq<Block>, lh: seq<int>, data: seq<Block>, w: seq<Block>)
    requires |lh| == |data| && Loggable(area, lh)
  {
    SameFiles(area, w, v) || SameFiles(area, w, Committed(area, v, lh, data))
  }

  /** At most one block of the transaction differs from what the disk held. */
  predicate ChangesAtMostOne(v: seq<Block>, lh: seq<int>, data: seq<Block>)
    requires |lh| == |data| && forall i :: 0 <= i < |lh| ==> 0 <= lh[i] < |v|
  {
    forall i, j :: 0 <= i < j < |lh| ==> data[i] == v[lh[i]] || data[j] == v[lh[j]]
  }

  /** Block by block, what a prefix of the transaction leaves. */
  lemma PrefixAt(area: Area, v: seq<Block>, lh: seq<int>, data: seq<Block>, m: nat, b: nat)
    requires |v| == area.blocks && |lh| == |data| && Loggable(area, lh) && Distinct(lh) && m <= |lh| && b < |v|
    ensures (forall i :: 0 <= i < m ==> lh[i] != b) ==> Prefix(area, v, lh, data, m)[b] == v[b]
    ensures forall i :: 0 <= i < m && lh[i] == b ==> Prefix(area, v, lh, data, m)[b] == data[i]
  {
    hide Apply;
    var ws := HomeWrites(area, lh, data)[..m];
    PrefixAgrees(area, v, lh, data, m);
    ApplyAt(v, v, ws, b);
    forall i | 0 <= i < m && lh[i] == b ensures Prefix(area, v, lh, data, m)[b] == data[i] {
      assert ws[i] == Write(lh[i], data[i]);
    }
  }

  lemma PrefixIsAll(area: Area, v: seq<Block>, lh: seq<int>, data: seq<Block>)
    requires |lh| == |data| && Loggable(area, lh)
    ensures Prefix(area, v, lh, data, |lh|) == Committed(area, v, lh, data)
  {
    var ws := HomeWrites(area, lh, data);
    assert ws[..|lh|] == ws;
  }

  /** With at most one changed block, every prefix of the transaction is all of it or none of it. */
  lemma PrefixWhole(area: Area, v: seq<Block>, lh: seq<int>, data: seq<Block>, m: nat)
    requires |v| == area.blocks && |lh| == |data| && Loggable(area, lh) && Distinct(lh) && m <= |lh|
    requires ChangesAtMostOne(v, lh, data)
    ensures WholeOrNone(area, v, lh, data, Prefix(area, v, lh, data, m))
  {
    hide Prefix, Committed;
    PrefixIsAll(area, v, lh, data);
    var p, t := Prefix(area, v, lh, data, m), Prefix(area, v, lh, data, |lh|);
    if c :| 0 <= c < m && data[c] != v[lh[c]] {
      forall b | 0 <= b < area.blocks && Home(area, b) ensures p[b] == t[b] {
        SamePrefixes(area, v, lh, data, m, |lh|, b);
      }
    } else {
      forall b | 0 <= b < area.blocks && Home(area, b) ensures p[b] == v[b] {
        SamePrefixes(area, v, lh, data, 0, m, b);
        PrefixAt(area, v, lh, data, 0, b);
      }
    }
  }

  /** Installing blocks that hold what the disk already holds changes nothing. */
  lemma SamePrefixes(area: Area, v: seq<Block>, lh: seq<int>, data: seq<Block>, m: nat, n: nat, b: nat)
    requires |v| == area.blocks && |lh| == |data| && Loggable(area, lh) && Distinct(lh) && m <= n <= |lh| && b < |v|
    requires forall i :: m <= i < n ==> data[i] == v[lh[i]]
    ensures Prefix(area, v, lh, data, m)[b] == Prefix(area, v, lh, data, n)[b]
  {
    hide Prefix;
    PrefixAt(area, v, lh, data, m, b);
    PrefixAt(area, v, lh, data, n, b);
    if i :| 0 <= i < n && lh[i] == b {
      if i >= m {
        assert forall c :: 0 <= c < m ==> lh[c] != b;
      }
    }
  }

  /** Any two changed blocks can be torn apart: recovery interrupted just after it has installed the
      first of them, and resumed from disk 1, leaves the first new and the second old. */
  lemma BetweenHeadersTears(area: Area, d: seq<Block>, header: Block, lh: seq<int>, data: seq<Block>, i: nat, j: nat)
    requires LogicallyEqual(area, d)
    requires |header.words| == WORDS_PER_BLOCK && |lh| == |data| && Loggable(area, lh) && Distinct(lh) && i < j < |lh|
    requires data[i] != View(DISK0_ONLY, d)[lh[i]] && data[j] != View(DISK0_ONLY, d)[lh[j]]
    ensures var w := Resumed(area, d, header, lh, data, 2 * |lh| + 1, [2 * (i + 1)], []);
            && |w| == area.blocks && w[lh[i]] == data[i] && w[lh[j]] == View(DISK0_ONLY, d)[lh[j]]
            && !WholeOrNone(area, View(DISK0_ONLY, d), lh, data, w)
  {
    hide Resumed, Prefix, View, Committed;
    var v := View(DISK0_ONLY, d);
    var cuts: seq<nat> := [2 * (i + 1)];
    BetweenHeadersLeavesPrefix(area, d, header, lh, data, cuts, []);
    assert cuts[1..] == [] && Further(|lh|, cuts[0], 0) == i + 1;
    PrefixAt(area, v, lh, data, i + 1, lh[i]);
    PrefixAt(area, v, lh, data, i + 1, lh[j]);
    PrefixIsAll(area, v, lh, data);
    PrefixAt(area, v, lh, data, |lh|, lh[j]);
  }

  /** Exactly when disk 0 may be lost during recovery, for every crash point: every interrupted recovery
      resumed from disk 1 gives the whole transaction or none of it, if and only if the crash did not
      fall between the two copies of the header or at most one block of the transaction is changed. */
  lemma DiskLossExactly(area: Area, d: seq<Block>, header: Block, lh: seq<int>, data: seq<Block>, k: nat)
    requires |d| == FSSIZE && LogicallyEqual(area, d)
    requires |header.words| == WORDS_PER_BLOCK && |lh| == |data| && Loggable(area, lh) && Distinct(lh)
    ensures (forall cuts, moreCuts ::
               WholeOrNone(area, View(DISK0_ONLY, d), lh, data, Resumed(area, d, header, lh, data, k, cuts, moreCuts)))
            <==> k != 2 * |lh| + 1 || ChangesAtMostOne(View(DISK0_ONLY, d), lh, data)
  {
    hide Resumed, View, LogicallyEqual, Committed, HeaderReached, SameFiles;
    EqualMirrored(area, d);
    var v := View(DISK0_ONLY, d);
    if k != 2 * |lh| + 1 || ChangesAtMostOne(v, lh, data) {
      forall cuts: seq<nat>, moreCuts: seq<nat>
        ensures WholeOrNone(area, v, lh, data, Resumed(area, d, header, lh, data, k, cuts, moreCuts))
      {
        ResumedWhole(area, d, header, lh, data, k, cuts, moreCuts);
      }
    } else {
      var i, j :| 0 <= i < j < |lh| && data[i] != v[lh[i]] && data[j] != v[lh[j]];
      BetweenHeadersTears(area, d, header, lh, data, i, j);
    }
  }

  lemma EqualMirrored(area: Area, d: seq<Block>)
    requires LogicallyEqual(area, d)
    ensures Mirrored(area)
  {
  }

  lemma ResumedWhole(area: Area, d: seq<Block>, header: Block, lh: seq<int>, data: seq<Block>,
                     k: nat, cuts: seq<nat>, moreCuts: seq<nat>)
    requires |d| == FSSIZE && LogicallyEqual(area, d)
    requires |header.words| == WORDS_PER_BLOCK && |lh| == |data| && Loggable(area, lh) && Distinct(lh)
    requires k != 2 * |lh| + 1 || ChangesAtMostOne(View(DISK0_ONLY, d), lh, data)
    ensures WholeOrNone(area, View(DISK0_ONLY, d), lh, data, Resumed(area, d, header, lh, data, k, cuts, moreCuts))
  {
    hide View, Crashed, Attempts, Recovered, Prefix, GoodLog, LogicallyEqual, Distinct;
    if lh == [] || k != 2 * |lh| + 1 {
      DiskLostDuringRecovery(area, d, header, lh, data, k, cuts, moreCuts);
    } else {
      BetweenHeadersLeavesPrefix(area, d, header, lh, data, cuts, moreCuts);
      PrefixWhole(area, View(DISK0_ONLY, d), lh, data, Furthest(|lh|, cuts, 0));
    }
  }
}
