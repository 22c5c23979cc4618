/** Crash safety of the redo log over the mirrored disk. A crash keeps some prefix of the physical
    writes issued so far; what matters is the files that a later recovery reconstructs. */
module CrashSafety {
  import opened DiskWrites
  import RaidDisk
  import opened RedoLog

  // ---------- One logical disk ----------

  /** Replay is idempotent across a partial installation of the log. */
  lemma ReplayAfterInstall(area: Area, v: seq<Block>, done: nat)
    requires GoodLog(area, v) && done <= |InstallWrites(area, v)|
    ensures var w := Apply(v, InstallWrites(area, v)[..done]);
            && GoodLog(area, w) && w[area.start] == v[area.start]
            && InstallWrites(area, w) == InstallWrites(area, v)
            && Replay(area, w) == Replay(area, v)
  {
    var ws := InstallWrites(area, v);
    var w := Apply(v, ws[..done]);
    forall b | InLog(area, b) ensures w[b] == v[b] {
      HomeWritesKeepLog(area, v, ws[..done], b);
    }
    SameLogArea(area, v, w);
    ApplyAbsorbs(v, ws, done);
  }

  lemma ReplayOfEmpty(area: Area, v: seq<Block>)
    requires GoodLog(area, v) && LogCount(area, v) == 0
    ensures InstallWrites(area, v) == [] && Replay(area, v) == v
  {
  }

  /** The files after the transaction that writes `data` to the blocks `lh`. */
  function Committed(area: Area, v: seq<Block>, lh: seq<int>, data: seq<Block>): (r: seq<Block>)
    requires |lh| == |data| && Loggable(area, lh)
    ensures |r| == |v|
  {
    Apply(v, HomeWrites(area, lh, data))
  }

  /** Crash atomicity: after any `j` of the commit's logical writes, recovery reconstructs the
      files from before the transaction if the header is not yet written (`j <= |lh|`), and
      those of the whole transaction from then on. */
  lemma CommitIsAtomic(area: Area, v: seq<Block>, header: Block, lh: seq<int>, data: seq<Block>, j: nat)
    requires GoodLog(area, v) && LogCount(area, v) == 0
    requires |header.words| == WORDS_PER_BLOCK && |lh| == |data| && Loggable(area, lh)
    requires j <= |CommitWrites(area, header, lh, data)|
    ensures var w := Apply(v, CommitWrites(area, header, lh, data)[..j]);
            && GoodLog(area, w)
            && SameFiles(area, Replay(area, w), if j <= |lh| then v else Committed(area, v, lh, data))
  {
    hide Apply, HomeWrites, LogWrites, HeaderFor, HeaderBlocks, Replay;
    ReplayOfEmpty(area, v);
    if lh == [] {
      assert CommitWrites(area, header, lh, data)[..j] == [];
      NoWrites(RaidDisk.NO_FAULT, v);
    } else {
      if j <= |lh| {
        CrashInLogWrites(area, v, header, lh, data, j);
      } else if j <= 2 * |lh| + 1 {
        CrashInInstall(area, v, header, lh, data, j - |lh| - 1);
      } else {
        CrashAfterErase(area, v, header, lh, data);
        assert CommitWrites(area, header, lh, data)[..j] == CommitWrites(area, header, lh, data);
      }
    }
  }

  lemma CrashInLogWrites(area: Area, v: seq<Block>, header: Block, lh: seq<int>, data: seq<Block>, j: nat)
    requires GoodLog(area, v) && LogCount(area, v) == 0
    requires |header.words| == WORDS_PER_BLOCK && |lh| == |data| > 0 && Loggable(area, lh)
    requires j <= |lh|
    ensures var w := Apply(v, CommitWrites(area, header, lh, data)[..j]);
            GoodLog(area, w) && LogCount(area, w) == 0 && Replay(area, w) == w && SameFiles(area, w, v)
  {
    assert CommitWrites(area, header, lh, data)[..j] == LogWrites(area, data)[..j];
    LogPrefixKeepsHome(area, v, data, j);
    var w := Apply(v, CommitWrites(area, header, lh, data)[..j]);
    assert w[area.start] == v[area.start];
    ReplayOfEmpty(area, w);
  }

  /** The disk just after the header write: the files are untouched, the log is complete. */
  lemma AfterHeader(area: Area, v: seq<Block>, header: Block, lh: seq<int>, data: seq<Block>) returns (w: seq<Block>)
    requires |v| == area.blocks && Layout(area)
    requires |header.words| == WORDS_PER_BLOCK && |lh| == |data| > 0 && Loggable(area, lh)
    ensures w == Apply(v, LogWrites(area, data) + [Write(area.start, HeaderFor(header, lh))])
    ensures GoodLog(area, w) && SameFiles(area, w, v) && w[area.start] == HeaderFor(header, lh)
    ensures InstallWrites(area, w) == HomeWrites(area, lh, data)
  {
    var logw, headw := LogWrites(area, data), Write(area.start, HeaderFor(header, lh));
    LogWritesKeepHome(area, v, data);
    var u := Apply(v, logw);
    ApplyAppend(v, logw, [headw]);
    ApplyFew(u, headw, headw);
    w := u[area.start := HeaderFor(header, lh)];
    assert w[area.start + 1..area.start + 1 + |lh|] == u[area.start + 1..area.start + 1 + |lh|];
  }

  lemma CommitSplit(area: Area, header: Block, lh: seq<int>, data: seq<Block>, m: nat)
    requires |header.words| == WORDS_PER_BLOCK && |lh| == |data| > 0 && Loggable(area, lh) && m <= |lh|
    ensures var h := HeaderFor(header, lh);
            CommitWrites(area, header, lh, data)[..|lh| + 1 + m]
            == (LogWrites(area, data) + [Write(area.start, h)]) + HomeWrites(area, lh, data)[..m]
  {
  }

  lemma CrashInInstall(area: Area, v: seq<Block>, header: Block, lh: seq<int>, data: seq<Block>, m: nat)
    requires GoodLog(area, v)
    requires |header.words| == WORDS_PER_BLOCK && |lh| == |data| > 0 && Loggable(area, lh)
    requires m <= |lh|
    ensures var w := Apply(v, CommitWrites(area, header, lh, data)[..|lh| + 1 + m]);
            && GoodLog(area, w) && w[area.start] == HeaderFor(header, lh)
            && InstallWrites(area, w) == HomeWrites(area, lh, data)
            && SameFiles(area, Replay(area, w), Committed(area, v, lh, data))
            && (m == |lh| ==> SameFiles(area, w, Committed(area, v, lh, data)))
  {
    var u := AfterHeader(area, v, header, lh, data);
    var homew := HomeWrites(area, lh, data);
    CommitSplit(area, header, lh, data, m);
    ApplyAppend(v, LogWrites(area, data) + [Write(area.start, HeaderFor(header, lh))], homew[..m]);
    ReplayAfterInstall(area, u, m);
    SameFilesAfter(area, u, v, homew);
    assert homew[..|lh|] == homew;
  }

  lemma SameFilesAfter(area: Area, v: seq<Block>, w: seq<Block>, ws: seq<Write>)
    requires SameFiles(area, v, w)
    ensures SameFiles(area, Apply(v, ws), Apply(w, ws))
  {
    forall b | 0 <= b < area.blocks && Home(area, b) ensures Apply(v, ws)[b] == Apply(w, ws)[b] {
      ApplyAt(v, w, ws, b);
      ApplyAt(w, v, ws, b);
    }
  }

  lemma CrashAfterErase(area: Area, v: seq<Block>, header: Block, lh: seq<int>, data: seq<Block>)
    requires GoodLog(area, v)
    requires |header.words| == WORDS_PER_BLOCK && |lh| == |data| > 0 && Loggable(area, lh)
    ensures var w := Apply(v, CommitWrites(area, header, lh, data));
            && GoodLog(area, w) && LogCount(area, w) == 0 && Replay(area, w) == w
            && SameFiles(area, w, Committed(area, v, lh, data))
  {
    var ws := CommitWrites(area, header, lh, data);
    var n := |lh|;
    CrashInInstall(area, v, header, lh, data, n);
    assert ws[..2 * n + 2] == ws && ws[..n + 1 + n] == ws[..2 * n + 1];
    ApplyPrefix(v, ws, 2 * n + 1);
    ReplayOfEmpty(area, Apply(v, ws));
  }

  /** Recovery may itself be cut short: after any `j` of its writes the disk still promises the
      same files. */
  lemma RecoveryIsRestartable(area: Area, v: seq<Block>, j: nat)
    requires GoodLog(area, v) && j <= |RecoverWrites(area, v)|
    ensures var w := Apply(v, RecoverWrites(area, v)[..j]);
            && GoodLog(area, w)
            && SameFiles(area, Replay(area, w), Replay(area, v))
  {
    var homew := InstallWrites(area, v);
    if j <= |homew| {
      assert RecoverWrites(area, v)[..j] == homew[..j];
      ReplayAfterInstall(area, v, j);
    } else {
      assert RecoverWrites(area, v)[..j] == RecoverWrites(area, v);
      RecoveryCompletes(area, v);
    }
  }

  /** Completed recovery leaves the promised files in place and an empty log. */
  lemma RecoveryCompletes(area: Area, v: seq<Block>)
    requires GoodLog(area, v)
    ensures var w := Apply(v, RecoverWrites(area, v));
            && GoodLog(area, w) && LogCount(area, w) == 0 && Replay(area, w) == w
            && SameFiles(area, w, Replay(area, v))
  {
    var homew, clear := InstallWrites(area, v), Write(area.start, HeaderFor(v[area.start], []));
    var u := Apply(v, homew);
    ApplyAppend(v, homew, [clear]);
    ApplyFew(u, clear, clear);
    ReplayOfEmpty(area, Apply(v, RecoverWrites(area, v)));
  }
}
