/** Commits during which the fault settings change. A mirrored write looks at them once, so that they
    change between two logical writes. */
module FaultsDuringCommit {
  import DiskWrites
  import opened RaidDisk
  import RedoLog
  import CrashSafety
  import MirrorCrash
  import MirroredRead

  /** The physical writes when logical write `i` is issued under the settings `fs[i]`. */
  function MirrorEach(fs: seq<Fault>, ws: seq<DiskWrites.Write>): (ps: seq<DiskWrites.Write>)
    requires |fs| == |ws|
  {
    if ws == [] then [] else
      var n := |ws| - 1;
      MirrorEach(fs[..n], ws[..n]) + fs[n].CopiesWritten(ws[n])
  }

  predicate EachReaches(fs: seq<Fault>, g: Fault, ws: seq<DiskWrites.Write>) {
    |fs| == |ws| && forall i :: 0 <= i < |ws| ==> ws[i].blockno < LOGICAL_DISK_SIZE && Reaches(fs[i], g, ws[i].blockno)
  }

  lemma {:induction false} EachWhole(fs: seq<Fault>, g: Fault, d: seq<DiskWrites.Block>, ws: seq<DiskWrites.Write>)
    requires |d| == FSSIZE && EachReaches(fs, g, ws)
    ensures View(g, DiskWrites.Apply(d, MirrorEach(fs, ws))) == DiskWrites.Apply(View(g, d), ws)
  {
    hide View;
    if ws != [] {
      var n := |ws| - 1;
      EachWhole(fs[..n], g, d, ws[..n]);
      DiskWrites.ApplyAppend(d, MirrorEach(fs[..n], ws[..n]), fs[n].CopiesWritten(ws[n]));
      CopiesAreOneStep(fs[n], g, DiskWrites.Apply(d, MirrorEach(fs[..n], ws[..n])), ws[n], 0);
    }
  }

  /** After any number of the physical writes, a reader sees the disk as some prefix of the logical
      writes left it, whatever settings each of them met, as long as they reach the reader. */
  lemma {:induction false} EachCrash(fs: seq<Fault>, g: Fault, d: seq<DiskWrites.Block>, ws: seq<DiskWrites.Write>, k: nat) returns (j: nat)
    requires |d| == FSSIZE && EachReaches(fs, g, ws) && k <= |MirrorEach(fs, ws)|
    ensures j <= |ws|
    ensures View(g, DiskWrites.Apply(d, MirrorEach(fs, ws)[..k])) == DiskWrites.Apply(View(g, d), ws[..j])
  {
    hide DiskWrites.Apply, DiskWrites.Put, View, Reaches, Fault.CopiesWritten;
    if ws == [] {
      j := 0;
      RedoLog.NoWrites(NO_FAULT, d);
      RedoLog.NoWrites(NO_FAULT, View(g, d));
      assert MirrorEach(fs, ws)[..k] == [] && ws[..j] == [];
    } else {
      var n := |ws| - 1;
      var ps, last := MirrorEach(fs[..n], ws[..n]), fs[n].CopiesWritten(ws[n]);
      if k <= |ps| {
        assert (ps + last)[..k] == ps[..k];
        j := EachCrash(fs[..n], g, d, ws[..n], k);
        assert ws[..n][..j] == ws[..j];
      } else {
        assert (ps + last)[..k] == ps + last[..k - |ps|];
        EachWhole(fs[..n], g, d, ws[..n]);
        DiskWrites.ApplyAppend(d, ps, last[..k - |ps|]);
        DiskWrites.ApplyPrefix(View(g, d), ws, n);
        var done := CutWrite(fs[n], g, DiskWrites.Apply(d, ps), ws[n], k - |ps|);
        assert ws[..n + 1] == ws;
        j := if done then n + 1 else n;
      }
    }
  }

  /** A mirrored write cut short has happened for a reader, or not. */
  lemma CutWrite(f: Fault, g: Fault, d: seq<DiskWrites.Block>, w: DiskWrites.Write, k: nat) returns (done: bool)
    requires |d| == FSSIZE && w.blockno < LOGICAL_DISK_SIZE && Reaches(f, g, w.blockno) && k <= |f.CopiesWritten(w)|
    ensures View(g, DiskWrites.Apply(d, f.CopiesWritten(w)[..k])) == if done then DiskWrites.Put(View(g, d), w) else View(g, d)
  {
    hide DiskWrites.Apply, DiskWrites.Put, View;
    CopiesAreOneStep(f, g, d, w, k);
    done := View(g, DiskWrites.Apply(d, f.CopiesWritten(w)[..k])) == DiskWrites.Put(View(g, d), w);
  }

  /** Settings under which every later one only adds faults, ending with `g`, and no block is lost. */
  predicate OnlyAdded(fs: seq<Fault>, g: Fault) {
    && MirroredRead.Settable(g) && g.Readable()
    && (forall i :: 0 <= i < |fs| ==> MirroredRead.Settable(fs[i]) && MirroredRead.Worse(fs[i], g))
    && (forall i, j :: 0 <= i < j < |fs| ==> MirroredRead.Worse(fs[i], fs[j]))
  }

  lemma OnlyAddedReaches(fs: seq<Fault>, g: Fault, ws: seq<DiskWrites.Write>)
    requires OnlyAdded(fs, g) && |fs| == |ws| && MirrorCrash.InRange(ws)
    ensures EachReaches(fs, g, ws)
  {
    forall i | 0 <= i < |ws| ensures Reaches(fs[i], g, ws[i].blockno) {
      MirroredRead.WorseStillReaches(fs[i], g, ws[i].blockno);
    }
  }

  /** Crash atomicity when faults are added while the commit is under way: wherever the commit and the
      attempts at recovery stop, the files seen after recovery are all old or all new. */
  lemma CommitCrashWithAddedFaults(area: RedoLog.Area, fs: seq<Fault>, g: Fault, d: seq<DiskWrites.Block>,
                                   header: DiskWrites.Block, lh: seq<int>, data: seq<DiskWrites.Block>, k: nat, cuts: seq<nat>)
    requires |d| == FSSIZE && RedoLog.GoodLog(area, View(g, d)) && RedoLog.LogCount(area, View(g, d)) == 0
    requires |header.words| == DiskWrites.WORDS_PER_BLOCK && |lh| == |data| && RedoLog.Loggable(area, lh)
    requires |fs| == |RedoLog.CommitWrites(area, header, lh, data)| && OnlyAdded(fs, g)
    requires k <= |MirrorEach(fs, RedoLog.CommitWrites(area, header, lh, data))|
    ensures var crashed := DiskWrites.Apply(d, MirrorEach(fs, RedoLog.CommitWrites(area, header, lh, data))[..k]);
            var v, d1 := View(g, d), MirrorCrash.Attempts(area, g, crashed, cuts);
            && RedoLog.GoodLog(area, View(g, d1))
            && var w := View(g, MirrorCrash.Recovered(area, g, d1));
               RedoLog.SameFiles(area, w, v) || RedoLog.SameFiles(area, w, CrashSafety.Committed(area, v, lh, data))
  {
    hide DiskWrites.Apply, View, RedoLog.Replay, RedoLog.CommitWrites, MirrorCrash.Attempts, CrashSafety.Committed,
      MirrorEach, MirrorCrash.Recovered;
    var ws := RedoLog.CommitWrites(area, header, lh, data);
    MirrorCrash.CommitInRange(area, header, lh, data);
    OnlyAddedReaches(fs, g, ws);
    var j := EachCrash(fs, g, d, ws, k);
    CrashSafety.CommitIsAtomic(area, View(g, d), header, lh, data, j);
    MirrorCrash.RecoveryAlwaysCompletes(area, g, DiskWrites.Apply(d, MirrorEach(fs, ws)[..k]), cuts);
  }
}
