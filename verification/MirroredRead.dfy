/** When does a read that misses the cache return what was last written? */
module MirroredRead {
  import DiskWrites
  import opened RaidDisk

  /** One event at the mirror: a block is written, or the fault settings change. */
  datatype Op = WriteBlock(w: DiskWrites.Write) | SetFault(f: Fault)

  datatype State = State(disk: seq<DiskWrites.Block>, fault: Fault)

  function Step(s: State, op: Op): (r: State)
    ensures |r.disk| == |s.disk|
  {
    match op
    case WriteBlock(w) => s.(disk := DiskWrites.Apply(s.disk, s.fault.CopiesWritten(w)))
    case SetFault(f) => s.(fault := f)
  }

  function Run(s: State, ops: seq<Op>): (r: State)
    ensures |r.disk| == |s.disk|
  {
    if ops == [] then s else Step(Run(s, ops[..|ops| - 1]), ops[|ops| - 1])
  }

  /** The data last written to block `b`, or `init` if there was none. */
  function LastWritten(ops: seq<Op>, b: nat, init: DiskWrites.Block): DiskWrites.Block {
    if ops == [] then init
    else
      var op := ops[|ops| - 1];
      if op.WriteBlock? && op.w.blockno == b then op.w.data else LastWritten(ops[..|ops| - 1], b, init)
  }

  /** The settings the two test hooks accept. */
  predicate Settable(f: Fault) {
    f.diskFail in {-1, 0, 1} && -1 <= f.readErrorPbn < LOGICAL_DISK_SIZE
  }

  /** `g` only adds faults to `f`. */
  predicate Worse(f: Fault, g: Fault) {
    && (f.diskFail == -1 || g.diskFail == f.diskFail)
    && (f.readErrorPbn == -1 || g.readErrorPbn == f.readErrorPbn)
  }

  lemma CopyHolds(f: Fault, g: Fault, d: seq<DiskWrites.Block>, w: DiskWrites.Write)
    requires |d| == FSSIZE && w.blockno < LOGICAL_DISK_SIZE
    ensures DiskWrites.Apply(d, f.CopiesWritten(w))[g.ReadCopy(w.blockno)]
            == if Reaches(f, g, w.blockno) then w.data else d[g.ReadCopy(w.blockno)]
    ensures forall c :: 0 <= c < LOGICAL_DISK_SIZE && c != w.blockno ==>
                          DiskWrites.Apply(d, f.CopiesWritten(w))[g.ReadCopy(c)] == d[g.ReadCopy(c)]
  {
    hide DiskWrites.Apply;
    var p1 := DiskWrites.Write(w.blockno + DISK1_START_BLOCK, w.data);
    var ps := f.CopiesWritten(w);
    DiskWrites.ApplyFew(d, w, p1);
    DiskWrites.ApplyFew(d, p1, p1);
    if |ps| == 2 {
      assert ps == [w, p1];
    } else if |ps| == 1 && ps[0] == w {
      assert ps == [w];
    } else if |ps| == 1 {
      assert ps == [p1];
    } else {
      assert ps == [];
    }
  }

  /** Exactly when a block written under `f` is read back under `g`: when the writes reached the
      copy that is read, or that copy happened to hold the data already. */
  lemma ReadBackExactly(f: Fault, g: Fault, d: seq<DiskWrites.Block>, w: DiskWrites.Write)
    requires |d| == FSSIZE && w.blockno < LOGICAL_DISK_SIZE
    ensures DiskWrites.Apply(d, f.CopiesWritten(w))[g.ReadCopy(w.blockno)] == w.data
            <==> Reaches(f, g, w.blockno) || d[g.ReadCopy(w.blockno)] == w.data
    ensures Settable(f) ==> (Reaches(f, f, w.blockno) <==> !(f.diskFail == 1 && f.readErrorPbn == w.blockno))
  {
    CopyHolds(f, g, d, w);
  }

  /** Adding faults keeps reads on copies that have been written, unless the failure of disk 1
      meets a bad block on disk 0. */
  lemma WorseStillReaches(f: Fault, g: Fault, b: nat)
    requires Settable(f) && Settable(g) && Worse(f, g) && b < LOGICAL_DISK_SIZE && g.Readable()
    ensures Reaches(f, g, b)
  {
  }

  /** Every fault setting of the run is acceptable, only adds faults, and never loses a block. */
  predicate FaultsOnlyAdded(f: Fault, ops: seq<Op>) {
    Settable(f) && f.Readable()
    && (forall i :: 0 <= i < |ops| && ops[i].SetFault? ==>
          Settable(ops[i].f) && ops[i].f.Readable() && Worse(f, ops[i].f))
    && (forall i, j :: 0 <= i < j < |ops| && ops[i].SetFault? && ops[j].SetFault? ==> Worse(ops[i].f, ops[j].f))
  }

  predicate LogicalWrites(ops: seq<Op>) {
    forall i :: 0 <= i < |ops| && ops[i].WriteBlock? ==> ops[i].w.blockno < LOGICAL_DISK_SIZE
  }

  lemma {:induction false} FaultOfRun(s: State, ops: seq<Op>, g: Fault)
    requires FaultsOnlyAdded(s.fault, ops) && Settable(g)
    requires Worse(s.fault, g) && forall i :: 0 <= i < |ops| && ops[i].SetFault? ==> Worse(ops[i].f, g)
    ensures var f := Run(s, ops).fault; Settable(f) && f.Readable() && Worse(f, g)
  {
    if ops != [] {
      FaultOfRun(s, ops[..|ops| - 1], g);
    }
  }

  predicate Writes(op: Op, b: nat) {
    op.WriteBlock? && op.w.blockno == b
  }

  ghost predicate WrittenIn(ops: seq<Op>, b: nat) {
    exists i :: 0 <= i < |ops| && Writes(ops[i], b)
  }

  /** Whatever acceptable fault `g` adds to those of the run, the copy a reader is then directed to holds the
      last contents written to the block, if it was written in the run or its copies were equal at the start. */
  lemma {:induction false} AnyReaderSeesLastWrite(s: State, ops: seq<Op>, b: nat, g: Fault)
    requires |s.disk| == FSSIZE && b < LOGICAL_DISK_SIZE
    requires s.disk[b] == s.disk[b + DISK1_START_BLOCK] || WrittenIn(ops, b)
    requires FaultsOnlyAdded(s.fault, ops) && LogicalWrites(ops) && Settable(g) && g.Readable()
    requires Worse(s.fault, g) && forall i :: 0 <= i < |ops| && ops[i].SetFault? ==> Worse(ops[i].f, g)
    ensures Run(s, ops).disk[g.ReadCopy(b)] == LastWritten(ops, b, s.disk[b])
  {
    hide DiskWrites.Apply;
    if ops != [] {
      var rest, op := ops[..|ops| - 1], ops[|ops| - 1];
      if !Writes(op, b) {
        assert WrittenIn(ops, b) ==> WrittenIn(rest, b) by {
          if WrittenIn(ops, b) {
            var i :| 0 <= i < |ops| && Writes(ops[i], b);
            assert Writes(rest[i], b);
          }
        }
        AnyReaderSeesLastWrite(s, rest, b, g);
      }
      if op.WriteBlock? {
        var m := Run(s, rest);
        FaultOfRun(s, rest, g);
        WorseStillReaches(m.fault, g, op.w.blockno);
        CopyHolds(m.fault, g, m.disk, op.w);
      }
    }
  }

  /** Through any run of writes and added faults, a read of a block that was written in the run, or whose
      copies were equal at the start, returns what was last written to it. */
  lemma ReadReturnsLastWrite(s: State, ops: seq<Op>, b: nat)
    requires |s.disk| == FSSIZE && b < LOGICAL_DISK_SIZE
    requires s.disk[b] == s.disk[b + DISK1_START_BLOCK] || WrittenIn(ops, b)
    requires FaultsOnlyAdded(s.fault, ops) && LogicalWrites(ops)
    ensures var r := Run(s, ops); r.disk[r.fault.ReadCopy(b)] == LastWritten(ops, b, s.disk[b])
  {
    var g := Run(s, ops).fault;
    FaultIsLast(s, ops);
    AnyReaderSeesLastWrite(s, ops, b, g);
  }

  // ---- Runs in which faults come and go ----

  /** The data of the last write of block `b` that reached the copy a reader under `g` is directed to; what
      that copy held at the start if there was none. */
  function LastReaching(s: State, ops: seq<Op>, b: nat, g: Fault): DiskWrites.Block
    requires |s.disk| == FSSIZE && b < LOGICAL_DISK_SIZE
  {
    if ops == [] then s.disk[g.ReadCopy(b)]
    else
      var n := |ops| - 1;
      if Writes(ops[n], b) && Reaches(Run(s, ops[..n]).fault, g, b) then ops[n].w.data
      else LastReaching(s, ops[..n], b, g)
  }

  /** Through any run whatever, each copy holds the last contents that reached it. */
  lemma {:induction false} CopyHoldsLastReaching(s: State, ops: seq<Op>, b: nat, g: Fault)
    requires |s.disk| == FSSIZE && b < LOGICAL_DISK_SIZE && LogicalWrites(ops)
    ensures Run(s, ops).disk[g.ReadCopy(b)] == LastReaching(s, ops, b, g)
  {
    hide DiskWrites.Apply;
    if ops != [] {
      var n := |ops| - 1;
      CopyHoldsLastReaching(s, ops[..n], b, g);
      if ops[n].WriteBlock? {
        var m := Run(s, ops[..n]);
        CopyHolds(m.fault, g, m.disk, ops[n].w);
      }
    }
  }

  /** Exactly when, after any run in which faults come and go, a reader under any `g` gets what was last
      written to a block: when that last write, `ops[i]`, reached the copy he is directed to, or that copy
      happened to hold the data already. */
  lemma {:induction false} RunReadBackExactly(s: State, ops: seq<Op>, b: nat, g: Fault, i: nat)
    requires |s.disk| == FSSIZE && b < LOGICAL_DISK_SIZE && LogicalWrites(ops) && i < |ops| && Writes(ops[i], b)
    requires forall j :: i < j < |ops| ==> !Writes(ops[j], b)
    ensures LastWritten(ops, b, s.disk[b]) == ops[i].w.data
    ensures Run(s, ops).disk[g.ReadCopy(b)] == LastWritten(ops, b, s.disk[b])
            <==> Reaches(Run(s, ops[..i]).fault, g, b) || Run(s, ops[..i]).disk[g.ReadCopy(b)] == ops[i].w.data
  {
    hide DiskWrites.Apply;
    var n := |ops| - 1;
    var m := Run(s, ops[..n]);
    if ops[n].WriteBlock? {
      CopyHolds(m.fault, g, m.disk, ops[n].w);
    }
    if i < n {
      RunReadBackExactly(s, ops[..n], b, g, i);
      assert ops[..n][..i] == ops[..i];
    }
  }

  /** The fault a run ends with is no better than any it went through. */
  lemma {:induction false} FaultIsLast(s: State, ops: seq<Op>)
    requires FaultsOnlyAdded(s.fault, ops)
    ensures var g := Run(s, ops).fault;
            && Settable(g) && g.Readable() && Worse(s.fault, g)
            && forall i :: 0 <= i < |ops| && ops[i].SetFault? ==> Worse(ops[i].f, g)
  {
    if ops != [] {
      FaultIsLast(s, ops[..|ops| - 1]);
    }
  }

  /** Clearing a fault breaks the promise: a block written while disk 0 was failed reads stale
      once the failure is cleared, whatever the two contents were. */
  lemma ClearingAFaultReadsStale(d: seq<DiskWrites.Block>, b: nat, data: DiskWrites.Block)
    requires |d| == FSSIZE && b < LOGICAL_DISK_SIZE && d[b] != data
    ensures var r := Run(State(d, Fault(0, -1)), [WriteBlock(DiskWrites.Write(b, data)), SetFault(NO_FAULT)]);
            r.disk[r.fault.ReadCopy(b)] == d[b] != data
  {
    var w := DiskWrites.Write(b, data);
    var s := State(d, Fault(0, -1));
    var ops := [WriteBlock(w), SetFault(NO_FAULT)];
    assert ops[..1] == [WriteBlock(w)] && ops[..1][..0] == [];
    assert Run(s, ops[..1]) == Step(s, WriteBlock(w));
    CopyHolds(Fault(0, -1), NO_FAULT, d, w);
  }

  /** So does a bad block on disk 0 while disk 1 is failed: the write reaches no copy at all. */
  lemma BothCopiesLost(d: seq<DiskWrites.Block>, b: nat, data: DiskWrites.Block)
    requires |d| == FSSIZE && b < LOGICAL_DISK_SIZE
    ensures Step(State(d, Fault(1, b)), WriteBlock(DiskWrites.Write(b, data))).disk == d
    ensures !Fault(1, b).Readable()
  {
  }
}
