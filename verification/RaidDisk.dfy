/** The RAID-1 buffer layer: every logical block has a copy on disk 0 (at its own number) and a
    copy on disk 1 (DISK1_START_BLOCK later); two simulated faults redirect reads and suppress
    writes. */
module RaidDisk {
  import opened DiskWrites

  const FSSIZE: nat := 4096
  const LOGICAL_DISK_SIZE: nat := FSSIZE / 2
  const DISK1_START_BLOCK: nat := FSSIZE / 2

  /** The two fault settings; -1 means none. */
  datatype Fault = Fault(diskFail: int, readErrorPbn: int) {
    predicate Pbn0Fails(blockno: nat) {
      readErrorPbn != -1 && readErrorPbn == blockno
    }

    /** The copy a read that misses the cache is directed to. */
    function ReadCopy(blockno: nat): (pbn: nat)
    {
      if blockno < LOGICAL_DISK_SIZE && (diskFail == 0 || Pbn0Fails(blockno))
      then blockno + DISK1_START_BLOCK
      else blockno
    }

    /** The physical writes issued for one logical write, in order. */
    function CopiesWritten(w: Write): (ws: seq<Write>)
      ensures |ws| <= 2
    {
      var copy1 := Write(w.blockno + DISK1_START_BLOCK, w.data);
      if w.blockno >= LOGICAL_DISK_SIZE then [w]
      else if diskFail == 0 then [copy1]
      else if Pbn0Fails(w.blockno) then (if diskFail == 1 then [] else [copy1])
      else if diskFail == 1 then [w] else [w, copy1]
    }

    /** Copies of different blocks are different. */
    lemma OtherCopies(b: nat)
      ensures forall c: nat :: c < LOGICAL_DISK_SIZE && c != b && b < LOGICAL_DISK_SIZE ==>
                                 ReadCopy(c) < FSSIZE && ReadCopy(c) != b && ReadCopy(c) != b + DISK1_START_BLOCK
      ensures forall c: nat :: c < LOGICAL_DISK_SIZE ==> ReadCopy(c) < FSSIZE
    {
    }

    /** The faults under which no written block is left without a readable copy: the failure of
        disk 1 is not combined with a bad block on disk 0. */
    predicate Readable() {
      !(diskFail == 1 && 0 <= readErrorPbn < LOGICAL_DISK_SIZE)
    }
  }

  const NO_FAULT := Fault(-1, -1)

  /** The physical writes for a list of logical writes. */
  function Mirror(f: Fault, ws: seq<Write>): (ps: seq<Write>) {
    if ws == [] then [] else Mirror(f, ws[..|ws| - 1]) + f.CopiesWritten(ws[|ws| - 1])
  }

  /** The logical disk that a reader under fault `g` sees once its cache is empty. */
  function View(g: Fault, d: seq<Block>): (v: seq<Block>)
    requires |d| == FSSIZE
    ensures |v| == LOGICAL_DISK_SIZE
    ensures forall b :: 0 <= b < LOGICAL_DISK_SIZE ==> v[b] == d[g.ReadCopy(b)]
  {
    seq(LOGICAL_DISK_SIZE, b requires 0 <= b < LOGICAL_DISK_SIZE => d[g.ReadCopy(b)])
  }

  /** Writers under `f` reach, for this block, the copy that readers under `g` use. */
  predicate Reaches(f: Fault, g: Fault, blockno: nat) {
    if g.ReadCopy(blockno) == blockno
    then f.diskFail != 0 && !f.Pbn0Fails(blockno)
    else f.diskFail != 1
  }

  predicate ReachesAll(f: Fault, g: Fault, ws: seq<Write>) {
    forall i :: 0 <= i < |ws| ==> ws[i].blockno < LOGICAL_DISK_SIZE && Reaches(f, g, ws[i].blockno)
  }

  lemma MirrorPrefix(f: Fault, ws: seq<Write>, k: nat)
    requires k < |ws|
    ensures Mirror(f, ws[..k + 1]) == Mirror(f, ws[..k]) + f.CopiesWritten(ws[k])
  {
    assert ws[..k + 1][..k] == ws[..k];
  }

  lemma {:induction false} MirrorAppend(f: Fault, ws: seq<Write>, more: seq<Write>)
    ensures Mirror(f, ws + more) == Mirror(f, ws) + Mirror(f, more)
  {
    if more == [] {
      assert ws + more == ws;
    } else {
      var n := |more| - 1;
      assert (ws + more)[..|ws + more| - 1] == ws + more[..n];
      MirrorAppend(f, ws, more[..n]);
    }
  }

  /** A physical write outside the copies a view reads is invisible in it; one inside changes
      exactly its block. */
  lemma ViewOfPut(g: Fault, d: seq<Block>, b: nat, data: Block)
    requires |d| == FSSIZE && b < LOGICAL_DISK_SIZE
    ensures g.ReadCopy(b) == b ==>
              && View(g, Put(d, Write(b, data))) == Put(View(g, d), Write(b, data))
              && View(g, Put(d, Write(b + DISK1_START_BLOCK, data))) == View(g, d)
    ensures g.ReadCopy(b) != b ==>
              && View(g, Put(d, Write(b + DISK1_START_BLOCK, data))) == Put(View(g, d), Write(b, data))
              && View(g, Put(d, Write(b, data))) == View(g, d)
  {
  }

  lemma ViewOfBoth(g: Fault, d: seq<Block>, b: nat, data: Block)
    requires |d| == FSSIZE && b < LOGICAL_DISK_SIZE
    ensures var d1 := Put(d, Write(b, data));
            var v, v1 := View(g, d), Put(View(g, d), Write(b, data));
            View(g, d1) in {v, v1} && View(g, Put(d1, Write(b + DISK1_START_BLOCK, data))) == v1
  {
    ViewOfPut(g, d, b, data);
    ViewOfPut(g, Put(d, Write(b, data)), b, data);
  }

  lemma ViewOfTwoCopies(f: Fault, g: Fault, d: seq<Block>, w: Write)
    requires |d| == FSSIZE && w.blockno < LOGICAL_DISK_SIZE
    requires |f.CopiesWritten(w)| == 2
    ensures View(g, Apply(d, f.CopiesWritten(w))) == Put(View(g, d), w)
    ensures View(g, Apply(d, f.CopiesWritten(w)[..1])) in {View(g, d), Put(View(g, d), w)}
  {
    var p1 := Write(w.blockno + DISK1_START_BLOCK, w.data);
    var ps := f.CopiesWritten(w);
    assert ps == [w, p1] && ps[..1] == [w];
    ApplyFew(d, w, p1);
    ViewOfBoth(g, d, w.blockno, w.data);
  }

  lemma ViewOfOneCopy(f: Fault, g: Fault, d: seq<Block>, w: Write)
    requires |d| == FSSIZE && w.blockno < LOGICAL_DISK_SIZE && Reaches(f, g, w.blockno)
    requires |f.CopiesWritten(w)| != 2
    ensures View(g, Apply(d, f.CopiesWritten(w))) == Put(View(g, d), w)
  {
    var p1 := Write(w.blockno + DISK1_START_BLOCK, w.data);
    ViewOfPut(g, d, w.blockno, w.data);
    if g.ReadCopy(w.blockno) == w.blockno {
      assert f.CopiesWritten(w) == [w];
      ApplyFew(d, w, w);
    } else {
      assert f.CopiesWritten(w) == [p1];
      ApplyFew(d, p1, p1);
    }
  }

  /** The physical writes of one mirrored write are one atomic step for every view it reaches:
      a crash after any number `k` of them shows the old contents or the new, nothing else. */
  lemma CopiesAreOneStep(f: Fault, g: Fault, d: seq<Block>, w: Write, k: nat)
    requires |d| == FSSIZE && w.blockno < LOGICAL_DISK_SIZE && Reaches(f, g, w.blockno)
    requires k <= |f.CopiesWritten(w)|
    ensures View(g, Apply(d, f.CopiesWritten(w)[..k])) in {View(g, d), Put(View(g, d), w)}
    ensures View(g, Apply(d, f.CopiesWritten(w))) == Put(View(g, d), w)
  {
    var ps := f.CopiesWritten(w);
    if |ps| == 2 {
      ViewOfTwoCopies(f, g, d, w);
    } else {
      ViewOfOneCopy(f, g, d, w);
    }
    if k == |ps| {
      assert ps[..k] == ps;
    } else if k == 0 {
      assert ps[..k] == [];
    }
  }

  lemma {:induction false} MirrorWhole(f: Fault, g: Fault, d: seq<Block>, ws: seq<Write>)
    requires |d| == FSSIZE && ReachesAll(f, g, ws)
    ensures View(g, Apply(d, Mirror(f, ws))) == Apply(View(g, d), ws)
  {
    if ws != [] {
      var n := |ws| - 1;
      MirrorWhole(f, g, d, ws[..n]);
      ApplyAppend(d, Mirror(f, ws[..n]), f.CopiesWritten(ws[n]));
      CopiesAreOneStep(f, g, Apply(d, Mirror(f, ws[..n])), ws[n], 0);
    }
  }

  /** Crash refinement of the mirror: after any number `k` of the physical writes that the
      mirrored list issues, a reader sees the disk as some prefix of the logical list left it. */
  lemma {:induction false} MirrorCrash(f: Fault, g: Fault, d: seq<Block>, ws: seq<Write>, k: nat) returns (j: nat)
    requires |d| == FSSIZE && ReachesAll(f, g, ws) && k <= |Mirror(f, ws)|
    ensures j <= |ws|
    ensures View(g, Apply(d, Mirror(f, ws)[..k])) == Apply(View(g, d), ws[..j])
  {
    hide Apply, Put, View;
    if ws == [] {
      j := 0;
      var any := Write(0, Block([]));
      assert Mirror(f, ws)[..k] == [] && ws[..j] == [];
      ApplyFew(d, any, any);
      ApplyFew(View(g, d), any, any);
    } else {
      var n := |ws| - 1;
      var ps, last := Mirror(f, ws[..n]), f.CopiesWritten(ws[n]);
      if k <= |ps| {
        assert (ps + last)[..k] == ps[..k];
        j := MirrorCrash(f, g, d, ws[..n], k);
        assert ws[..n][..j] == ws[..j];
      } else {
        assert (ps + last)[..k] == ps + last[..k - |ps|];
        ApplyAppend(d, ps, last[..k - |ps|]);
        var d1 := Apply(d, ps);
        MirrorWhole(f, g, d, ws[..n]);
        CopiesAreOneStep(f, g, d1, ws[n], k - |ps|);
        ApplyPrefix(View(g, d), ws, n);
        j := if View(g, Apply(d1, last[..k - |ps|])) == View(g, d1) then n else n + 1;
      }
    }
  }

  /** A buffer as the disk driver receives it: the block number it is to be transferred to or
      from, and its data. */
  datatype Buf = Buf(blockno: nat, data: Block)

  /** The buffer cache over the two disks. `issued` lists the physical writes since `initial`. */
  class BufferedRaid {
    var disk: seq<Block>
    var fault: Fault
    var cache: map<nat, Block>
    var pinned: set<nat>
    ghost const initial: seq<Block>
    ghost var issued: seq<Write>

    ghost predicate Valid()
      reads this
    {
      && |initial| == FSSIZE
      && disk == Apply(initial, issued)
      && (forall b :: b in cache ==> b < FSSIZE)
    }

    /** Only pinned buffers may differ from the copy a read would fetch. */
    ghost predicate Clean()
      requires Valid()
      reads this
    {
      && pinned <= cache.Keys
      && (forall b :: b in cache && b !in pinned ==> b < LOGICAL_DISK_SIZE && cache[b] == disk[fault.ReadCopy(b)])
    }

    /** The buffer of block `b` is cached and equals the copy a read would fetch. */
    ghost predicate Synced(b: nat)
      requires Valid()
      reads this
    {
      b < LOGICAL_DISK_SIZE && b in cache && cache[b] == disk[fault.ReadCopy(b)]
    }

    /** What a caller of bread sees, block by block. */
    ghost function Seen(): (s: seq<Block>)
      requires Valid()
      reads this
      ensures |s| == LOGICAL_DISK_SIZE
    {
      seq(LOGICAL_DISK_SIZE, b requires 0 <= b < LOGICAL_DISK_SIZE && Valid() reads this =>
        if b in cache then cache[b] else disk[fault.ReadCopy(b)])
    }

    constructor (d: seq<Block>, f: Fault)
      requires |d| == FSSIZE
      ensures Valid() && Clean() && disk == d && fault == f && cache == map[] && pinned == {}
      ensures issued == [] && Seen() == View(f, d)
    {
      disk, initial, fault := d, d, f;
      cache, pinned, issued := map[], {}, [];
    }

    /** Transfer one buffer between memory and the physical block it names. */
    method VirtioDiskRw(b: Buf, write: bool) returns (r: Buf)
      requires Valid() && b.blockno < FSSIZE
      modifies this`disk, this`issued
      ensures Valid()
      ensures write ==> disk == old(disk)[b.blockno := b.data]
      ensures write ==> r == b && issued == old(issued) + [Write(b.blockno, b.data)]
      ensures !write ==> disk == old(disk)
      ensures !write ==> r == b.(data := disk[b.blockno]) && issued == old(issued)
    {
      if write {
        disk := disk[b.blockno := b.data];
        ghost var w := Write(b.blockno, b.data);
        ApplyAppend(initial, issued, [w]);
        ApplyFew(Apply(initial, issued), w, w);
        issued := issued + [w];
        r := b;
      } else {
        r := b.(data := disk[b.blockno]);
      }
    }

    /** Read a block through the cache; any unpinned buffers may have been recycled before. */
    method Bread(blockno: nat) returns (data: Block)
      requires Valid() && Clean() && blockno < LOGICAL_DISK_SIZE
      modifies this`disk, this`issued, this`cache
      ensures Valid() && Clean() && Seen() == old(Seen())
      ensures disk == old(disk) && issued == old(issued)
      ensures data == Seen()[blockno] && blockno in cache
    {
      var recycled: set<nat> :| recycled <= cache.Keys && recycled !! pinned;
      cache := cache - recycled;
      if blockno in cache {
        data := cache[blockno];
      } else {
        var useMirror := false;
        if blockno < LOGICAL_DISK_SIZE {
          var pbn0 := blockno;
          if fault.diskFail == 0 || (fault.readErrorPbn != -1 && fault.readErrorPbn == pbn0) {
            useMirror := true;
          }
        }
        var b := Buf(blockno, Block([]));
        var originalBlockno := b.blockno;
        if useMirror {
          b := b.(blockno := blockno + DISK1_START_BLOCK);
        } else {
          b := b.(blockno := blockno);
        }
        b := VirtioDiskRw(b, false);
        b := b.(blockno := originalBlockno);
        cache := cache[b.blockno := b.data];
        data := b.data;
      }
      assert forall k :: 0 <= k < LOGICAL_DISK_SIZE ==> Seen()[k] == old(Seen())[k];
    }

    /** Issue the physical writes of one buffer, rewriting its block number for each copy. */
    method WriteCopies(buf: Buf)
      requires Valid() && buf.blockno < FSSIZE
      modifies this`disk, this`issued
      ensures Valid()
      ensures issued == old(issued) + fault.CopiesWritten(Write(buf.blockno, buf.data))
      ensures forall p :: 0 <= p < FSSIZE && p != buf.blockno && p != buf.blockno + DISK1_START_BLOCK ==>
                            disk[p] == old(disk[p])
      ensures buf.blockno < LOGICAL_DISK_SIZE && Reaches(fault, fault, buf.blockno) ==>
                disk[fault.ReadCopy(buf.blockno)] == buf.data
    {
      var b := buf;
      if b.blockno >= LOGICAL_DISK_SIZE {
        b := VirtioDiskRw(b, true);
        return;
      }
      var pbn0 := b.blockno;
      var pbn1 := pbn0 + DISK1_START_BLOCK;
      var failDisk := fault.diskFail;
      var pbn0Fail := fault.readErrorPbn != -1 && fault.readErrorPbn == pbn0;
      var originalBlockno := b.blockno;
      if failDisk != 0 && !pbn0Fail {
        b := b.(blockno := pbn0);
        b := VirtioDiskRw(b, true);
      }
      if failDisk != 1 {
        b := b.(blockno := pbn1);
        b := VirtioDiskRw(b, true);
      }
      b := b.(blockno := originalBlockno);
    }

    /** Write a buffer to every copy the faults leave reachable. */
    method Bwrite(blockno: nat, data: Block)
      requires Valid() && blockno < FSSIZE
      modifies this`disk, this`issued, this`cache
      ensures Valid()
      ensures issued == old(issued) + fault.CopiesWritten(Write(blockno, data))
      ensures cache == old(cache)[blockno := data]
      ensures blockno < LOGICAL_DISK_SIZE ==> Seen() == Put(old(Seen()), Write(blockno, data))
      ensures old(Clean()) && blockno < LOGICAL_DISK_SIZE && Reaches(fault, fault, blockno) ==>
                Clean() && Synced(blockno)
    {
      hide Fault.CopiesWritten, Reaches, Apply;
      fault.OtherCopies(blockno);
      cache := cache[blockno := data];
      WriteCopies(Buf(blockno, data));
      ghost var seen := old(Seen());
      assert blockno < LOGICAL_DISK_SIZE ==> forall c :: 0 <= c < LOGICAL_DISK_SIZE && c != blockno ==> Seen()[c] == seen[c];
    }

    /** Drop the pin of a buffer that has reached the disk. */
    method Bunpin(blockno: nat)
      requires Valid() && Clean() && Synced(blockno)
      modifies this`pinned
      ensures Valid() && Clean() && pinned == old(pinned) - {blockno}
    {
      pinned := pinned - {blockno};
    }
  }
}
