/** The physical redo log over the mirrored buffer layer: the block writes that commit and
    recovery issue, as data, and the methods that issue them. */
module RedoLog {
  import opened DiskWrites
  import opened RaidDisk

  const MAXOPBLOCKS: nat := 10
  const LOGSIZE: nat := MAXOPBLOCKS * 3

  // ---- The on-disk header: word 0 counts the logged blocks, the next words name them. ----

  predicate IsHeader(b: Block) {
    |b.words| == WORDS_PER_BLOCK && 0 <= b.words[0] <= LOGSIZE
  }

  function HeaderBlocks(b: Block): (lh: seq<int>)
    requires IsHeader(b)
    ensures |lh| == b.words[0]
  {
    b.words[1..1 + b.words[0]]
  }

  /** The header block rewritten to name `lh`; words past the list keep their old values. */
  function HeaderFor(b: Block, lh: seq<int>): (h: Block)
    requires |b.words| == WORDS_PER_BLOCK && |lh| <= LOGSIZE
    ensures IsHeader(h) && HeaderBlocks(h) == lh
  {
    Block([|lh|] + lh + b.words[1 + |lh|..])
  }

  // ---- Disk layout ----

  /** The blocks that the superblock sets aside for the log: the header block `start`, and after it
      room for `size - 1` logged blocks; of a logical disk of `blocks` blocks. */
  datatype Area = Area(start: nat, size: nat, blocks: nat)

  /** The logical disk is one half of a mirrored one. */
  predicate Mirrored(area: Area) {
    area.blocks == LOGICAL_DISK_SIZE
  }

  predicate InLog(area: Area, b: int) {
    area.start <= b < area.start + area.size
  }

  predicate Layout(area: Area) {
    1 <= area.size && area.start + area.size <= area.blocks
  }

  predicate Home(area: Area, b: int) {
    0 <= b < area.blocks && !InLog(area, b)
  }

  /** What `log_write` panics on: the header or the log area has no room for another block. */
  predicate TooBig(area: Area, logged: nat) {
    logged >= LOGSIZE || logged >= area.size - 1
  }

  predicate Loggable(area: Area, lh: seq<int>) {
    |lh| <= LOGSIZE && |lh| < area.size && forall i :: 0 <= i < |lh| ==> Home(area, lh[i])
  }

  /** Log absorption keeps the block numbers of a transaction distinct. */
  predicate Distinct(lh: seq<int>) {
    forall i, j :: 0 <= i < j < |lh| ==> lh[i] != lh[j]
  }

  /** A logical disk whose header names home blocks only. */
  predicate GoodLog(area: Area, v: seq<Block>) {
    && |v| == area.blocks
    && Layout(area)
    && IsHeader(v[area.start])
    && Loggable(area, HeaderBlocks(v[area.start]))
  }

  function LogCount(area: Area, v: seq<Block>): (n: nat)
    requires GoodLog(area, v)
  {
    v[area.start].words[0]
  }

  // ---- The logical writes of each phase. ----

  function LogWrites(area: Area, data: seq<Block>): (ws: seq<Write>)
    ensures |ws| == |data|
  {
    seq(|data|, i requires 0 <= i < |data| => Write(area.start + i + 1, data[i]))
  }

  function HomeWrites(area: Area, lh: seq<int>, data: seq<Block>): (ws: seq<Write>)
    requires |lh| == |data| && Loggable(area, lh)
    ensures |ws| == |lh|
  {
    seq(|lh|, i requires 0 <= i < |lh| => Write(lh[i], data[i]))
  }

  lemma CommitLength(area: Area, header: Block, lh: seq<int>, data: seq<Block>)
    requires |header.words| == WORDS_PER_BLOCK && |lh| == |data| && Loggable(area, lh)
    ensures |CommitWrites(area, header, lh, data)| == if lh == [] then 0 else 2 * |lh| + 2
  {
  }

  /** What commit writes: log blocks, header, home blocks, cleared header. */
  function CommitWrites(area: Area, header: Block, lh: seq<int>, data: seq<Block>): (ws: seq<Write>)
    requires |header.words| == WORDS_PER_BLOCK && |lh| == |data| && Loggable(area, lh)
  {
    if lh == [] then [] else
      var h := HeaderFor(header, lh);
      LogWrites(area, data) + [Write(area.start, h)] + HomeWrites(area, lh, data) + [Write(area.start, HeaderFor(h, []))]
  }

  /** The logged contents that a header on disk promises. */
  function LoggedData(area: Area, v: seq<Block>): (data: seq<Block>)
    requires GoodLog(area, v)
    ensures |data| == LogCount(area, v)
  {
    v[area.start + 1..area.start + 1 + LogCount(area, v)]
  }

  function InstallWrites(area: Area, v: seq<Block>): (ws: seq<Write>)
    requires GoodLog(area, v)
  {
    HomeWrites(area, HeaderBlocks(v[area.start]), LoggedData(area, v))
  }

  /** What recovery writes on a disk that it sees as `v`. */
  function RecoverWrites(area: Area, v: seq<Block>): (ws: seq<Write>)
    requires GoodLog(area, v)
  {
    InstallWrites(area, v) + [Write(area.start, HeaderFor(v[area.start], []))]
  }

  /** The file-system contents that recovery promises for a disk seen as `v`. */
  function Replay(area: Area, v: seq<Block>): (r: seq<Block>)
    requires GoodLog(area, v)
    ensures |r| == area.blocks
  {
    Apply(v, InstallWrites(area, v))
  }

  /** What a disk promises depends on its log area alone. */
  lemma SameLogArea(area: Area, v: seq<Block>, w: seq<Block>)
    requires GoodLog(area, v) && |w| == |v| && forall b :: InLog(area, b) ==> w[b] == v[b]
    ensures GoodLog(area, w) && w[area.start] == v[area.start]
    ensures LoggedData(area, w) == LoggedData(area, v) && InstallWrites(area, w) == InstallWrites(area, v)
  {
    assert InLog(area, area.start);
    var n := LogCount(area, v);
    var there, here := v[area.start + 1..area.start + 1 + n], w[area.start + 1..area.start + 1 + n];
    forall i | 0 <= i < n ensures here[i] == there[i] {
      assert InLog(area, area.start + 1 + i);
    }
  }

  /** Equal outside the log area. */
  predicate SameFiles(area: Area, v: seq<Block>, w: seq<Block>) {
    |v| == |w| == area.blocks && forall b :: 0 <= b < area.blocks && Home(area, b) ==> v[b] == w[b]
  }

  lemma {:induction false} LogWritesKeepHome(area: Area, v: seq<Block>, data: seq<Block>)
    requires |v| == area.blocks && Layout(area) && |data| < area.size
    ensures var w := Apply(v, LogWrites(area, data));
            SameFiles(area, v, w) && w[area.start] == v[area.start] && w[area.start + 1..area.start + 1 + |data|] == data
  {
    var ws := LogWrites(area, data);
    if data != [] {
      var n := |data| - 1;
      var ws' := LogWrites(area, data[..n]);
      LogWritesKeepHome(area, v, data[..n]);
      assert ws[..n] == ws' && ws[..n + 1] == ws;
      ApplyPrefix(v, ws, n);
      var u, w := Apply(v, ws'), Apply(v, ws);
      assert w == u[area.start + n + 1 := data[n]] by {
        hide Apply;
      }
      LogSlice(u, area.start, data[n], n);
      assert data == data[..n] + [data[n]];
    }
  }

  lemma LogSlice(u: seq<Block>, start: nat, b: Block, n: nat)
    requires start + n + 1 < |u|
    ensures u[start + n + 1 := b][start + 1..start + 1 + n + 1] == u[start + 1..start + 1 + n] + [b]
  {
  }

  /** Writes to home blocks leave the log area alone. */
  lemma {:induction false} HomeWritesKeepLog(area: Area, v: seq<Block>, ws: seq<Write>, b: nat)
    requires |v| == area.blocks && InLog(area, b) && b < area.blocks
    requires forall i :: 0 <= i < |ws| ==> Home(area, ws[i].blockno)
    ensures Apply(v, ws)[b] == v[b]
  {
    ApplyAt(v, v, ws, b);
  }

  /** While logged blocks are being installed, the next one is still in the log. */
  lemma NextInstall(area: Area, v: seq<Block>, lh: seq<int>, k: nat)
    requires |v| == area.blocks && Layout(area) && Loggable(area, lh) && k < |lh|
    ensures var ws := HomeWrites(area, lh, v[area.start + 1..area.start + 1 + |lh|]);
            && ws[k] == Write(lh[k], v[area.start + k + 1])
            && Apply(v, ws[..k])[area.start + k + 1] == v[area.start + k + 1]
  {
    hide Apply;
    var data := v[area.start + 1..area.start + 1 + |lh|];
    var ws := HomeWrites(area, lh, data);
    assert data[k] == v[area.start + 1 + k] && area.start + 1 + k == area.start + k + 1;
    HomeWritesKeepLog(area, v, ws[..k], area.start + k + 1);
  }

  lemma LogPrefixKeepsHome(area: Area, v: seq<Block>, data: seq<Block>, k: nat)
    requires |v| == area.blocks && Layout(area) && k <= |data| < area.size
    ensures SameFiles(area, v, Apply(v, LogWrites(area, data)[..k]))
    ensures Apply(v, LogWrites(area, data)[..k])[area.start] == v[area.start]
  {
    assert LogWrites(area, data)[..k] == LogWrites(area, data[..k]);
    LogWritesKeepHome(area, v, data[..k]);
  }

  lemma NoWrites(f: Fault, v: seq<Block>)
    ensures Mirror(f, []) == [] && Apply(v, []) == v
  {
  }

  lemma MirrorOne(f: Fault, w: Write)
    ensures Mirror(f, [w]) == f.CopiesWritten(w)
  {
    assert [w][..0] == [];
  }

  /** One more write of a list, in both the physical and the logical reading. */
  lemma OneMore(f: Fault, v: seq<Block>, ws: seq<Write>, k: nat)
    requires k < |ws|
    ensures Mirror(f, ws[..k + 1]) == Mirror(f, ws[..k]) + Mirror(f, [ws[k]])
    ensures Apply(v, ws[..k + 1]) == Apply(Apply(v, ws[..k]), [ws[k]])
  {
    assert ws[..k + 1] == ws[..k] + [ws[k]];
    MirrorAppend(f, ws[..k], [ws[k]]);
    ApplyAppend(v, ws[..k], [ws[k]]);
  }

  lemma Sequel(f: Fault, v: seq<Block>, ws: seq<Write>, more: seq<Write>)
    ensures Mirror(f, ws + more) == Mirror(f, ws) + Mirror(f, more)
    ensures Apply(v, ws + more) == Apply(Apply(v, ws), more)
  {
    MirrorAppend(f, ws, more);
    ApplyAppend(v, ws, more);
  }

  function BlockSet(lh: seq<int>): set<int> {
    set b | b in lh
  }

  lemma NoBlocks()
    ensures BlockSet([]) == {}
  {
  }

  lemma OneMoreBlock(lh: seq<int>, k: nat)
    requires k < |lh|
    ensures BlockSet(lh[..k + 1]) == BlockSet(lh[..k]) + {lh[k]}
  {
    assert lh[..k + 1] == lh[..k] + [lh[k]];
  }

  lemma EmptyCommit(area: Area, header: Block)
    requires |header.words| == WORDS_PER_BLOCK && Layout(area)
    ensures CommitWrites(area, header, [], []) == []
  {
  }

  /** The disk between the phases of a commit. */
  lemma CommitStages(f: Fault, area: Area, v: seq<Block>, lh: seq<int>, data: seq<Block>)
    requires |v| == area.blocks && Layout(area) && |v[area.start].words| == WORDS_PER_BLOCK
    requires |lh| == |data| > 0 && Loggable(area, lh)
    ensures var h := HeaderFor(v[area.start], lh);
            var logw, headw, homew, clearw := LogWrites(area, data), [Write(area.start, h)],
                HomeWrites(area, lh, data), [Write(area.start, HeaderFor(h, []))];
            var v1 := Apply(v, logw);
            var v2 := Apply(v1, headw);
            var v3 := Apply(v2, homew);
            && v1[area.start] == v[area.start]
            && v2[area.start] == h && v2[area.start + 1..area.start + 1 + |lh|] == data
            && v3[area.start] == h
            && SameFiles(area, v, v2)
            && Apply(v, CommitWrites(area, v[area.start], lh, data)) == Apply(v3, clearw)
            && Mirror(f, CommitWrites(area, v[area.start], lh, data))
               == Mirror(f, logw) + Mirror(f, headw) + Mirror(f, homew) + Mirror(f, clearw)
  {
    hide Apply, Mirror, HeaderFor, LogWrites;
    var h := HeaderFor(v[area.start], lh);
    var logw, headw, homew, clearw := LogWrites(area, data), [Write(area.start, h)],
        HomeWrites(area, lh, data), [Write(area.start, HeaderFor(h, []))];
    LogWritesKeepHome(area, v, data);
    var v1 := Apply(v, logw);
    ApplyFew(v1, headw[0], headw[0]);
    var v2 := Apply(v1, headw);
    assert v2 == v1[area.start := h];
    HomeWritesKeepLog(area, v2, homew, area.start);
    Sequel(f, v, logw, headw);
    Sequel(f, v, logw + headw, homew);
    Sequel(f, v, logw + headw + homew, clearw);
  }

  lemma RecoverStages(f: Fault, area: Area, v: seq<Block>)
    requires GoodLog(area, v)
    ensures var homew, clearw := InstallWrites(area, v), [Write(area.start, HeaderFor(v[area.start], []))];
            var w := Apply(v, homew);
            && w[area.start] == v[area.start]
            && Apply(v, RecoverWrites(area, v)) == Apply(w, clearw)
            && Mirror(f, RecoverWrites(area, v)) == Mirror(f, homew) + Mirror(f, clearw)
  {
    var homew, clearw := InstallWrites(area, v), [Write(area.start, HeaderFor(v[area.start], []))];
    HomeWritesKeepLog(area, v, homew, area.start);
    Sequel(f, v, homew, clearw);
  }

  // ---- Blocks of which a reader sees what a writer writes, under the same faults ----

  predicate SlotReached(area: Area, f: Fault, i: nat) {
    Reaches(f, f, area.start + i + 1)
  }

  predicate LogReached(area: Area, f: Fault, n: nat) {
    forall i :: 0 <= i < n ==> SlotReached(area, f, i)
  }

  predicate HomeReached(f: Fault, lh: seq<int>) {
    forall i :: 0 <= i < |lh| ==> lh[i] >= 0 && Reaches(f, f, lh[i])
  }

  /** Under these, a commit reaches itself exactly if it reaches the blocks it names. */
  lemma CommitReachesItself(area: Area, f: Fault, header: Block, lh: seq<int>, data: seq<Block>)
    requires |header.words| == WORDS_PER_BLOCK && |lh| == |data| > 0 && Loggable(area, lh) && Layout(area) && Mirrored(area)
    ensures ReachesAll(f, f, CommitWrites(area, header, lh, data))
            <==> LogReached(area, f, |lh|) && Reaches(f, f, area.start) && HomeReached(f, lh)
  {
    hide Reaches, HeaderFor;
    var ws, n := CommitWrites(area, header, lh, data), |lh|;
    assert ws[n] == Write(area.start, HeaderFor(header, lh));
    if ReachesAll(f, f, ws) {
      forall i | 0 <= i < n ensures SlotReached(area, f, i) && lh[i] >= 0 && Reaches(f, f, lh[i]) {
        assert ws[i] == LogWrites(area, data)[i];
        assert ws[n + 1 + i] == HomeWrites(area, lh, data)[i];
      }
    }
    if LogReached(area, f, n) && Reaches(f, f, area.start) && HomeReached(f, lh) {
      forall i | 0 <= i < |ws| ensures ws[i].blockno < LOGICAL_DISK_SIZE && Reaches(f, f, ws[i].blockno) {
        if i < n {
          assert SlotReached(area, f, i) && ws[i] == LogWrites(area, data)[i];
        } else if n < i <= 2 * n {
          assert ws[i] == HomeWrites(area, lh, data)[i - n - 1];
        }
      }
    }
  }

  /** The in-memory log. `lh` holds the block numbers of the current transaction. */
  class Log {
    const area: Area
    const raid: BufferedRaid
    var lh: seq<int>

    ghost predicate Valid()
      reads this, raid
    {
      && raid.Valid() && raid.Clean()
      && Layout(area) && Mirrored(area)
      && Loggable(area, lh)
      && |raid.Seen()[area.start].words| == WORDS_PER_BLOCK
      && (forall b :: b in raid.pinned ==> Home(area, b))
    }

    /** The transaction's blocks as the cache holds them. */
    ghost function Pending(): (data: seq<Block>)
      requires Valid()
      reads this, raid
      ensures |data| == |lh|
    {
      seq(|lh|, i requires 0 <= i < |lh| && Valid() reads this, raid => raid.Seen()[lh[i]])
    }

    constructor (raid: BufferedRaid, area: Area)
      requires raid.Valid() && raid.Clean() && Layout(area) && Mirrored(area) && raid.pinned == {}
      requires |raid.Seen()[area.start].words| == WORDS_PER_BLOCK
      ensures Valid() && lh == [] && this.raid == raid && this.area == area
    {
      this.raid, this.area, lh := raid, area, [];
    }

    /** Record a modified block in the transaction, absorbing repeated writes, and pin it; `false`
        stands for the panic on a full log, which comes before the search for the block. Nothing
        reaches the disk. */
    method LogWrite(blockno: nat, data: Block) returns (ok: bool)
      requires Valid() && Home(area, blockno) && blockno in raid.cache
      modifies this, raid
      ensures Valid()
      ensures ok == !TooBig(area, |old(lh)|)
      ensures !ok ==> lh == old(lh) && raid.pinned == old(raid.pinned) && raid.Seen() == old(raid.Seen())
      ensures ok ==> lh == if blockno in old(lh) then old(lh) else old(lh) + [blockno]
      ensures ok ==> raid.pinned == old(raid.pinned) + {blockno}
      ensures ok ==> raid.Seen() == old(raid.Seen())[blockno := data]
      ensures raid.issued == old(raid.issued) && raid.fault == old(raid.fault)
      ensures Distinct(old(lh)) ==> Distinct(lh)
    {
      if TooBig(area, |lh|) {
        return false;
      }
      ok := true;
      raid.cache := raid.cache[blockno := data];
      var i := 0;
      while i < |lh| && lh[i] != blockno
        invariant 0 <= i <= |lh|
        invariant blockno !in lh[..i]
      {
        i := i + 1;
      }
      if i == |lh| {
        assert lh[..i] == lh;
        lh := lh + [blockno];
      } else {
        lh := lh[i := blockno];
      }
      raid.pinned := raid.pinned + {blockno};
    }

    /** Write one logical block; the physical writes are its mirrored copies. */
    method WriteBlock(blockno: nat, data: Block)
      requires Valid() && blockno < LOGICAL_DISK_SIZE && Reaches(raid.fault, raid.fault, blockno)
      requires blockno == area.start ==> |data.words| == WORDS_PER_BLOCK
      modifies raid
      ensures Valid()
      ensures raid.fault == old(raid.fault) && raid.pinned == old(raid.pinned)
      ensures raid.Synced(blockno)
      ensures raid.issued == old(raid.issued) + Mirror(raid.fault, [Write(blockno, data)])
      ensures raid.Seen() == Apply(old(raid.Seen()), [Write(blockno, data)])
    {
      hide Mirror, Apply, Reaches, Fault.CopiesWritten, BufferedRaid.Seen, BufferedRaid.Clean;
      var w := Write(blockno, data);
      MirrorOne(raid.fault, w);
      raid.Bwrite(blockno, data);
      ApplyFew(old(raid.Seen()), w, w);
    }

    /** Copy the contents of block `source` to block `target` and write it. */
    method CopyBlock(target: nat, source: nat)
      requires Valid() && target < LOGICAL_DISK_SIZE && source < LOGICAL_DISK_SIZE && target != area.start
      requires Reaches(raid.fault, raid.fault, target)
      modifies raid
      ensures Valid()
      ensures raid.fault == old(raid.fault) && raid.pinned == old(raid.pinned)
      ensures raid.Synced(target)
      ensures var ws := [Write(target, old(raid.Seen()[source]))];
              && raid.issued == old(raid.issued) + Mirror(raid.fault, ws)
              && raid.Seen() == Apply(old(raid.Seen()), ws)
    {
      var to := raid.Bread(target);
      var from := raid.Bread(source);
      to := from;
      WriteBlock(target, to);
    }

    method WriteOne(tail: nat)
      requires Valid() && tail < |lh| && SlotReached(area, raid.fault, tail)
      modifies raid
      ensures Valid()
      ensures raid.fault == old(raid.fault) && raid.pinned == old(raid.pinned)
      ensures var ws := [Write(area.start + tail + 1, old(raid.Seen()[lh[tail]]))];
              && raid.issued == old(raid.issued) + Mirror(raid.fault, ws)
              && raid.Seen() == Apply(old(raid.Seen()), ws)
    {
      hide Apply, Mirror;
      CopyBlock(area.start + tail + 1, lh[tail]);
    }

    /** Copy the transaction's blocks from the cache to the log area. */
    method WriteLog()
      requires Valid() && LogReached(area, raid.fault, |lh|)
      modifies raid
      ensures Valid()
      ensures raid.fault == old(raid.fault) && raid.pinned == old(raid.pinned)
      ensures raid.issued == old(raid.issued) + Mirror(raid.fault, LogWrites(area, old(Pending())))
      ensures raid.Seen() == Apply(old(raid.Seen()), LogWrites(area, old(Pending())))
    {
      hide Apply, Mirror, BufferedRaid.Valid, BufferedRaid.Clean, BufferedRaid.Seen;
      ghost var data, seen := Pending(), raid.Seen();
      ghost var ws := LogWrites(area, data);
      NoWrites(raid.fault, seen);
      var tail := 0;
      while tail < |lh|
        invariant 0 <= tail <= |lh|
        invariant Valid()
        invariant raid.fault == old(raid.fault) && raid.pinned == old(raid.pinned)
        invariant raid.issued == old(raid.issued) + Mirror(raid.fault, ws[..tail])
        invariant raid.Seen() == Apply(seen, ws[..tail])
      {
        LogPrefixKeepsHome(area, seen, data, tail);
        WriteOne(tail);
        OneMore(raid.fault, seen, ws, tail);
        tail := tail + 1;
      }
      assert ws[..|lh|] == ws;
    }

    /** Write the in-memory header to the header block: the true commit point. */
    method WriteHead()
      requires Valid() && Reaches(raid.fault, raid.fault, area.start)
      modifies raid
      ensures Valid()
      ensures raid.fault == old(raid.fault) && raid.pinned == old(raid.pinned)
      ensures var ws := [Write(area.start, HeaderFor(old(raid.Seen()[area.start]), lh))];
              && raid.issued == old(raid.issued) + Mirror(raid.fault, ws)
              && raid.Seen() == Apply(old(raid.Seen()), ws)
    {
      hide Mirror, Apply, HeaderFor, Reaches, BufferedRaid.Valid, BufferedRaid.Clean, BufferedRaid.Seen;
      var buf := raid.Bread(area.start);
      var filled := FillHeader(buf);
      WriteBlock(area.start, filled);
    }

    /** The header block with the count and the block numbers of the transaction filled in. */
    method FillHeader(buf: Block) returns (filled: Block)
      requires |buf.words| == WORDS_PER_BLOCK && |lh| <= LOGSIZE
      ensures filled == HeaderFor(buf, lh)
    {
      var words := buf.words;
      words := words[0 := |lh|];
      var i := 0;
      while i < |lh|
        invariant 0 <= i <= |lh|
        invariant |words| == WORDS_PER_BLOCK
        invariant words == [|lh|] + lh[..i] + buf.words[1 + i..]
      {
        words := words[i + 1 := lh[i]];
        i := i + 1;
      }
      assert lh[..|lh|] == lh;
      filled := Block(words);
    }

    /** Read the header block into memory. */
    method ReadHead()
      requires Valid() && GoodLog(area, raid.Seen())
      modifies this`lh, raid`cache, raid`disk, raid`issued
      ensures Valid()
      ensures raid.issued == old(raid.issued) && raid.Seen() == old(raid.Seen())
      ensures lh == HeaderBlocks(old(raid.Seen())[area.start])
    {
      var buf := raid.Bread(area.start);
      var n := buf.words[0];
      var blocks: seq<int> := [];
      var i := 0;
      while i < n
        invariant 0 <= i <= n
        invariant blocks == buf.words[1..1 + i]
      {
        blocks := blocks + [buf.words[i + 1]];
        i := i + 1;
      }
      lh := blocks;
    }

    method InstallOne(tail: nat)
      requires Valid() && tail < |lh| && Reaches(raid.fault, raid.fault, lh[tail])
      modifies raid
      ensures Valid()
      ensures raid.fault == old(raid.fault) && raid.pinned == old(raid.pinned) - {lh[tail]}
      ensures var ws := [Write(lh[tail], old(raid.Seen()[area.start + tail + 1]))];
              && raid.issued == old(raid.issued) + Mirror(raid.fault, ws)
              && raid.Seen() == Apply(old(raid.Seen()), ws)
    {
      hide Apply, Mirror;
      CopyBlock(lh[tail], area.start + tail + 1);
      raid.Bunpin(lh[tail]);
    }

    /** Copy the logged blocks to their home locations and unpin them. */
    method InstallTrans()
      requires Valid() && HomeReached(raid.fault, lh)
      modifies raid
      ensures Valid()
      ensures raid.fault == old(raid.fault)
      ensures raid.pinned == old(raid.pinned) - BlockSet(lh)
      ensures var ws := HomeWrites(area, lh, old(raid.Seen()[area.start + 1..area.start + 1 + |lh|]));
              && raid.issued == old(raid.issued) + Mirror(raid.fault, ws)
              && raid.Seen() == Apply(old(raid.Seen()), ws)
    {
      hide Apply, Mirror, HomeWrites, BlockSet, BufferedRaid.Valid, BufferedRaid.Clean, BufferedRaid.Seen;
      ghost var seen := raid.Seen();
      ghost var data := seen[area.start + 1..area.start + 1 + |lh|];
      ghost var ws := HomeWrites(area, lh, data);
      NoWrites(raid.fault, seen);
      NoBlocks();
      var tail := 0;
      while tail < |lh|
        invariant 0 <= tail <= |lh|
        invariant Valid()
        invariant raid.fault == old(raid.fault)
        invariant raid.pinned == old(raid.pinned) - BlockSet(lh[..tail])
        invariant raid.issued == old(raid.issued) + Mirror(raid.fault, ws[..tail])
        invariant raid.Seen() == Apply(seen, ws[..tail])
      {
        NextInstall(area, seen, lh, tail);
        InstallOne(tail);
        OneMore(raid.fault, seen, ws, tail);
        OneMoreBlock(lh, tail);
        tail := tail + 1;
      }
      assert ws[..|lh|] == ws && lh[..|lh|] == lh;
    }

    /** Commit the transaction, if there is one. Of the fault settings it asks that reads would find what is
        written to the blocks of this transaction; other blocks may be out of reach. */
    method Commit()
      requires Valid()
      requires lh != [] ==> LogReached(area, raid.fault, |lh|) && Reaches(raid.fault, raid.fault, area.start)
                            && HomeReached(raid.fault, lh)
      modifies this, raid
      ensures Valid() && lh == []
      ensures raid.fault == old(raid.fault)
      ensures raid.pinned == old(raid.pinned) - BlockSet(old(lh))
      ensures var ws := CommitWrites(area, old(raid.Seen()[area.start]), old(lh), old(Pending()));
              && raid.issued == old(raid.issued) + Mirror(raid.fault, ws)
              && raid.Seen() == Apply(old(raid.Seen()), ws)
    {
      hide Apply, Mirror, HeaderFor, HomeWrites, LogWrites, CommitWrites, HeaderBlocks, SameFiles, Reaches, BlockSet,
        BufferedRaid.Valid, BufferedRaid.Clean, BufferedRaid.Seen;
      ghost var v, blocks, data := raid.Seen(), lh, Pending();
      NoWrites(raid.fault, v);
      EmptyCommit(area, v[area.start]);
      NoBlocks();
      if |lh| > 0 {
        CommitStages(raid.fault, area, v, blocks, data);
        WriteLog();
        WriteHead();
        InstallTrans();
        lh := [];
        WriteHead();
      }
    }

    method RecoverFromLog()
      requires Valid() && GoodLog(area, raid.Seen())
      requires Reaches(raid.fault, raid.fault, area.start) && HomeReached(raid.fault, HeaderBlocks(raid.Seen()[area.start]))
      modifies this, raid
      ensures Valid() && lh == []
      ensures raid.fault == old(raid.fault)
      ensures var ws := RecoverWrites(area, old(raid.Seen()));
              && raid.issued == old(raid.issued) + Mirror(raid.fault, ws)
              && raid.Seen() == Apply(old(raid.Seen()), ws)
    {
      hide Apply, Mirror, HeaderFor, HomeWrites, BufferedRaid.Valid, BufferedRaid.Clean, BufferedRaid.Seen;
      ghost var v := raid.Seen();
      RecoverStages(raid.fault, area, v);
      ReadHead();
      InstallTrans();
      lh := [];
      WriteHead();
    }
  }
}
