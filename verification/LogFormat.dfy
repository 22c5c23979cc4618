/** The log and the mirrored halves as they lie on the disk, word by word and block by block. */
module LogFormat {
  import opened DiskWrites
  import opened RaidDisk
  import opened RedoLog

  // ---- The two halves ----

  /** What a reader sees under each fault: disk 0 without one; disk 1 if disk 0 has failed; disk 0 but for the bad block,
      which is read from disk 1. */
  lemma ViewsAre(d: seq<Block>, b: nat)
    requires |d| == FSSIZE && b < LOGICAL_DISK_SIZE
    ensures View(Fault(-1, -1), d) == View(Fault(1, -1), d) == d[..LOGICAL_DISK_SIZE]
    ensures View(Fault(0, -1), d) == View(Fault(0, b), d) == d[DISK1_START_BLOCK..]
    ensures View(Fault(-1, b), d) == View(Fault(1, b), d) == d[..LOGICAL_DISK_SIZE][b := d[DISK1_START_BLOCK + b]]
  {
  }

  /** What one write does to each half: both are written without a fault, only disk 1 if disk 0 has failed or the block
      is bad there, only disk 0 if disk 1 has failed, and neither if disk 1 has failed and the block is bad on disk 0. */
  lemma WritesAre(f: Fault, d: seq<Block>, w: Write)
    requires |d| == FSSIZE && w.blockno < LOGICAL_DISK_SIZE
    ensures var r, half0, half1 := Apply(d, f.CopiesWritten(w)), d[..LOGICAL_DISK_SIZE], d[DISK1_START_BLOCK..];
            && r[..LOGICAL_DISK_SIZE]
               == (if f.diskFail == 0 || f.readErrorPbn == w.blockno then half0 else half0[w.blockno := w.data])
            && r[DISK1_START_BLOCK..] == (if f.diskFail == 1 then half1 else half1[w.blockno := w.data])
  {
    hide Apply, Put;
    var v := Write(w.blockno + DISK1_START_BLOCK, w.data);
    WhatIsWritten(f, d, w);
    PutHalves(d, w.blockno, w.data);
    PutHalves(Put(d, w), w.blockno, w.data);
  }

  lemma WhatIsWritten(f: Fault, d: seq<Block>, w: Write)
    requires w.blockno < LOGICAL_DISK_SIZE
    ensures var v := Write(w.blockno + DISK1_START_BLOCK, w.data);
            var skip0 := f.diskFail == 0 || f.readErrorPbn == w.blockno;
            Apply(d, f.CopiesWritten(w)) == if skip0 then (if f.diskFail == 1 then d else Put(d, v))
                                            else if f.diskFail == 1 then Put(d, w) else Put(Put(d, w), v)
  {
    hide Put;
    var v := Write(w.blockno + DISK1_START_BLOCK, w.data);
    ApplyFew(d, w, v);
    ApplyFew(d, v, v);
  }

  lemma PutHalves(d: seq<Block>, b: nat, data: Block)
    requires |d| == FSSIZE && b < LOGICAL_DISK_SIZE
    ensures var r := Put(d, Write(b, data));
            r[..LOGICAL_DISK_SIZE] == d[..LOGICAL_DISK_SIZE][b := data] && r[DISK1_START_BLOCK..] == d[DISK1_START_BLOCK..]
    ensures var r := Put(d, Write(b + DISK1_START_BLOCK, data));
            r[..LOGICAL_DISK_SIZE] == d[..LOGICAL_DISK_SIZE] && r[DISK1_START_BLOCK..] == d[DISK1_START_BLOCK..][b := data]
  {
  }

  /** Disk 0 is written before disk 1. */
  lemma Disk0First(f: Fault, w: Write)
    requires w.blockno < LOGICAL_DISK_SIZE && |f.CopiesWritten(w)| == 2
    ensures f.CopiesWritten(w)[0].blockno == w.blockno && f.CopiesWritten(w)[1].blockno == w.blockno + DISK1_START_BLOCK
  {
  }

  // ---- The log ----

  /** The header block holds the number of blocks in its first word and their numbers in the next ones. */
  lemma HeaderWords(b: Block, lh: seq<int>)
    requires |b.words| == WORDS_PER_BLOCK && |lh| <= LOGSIZE
    ensures var h := HeaderFor(b, lh).words;
            |h| == WORDS_PER_BLOCK && h[0] == |lh| && forall i :: 0 <= i < |lh| ==> h[1 + i] == lh[i]
    ensures IsHeader(b) ==> forall i :: 0 <= i < b.words[0] ==> HeaderBlocks(b)[i] == b.words[1 + i]
  {
  }

  /** Writes to different blocks all show. */
  lemma {:induction false} AllShow(d: seq<Block>, ws: seq<Write>, b: nat)
    requires forall i, j :: 0 <= i < j < |ws| ==> ws[i].blockno != ws[j].blockno
    requires forall i :: 0 <= i < |ws| ==> ws[i].blockno < |d|
    requires b < |d|
    ensures forall i :: 0 <= i < |ws| ==> Apply(d, ws)[ws[i].blockno] == ws[i].data
    ensures (forall i :: 0 <= i < |ws| ==> ws[i].blockno != b) ==> Apply(d, ws)[b] == d[b]
  {
    if ws != [] {
      AllShow(d, ws[..|ws| - 1], b);
    }
  }

  /** When the header has been written, the disk names the blocks of the transaction and holds their contents, in the
      same order, right behind the header; nothing else has changed. */
  lemma OnceLogged(area: Area, v: seq<Block>, header: Block, lh: seq<int>, data: seq<Block>, b: nat)
    requires |v| == area.blocks && Layout(area) && b < area.blocks
    requires |header.words| == WORDS_PER_BLOCK && |lh| == |data| > 0 && Loggable(area, lh)
    ensures |lh| + 1 <= |CommitWrites(area, header, lh, data)|
    ensures var w := Apply(v, CommitWrites(area, header, lh, data)[..|lh| + 1]);
            && |w[area.start].words| == WORDS_PER_BLOCK && w[area.start].words[0] == |lh|
            && (forall i :: 0 <= i < |lh| ==> w[area.start].words[1 + i] == lh[i] && w[area.start + 1 + i] == data[i])
            && (!(area.start <= b <= area.start + |lh|) ==> w[b] == v[b])
  {
    var h := HeaderFor(header, lh);
    var ws := LogWrites(area, data) + [Write(area.start, h)];
    assert CommitWrites(area, header, lh, data)[..|lh| + 1] == ws;
    HeaderWords(header, lh);
    AllShow(v, ws, b);
    forall i | 0 <= i < |lh| ensures Apply(v, ws)[area.start + 1 + i] == data[i] {
      assert ws[i] == Write(area.start + i + 1, data[i]);
    }
    assert ws[|lh|] == Write(area.start, h);
  }

  /** When the commit is complete, the blocks of the transaction hold its contents at home, the header names none, and no
      other block outside the log has changed. */
  lemma OnceCommitted(area: Area, v: seq<Block>, header: Block, lh: seq<int>, data: seq<Block>, b: nat)
    requires |v| == area.blocks && Layout(area) && b < area.blocks && Distinct(lh)
    requires |header.words| == WORDS_PER_BLOCK && |lh| == |data| > 0 && Loggable(area, lh)
    ensures var w := Apply(v, CommitWrites(area, header, lh, data));
            && |w[area.start].words| == WORDS_PER_BLOCK && w[area.start].words[0] == 0
            && (forall i :: 0 <= i < |lh| ==> w[lh[i]] == data[i])
            && (b !in lh && !InLog(area, b) ==> w[b] == v[b])
  {
    hide Apply;
    var h := HeaderFor(header, lh);
    var first := LogWrites(area, data) + [Write(area.start, h)];
    var last := HomeWrites(area, lh, data) + [Write(area.start, HeaderFor(h, []))];
    var u := Apply(v, first);
    assert CommitWrites(area, header, lh, data) == first + last;
    ApplyAppend(v, first, last);
    AllShow(v, first, b);
    AllShow(u, last, b);
    HeaderWords(h, []);
    assert last[|lh|] == Write(area.start, HeaderFor(h, []));
    forall i | 0 <= i < |lh| ensures Apply(u, last)[lh[i]] == data[i] {
      assert last[i] == Write(lh[i], data[i]);
    }
  }

  /** Recovery copies the block behind the header, for each number in it, to the block of that number, and then names
      none in the header; no other block changes. */
  lemma OnceRecovered(area: Area, v: seq<Block>, b: nat)
    requires GoodLog(area, v) && b < area.blocks && Distinct(HeaderBlocks(v[area.start]))
    ensures var w, n := Apply(v, RecoverWrites(area, v)), v[area.start].words[0];
            && 0 <= n <= LOGSIZE && area.start + n < |v|
            && var names := v[area.start].words[1..1 + n];
            && (forall i :: 0 <= i < n ==> 0 <= names[i] < |v| && w[names[i]] == v[area.start + 1 + i])
            && |w[area.start].words| == WORDS_PER_BLOCK && w[area.start].words[0] == 0
            && (b !in names && b != area.start ==> w[b] == v[b])
  {
    hide Apply;
    var lh, ws := HeaderBlocks(v[area.start]), RecoverWrites(area, v);
    HeaderWords(v[area.start], []);
    forall i | 0 <= i < |lh| ensures lh[i] >= 0 && ws[i] == Write(lh[i], v[area.start + 1 + i]) {
      assert Home(area, lh[i]);
    }
    assert ws[|lh|] == Write(area.start, HeaderFor(v[area.start], []));
    AllShow(v, ws, b);
    forall i | 0 <= i < |lh| ensures Apply(v, ws)[lh[i]] == v[area.start + 1 + i] {
      assert ws[i].blockno == lh[i];
    }
  }
}
