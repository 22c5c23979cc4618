/** Admission to the log: operations reserve log space when they begin, and the log commits only when
    none is under way. Each method is one critical section under the log's lock (or, for the commit,
    the work done while `committing` keeps everybody else out); any interleaving of operations is a
    sequence of such calls. */
module LogReservation {

  const MAXOPBLOCKS: nat := 10
  const LOGSIZE: nat := 30

  /** An operation between `begin_op` and `end_op`: how many blocks it has added to the log, which
      blocks it has logged, and how many commits there had been when it began. */
  datatype Op = Op(used: nat, blocks: set<int>, epoch: nat)

  ghost function UsedBy(ops: seq<Op>): nat {
    if ops == [] then 0 else UsedBy(ops[..|ops| - 1]) + ops[|ops| - 1].used
  }

  /** The log space that the operations under way may still claim. */
  ghost function Unused(ops: seq<Op>): int {
    MAXOPBLOCKS * |ops| - UsedBy(ops)
  }

  lemma {:induction false} UsedByUpdate(ops: seq<Op>, i: nat, op: Op)
    requires i < |ops|
    ensures UsedBy(ops[i := op]) == UsedBy(ops) - ops[i].used + op.used
  {
    var n := |ops| - 1;
    if i < n {
      assert ops[i := op][..n] == ops[..n][i := op];
      UsedByUpdate(ops[..n], i, op);
    } else {
      assert ops[i := op][..n] == ops[..n];
    }
  }

  lemma UsedByAppend(ops: seq<Op>, op: Op)
    ensures UsedBy(ops + [op]) == UsedBy(ops) + op.used
  {
    assert (ops + [op])[..|ops|] == ops;
  }

  function Without(ops: seq<Op>, i: nat): seq<Op>
    requires i < |ops|
  {
    ops[..i] + ops[i + 1..]
  }

  lemma {:induction false} UsedByWithout(ops: seq<Op>, i: nat)
    requires i < |ops|
    ensures UsedBy(Without(ops, i)) == UsedBy(ops) - ops[i].used
  {
    var n := |ops| - 1;
    if i < n {
      assert Without(ops, i)[..n - 1] == Without(ops[..n], i);
      UsedByWithout(ops[..n], i);
    } else {
      assert Without(ops, i) == ops[..n];
    }
  }

  ghost predicate Distinct(s: seq<int>) {
    forall i, j :: 0 <= i < j < |s| ==> s[i] != s[j]
  }

  /** Every operation is within its budget, belongs to the current transaction, and all it has logged
      is in it. */
  ghost predicate OpsOk(ops: seq<Op>, commits: nat, logged: set<int>) {
    forall i :: 0 <= i < |ops| ==> ops[i].used <= MAXOPBLOCKS && ops[i].epoch == commits && ops[i].blocks <= logged
  }

  ghost predicate Holds(block: seq<int>, logged: set<int>) {
    forall b :: b in logged <==> b in block
  }

  lemma OpAdded(ops: seq<Op>, commits: nat, logged: set<int>)
    requires OpsOk(ops, commits, logged)
    ensures OpsOk(ops + [Op(0, {}, commits)], commits, logged)
    ensures Unused(ops + [Op(0, {}, commits)]) == Unused(ops) + MAXOPBLOCKS
  {
    UsedByAppend(ops, Op(0, {}, commits));
  }

  /** The operations after operation `i` has logged `b`. */
  ghost function OpsAfter(ops: seq<Op>, i: nat, b: int, added: nat): seq<Op>
    requires i < |ops|
  {
    ops[i := Op(ops[i].used + added, ops[i].blocks + {b}, ops[i].epoch)]
  }

  lemma OpLogged(ops: seq<Op>, commits: nat, logged: set<int>, i: nat, b: int, added: nat)
    requires OpsOk(ops, commits, logged) && i < |ops| && (added > 0 ==> ops[i].used + added <= MAXOPBLOCKS)
    ensures var after := OpsAfter(ops, i, b, added);
            && |after| == |ops| && (forall j :: 0 <= j < |ops| && j != i ==> after[j] == ops[j])
            && b in after[i].blocks && after[i].epoch == ops[i].epoch
            && OpsOk(after, commits, logged + {b}) && Unused(after) == Unused(ops) - added
  {
    UsedByUpdate(ops, i, Op(ops[i].used + added, ops[i].blocks + {b}, ops[i].epoch));
  }

  lemma BlockAdded(block: seq<int>, logged: set<int>, b: int)
    requires Holds(block, logged) && Distinct(block)
    ensures Holds(block + [b], logged + {b}) && (b !in block ==> Distinct(block + [b]))
    ensures b in block ==> Holds(block, logged + {b})
    ensures multiset(block + [b]) == multiset(block) + multiset{b}
  {
  }

  lemma Unchanged(block: seq<int>, k: nat)
    requires k < |block|
    ensures block[k := block[k]] == block
  {
  }

  lemma Advance(block: seq<int>, tail: nat)
    requires tail < |block|
    ensures multiset(block[tail..]) - multiset{block[tail]} == multiset(block[tail + 1..])
    ensures block[..tail + 1] == block[..tail] + [block[tail]]
  {
    assert block[tail..] == [block[tail]] + block[tail + 1..];
  }

  /** What `log_write` panics on. */
  predicate TooBig(logged: nat, size: nat) {
    logged >= LOGSIZE || logged >= size - 1
  }

  /** What `begin_op` waits for. */
  predicate Admissible(logged: nat, outstanding: nat, committing: bool) {
    !committing && logged + (outstanding + 1) * MAXOPBLOCKS <= LOGSIZE
  }

  function Sum(claims: seq<nat>): nat {
    if claims == [] then 0 else claims[0] + Sum(claims[1..])
  }

  /** Ten blocks at most, for each operation under way and one more. */
  ghost predicate Claims(claims: seq<nat>, outstanding: nat) {
    |claims| == outstanding + 1 && forall j :: 0 <= j < |claims| ==> claims[j] <= 10
  }

  lemma {:induction false} SumAtMost(claims: seq<nat>)
    requires forall j :: 0 <= j < |claims| ==> claims[j] <= 10
    ensures Sum(claims) <= 10 * |claims|
  {
    if claims != [] {
      SumAtMost(claims[1..]);
    }
  }

  lemma {:induction false} SumOfTens(n: nat)
    ensures Sum(seq(n, _ => 10)) == 10 * n
  {
    if n > 0 {
      SumOfTens(n - 1);
      assert seq(n, _ => 10)[1..] == seq(n - 1, _ => 10);
    }
  }

  /** An operation is admitted exactly when no commit is under way and, whatever number of blocks up to ten it and
      each of the operations under way may yet add to those logged, the log holds no more than 30. */
  lemma AdmissibleExactly(logged: nat, outstanding: nat, committing: bool)
    ensures Admissible(logged, outstanding, committing) <==>
              !committing && forall claims :: Claims(claims, outstanding) ==> logged + Sum(claims) <= 30
  {
    forall claims | Claims(claims, outstanding) ensures Sum(claims) <= 10 * (outstanding + 1) {
      SumAtMost(claims);
    }
    var tens := seq(outstanding + 1, _ => 10);
    SumOfTens(outstanding + 1);
    assert Claims(tens, outstanding);
  }

  /** The in-memory log. `block` is the header's list of block numbers; `pins` counts the extra
      references that keep logged buffers in the cache. Ghost: the operations under way, the number
      of commits, the blocks logged since the last one, all blocks ever copied home, in order, and who
      sleeps in `begin_op`. */
  class Gate {
    const size: nat
    var outstanding: nat
    var committing: bool
    var block: seq<int>
    var pins: multiset<int>
    ghost var ops: seq<Op>
    ghost var commits: nat
    ghost var logged: set<int>
    ghost var home: seq<int>
    ghost var asleep: set<nat>

    ghost predicate Valid()
      reads this
    {
      && |ops| == outstanding && Distinct(block) && pins == multiset(block)
      && |block| + Unused(ops) <= LOGSIZE && (block == [] || |block| < size)
      && OpsOk(ops, commits, logged) && Holds(block, logged)
      && (committing ==> outstanding == 0)
      && (outstanding == 0 && !committing ==> block == [])
      && (asleep != {} ==> committing || outstanding > 0)
    }

    constructor (size: nat)
      ensures Valid() && this.size == size && block == [] && outstanding == 0 && !committing && asleep == {}
      ensures ops == [] && home == []
    {
      this.size, outstanding, committing, block, pins := size, 0, false, [], multiset{};
      ops, commits, logged, home, asleep := [], 0, {}, [], {};
    }

    /** One turn of the loop in `begin_op`: admitted, or asleep until the next wakeup. */
    method BeginOp(who: nat) returns (admitted: bool)
      requires Valid()
      modifies this`outstanding, this`ops, this`asleep
      ensures Valid()
      ensures admitted == Admissible(|block|, old(outstanding), committing)
      ensures admitted ==> outstanding == old(outstanding) + 1 && ops == old(ops) + [Op(0, {}, commits)] && asleep == old(asleep)
      ensures !admitted ==> outstanding == old(outstanding) && ops == old(ops) && asleep == old(asleep) + {who}
    {
      hide OpsOk, Holds, Distinct, UsedBy;
      if committing {
        asleep := asleep + {who};
        return false;
      } else if |block| + (outstanding + 1) * MAXOPBLOCKS > LOGSIZE {
        asleep := asleep + {who};
        return false;
      } else {
        OpAdded(ops, commits, logged);
        outstanding := outstanding + 1;
        ops := ops + [Op(0, {}, commits)];
        return true;
      }
    }

    /** Log one block of an operation; `false` stands for the panic on a full log. It does not occur as
        long as the operation has added fewer than `MAXOPBLOCKS` blocks and the log area is larger than
        LOGSIZE. Having added that many, an operation may still log blocks that are in the log; if it logs another
        one, nobody stops it, but what was reserved for others may be gone. */
    method LogWrite(i: nat, b: int) returns (ok: bool)
      requires Valid() && i < |ops|
      modifies this`block, this`pins, this`ops, this`logged
      ensures ok == !TooBig(|old(block)|, size)
      ensures !ok || old(ops)[i].used < MAXOPBLOCKS || b in old(block) ==> Valid()
      ensures old(ops)[i].used < MAXOPBLOCKS && LOGSIZE < size ==> ok
      ensures !ok ==> block == old(block) && pins == old(pins) && ops == old(ops) && logged == old(logged)
      ensures ok && b in old(block) ==> block == old(block) && pins == old(pins)
      ensures ok && b !in old(block) ==> block == old(block) + [b] && pins == old(pins) + multiset{b}
      ensures ok ==> logged == old(logged) + {b} && ops == OpsAfter(old(ops), i, b, |block| - |old(block)|)
    {
      hide OpsOk, Holds, Distinct, UsedBy, Unused, OpsAfter;
      if ops[i].used < MAXOPBLOCKS && LOGSIZE < size {
        BelowBudget(i);
      }
      if TooBig(|block|, size) {
        return false;
      }
      if outstanding < 1 {
        assert false;
      }
      ok := true;
      var k := IndexOfBlock(b);
      ghost var added := if k == |block| then 1 else 0;
      if ops[i].used + added <= MAXOPBLOCKS || added == 0 {
        OpLogged(ops, commits, logged, i, b, added);
      }
      logged := logged + {b};
      ops := OpsAfter(ops, i, b, added);
      Enter(k, b, old(logged));
    }

    /** Write a block number at its place in the log, pinning its buffer if the place is new. */
    method Enter(k: nat, b: int, ghost before: set<int>)
      requires k <= |block| && (k < |block| ==> block[k] == b) && (k == |block| ==> b !in block)
      requires pins == multiset(block) && Holds(block, before) && Distinct(block)
      modifies this`block, this`pins
      ensures pins == multiset(block) && Holds(block, before + {b}) && Distinct(block)
      ensures k < |old(block)| ==> block == old(block) && pins == old(pins)
      ensures k == |old(block)| ==> block == old(block) + [b] && pins == old(pins) + multiset{b}
    {
      hide Holds, Distinct;
      BlockAdded(block, before, b);
      if k == |block| {
        pins := pins + multiset{b};
        block := block + [b];
      } else {
        Unchanged(block, k);
        block := block[k := b];
      }
    }

    /** The first place of a block in the log; its length if the block is not there. */
    method IndexOfBlock(b: int) returns (k: nat)
      ensures k <= |block| && (k < |block| ==> block[k] == b) && (k == |block| <==> b !in block)
    {
      k := 0;
      while k < |block| && block[k] != b
        invariant 0 <= k <= |block| && b !in block[..k]
      {
        k := k + 1;
      }
      assert block[..|block|] == block;
    }

    /** In a log area larger than LOGSIZE an operation below its budget finds room: the log, with what is
        reserved, never exceeds LOGSIZE. */
    lemma BelowBudget(i: nat)
      requires Valid() && i < |ops| && ops[i].used < MAXOPBLOCKS && LOGSIZE < size
      ensures !TooBig(|block|, size)
    {
      BudgetLeft(ops, i);
    }

    /** The first half of `end_op`: the last operation starts the commit, any other wakes the sleepers. */
    method EndOp(i: nat) returns (doCommit: bool)
      requires Valid() && i < |ops|
      modifies this`outstanding, this`committing, this`ops, this`asleep
      ensures Valid() && outstanding == old(outstanding) - 1 && ops == Without(old(ops), i)
      ensures doCommit <==> outstanding == 0
      ensures doCommit ==> committing && old(ops)[i].blocks <= logged && asleep == old(asleep)
      ensures !doCommit ==> !committing && asleep == {}
    {
      UsedByWithout(ops, i);
      outstanding := outstanding - 1;
      if committing {
        assert false;
      }
      ops := Without(ops, i);
      doCommit := false;
      if outstanding == 0 {
        doCommit := true;
        committing := true;
      } else {
        asleep := {};
      }
    }

    /** Copying the logged blocks home. Only outside recovery are the buffers unpinned, each once. */
    method InstallTrans(recovering: bool)
      requires recovering || pins == multiset(block)
      modifies this`pins, this`home
      ensures pins == if recovering then old(pins) else multiset{}
      ensures home == old(home) + block
    {
      var tail := 0;
      while tail < |block|
        invariant 0 <= tail <= |block|
        invariant pins == if recovering then old(pins) else multiset(block[tail..])
        invariant home == old(home) + block[..tail]
      {
        Advance(block, tail);
        home := home + [block[tail]];
        if !recovering {
          pins := pins - multiset{block[tail]};
        }
        tail := tail + 1;
      }
      assert block[..tail] == block;
    }

    /** The commit proper, with nobody inside an operation. It installs exactly the blocks that the
        operations of this transaction have logged, and leaves the log empty and nothing pinned. */
    method Commit()
      requires Valid() && committing
      modifies this`block, this`pins, this`logged, this`commits, this`home
      ensures home == old(home) + old(block) && Holds(old(block), old(logged)) && commits == old(commits) + 1
      ensures Valid() && block == [] && pins == multiset{} && logged == {}
    {
      assert ops == [];
      if |block| > 0 {
        InstallTrans(false);
        block := [];
      }
      logged := {};
      commits := commits + 1;
    }

    /** The second half of `end_op`: after it, anyone who asks again is admitted. */
    method EndCommit()
      requires Valid() && committing && block == []
      modifies this`committing, this`asleep
      ensures Valid() && !committing && asleep == {}
      ensures Admissible(|block|, outstanding, committing)
    {
      committing := false;
      asleep := {};
    }

    /** The end of an operation, from `end_op` to its return. It leaves nobody asleep, and if it was the
        last operation, all that the operations of the transaction have logged has been copied home and
        the next operation is admitted. */
    method EndOpAndCommit(i: nat)
      requires Valid() && i < |ops|
      modifies this
      ensures Valid() && asleep == {} && !committing && ops == Without(old(ops), i) && outstanding == old(outstanding) - 1
      ensures outstanding > 0 ==> home == old(home) && block == old(block) && commits == old(commits)
      ensures outstanding == 0 ==> home == old(home) + old(block) && Holds(old(block), old(logged)) && block == []
      ensures outstanding == 0 ==> Admissible(|block|, outstanding, committing)
    {
      var doCommit := EndOp(i);
      if doCommit {
        Commit();
        EndCommit();
      }
    }

    /** Recovery at boot: the transaction found on disk is copied home without touching any pin. */
    method RecoverFromLog(header: seq<int>)
      requires Valid() && outstanding == 0 && !committing && block == []
      modifies this`block, this`pins, this`home
      ensures Valid() && block == [] && pins == old(pins) && home == old(home) + header
    {
      block := header;
      InstallTrans(true);
      block := [];
    }
  }

  lemma {:induction false} BudgetLeft(ops: seq<Op>, i: nat)
    requires i < |ops| && forall j :: 0 <= j < |ops| ==> ops[j].used <= MAXOPBLOCKS
    ensures Unused(ops) >= MAXOPBLOCKS - ops[i].used
  {
    var n := |ops| - 1;
    assert UsedBy(ops) == UsedBy(ops[..n]) + ops[n].used;
    if n > 0 {
      BudgetLeft(ops[..n], if i < n then i else 0);
    }
  }

  /** When the log is found full: if the area is larger than LOGSIZE, only when every operation has used up
      its budget; if it is not, when the operations together have at most `LOGSIZE + 1 - size` blocks of
      their budgets left. */
  lemma PanicsExactlyWhenFull(block: seq<int>, ops: seq<Op>, size: nat)
    requires |block| + Unused(ops) <= LOGSIZE
    requires forall i :: 0 <= i < |ops| ==> ops[i].used <= MAXOPBLOCKS
    ensures TooBig(|block|, size) ==> Unused(ops) <= if LOGSIZE < size then 0 else LOGSIZE + 1 - size
    ensures LOGSIZE < size && TooBig(|block|, size) ==> forall i :: 0 <= i < |ops| ==> ops[i].used == MAXOPBLOCKS
  {
    forall i | 0 <= i < |ops| ensures LOGSIZE < size && TooBig(|block|, size) ==> ops[i].used == MAXOPBLOCKS {
      BudgetLeft(ops, i);
    }
  }

  // ---- Runs that fill the log ----

  /** What operation `j` has added when three operations have added `n` blocks, one after the other. */
  function Share(n: nat, j: nat): nat {
    if n <= j * MAXOPBLOCKS then 0
    else if n <= (j + 1) * MAXOPBLOCKS then n - j * MAXOPBLOCKS
    else MAXOPBLOCKS
  }

  /** What the gate's invariant says of the number of logged blocks. */
  ghost predicate Reserved(logged: nat, size: nat, ops: seq<Op>) {
    && logged + Unused(ops) <= LOGSIZE && (logged == 0 || logged < size)
    && forall i :: 0 <= i < |ops| ==> ops[i].used <= MAXOPBLOCKS
  }

  ghost predicate BudgetLeftAt(ops: seq<Op>, i: int) {
    0 <= i < |ops| && ops[i].used < MAXOPBLOCKS
  }

  /** Operations below their budgets never find the log full, if and only if the log area is larger than
      LOGSIZE. The other direction is the run of `BelowBudgetPanics`. */
  lemma NeverFullExactly(size: nat)
    ensures (forall logged: nat, ops: seq<Op>, i: int :: Reserved(logged, size, ops) && BudgetLeftAt(ops, i) ==> !TooBig(logged, size))
            <==> LOGSIZE < size
  {
    hide UsedBy, Unused;
    if LOGSIZE < size {
      forall logged: nat, ops: seq<Op>, i: int | Reserved(logged, size, ops) && BudgetLeftAt(ops, i) ensures !TooBig(logged, size) {
        BudgetLeft(ops, i);
      }
    } else {
      var n := if size == 0 then 0 else size - 1;
      var ops := ThreeShares(n);
      assert Reserved(n, size, ops) && BudgetLeftAt(ops, n / MAXOPBLOCKS) && TooBig(n, size);
    }
  }

  lemma ThreeShares(n: nat) returns (ops: seq<Op>)
    requires n <= LOGSIZE
    ensures ops == [Op(Share(n, 0), {}, 0), Op(Share(n, 1), {}, 0), Op(Share(n, 2), {}, 0)] && Unused(ops) == LOGSIZE - n
  {
    hide UsedBy;
    var a, b, c := Op(Share(n, 0), {}, 0), Op(Share(n, 1), {}, 0), Op(Share(n, 2), {}, 0);
    ops := [a, b, c];
    NothingUsed();
    UsedByAppend([], a);
    UsedByAppend([a], b);
    UsedByAppend([a, b], c);
    assert [] + [a] == [a] && [a] + [b] == [a, b] && [a, b] + [c] == ops;
  }

  /** A gate in which three operations have logged the blocks 0 to `n - 1`. */
  ghost predicate Filled(g: Gate, n: nat)
    reads g
  {
    && g.Valid() && |g.block| == n && (forall k :: 0 <= k < n ==> g.block[k] == k)
    && |g.ops| == 3 && forall j :: 0 <= j < 3 ==> g.ops[j].used == Share(n, j)
  }

  method BeginThree(size: nat) returns (g: Gate)
    ensures fresh(g) && g.size == size && Filled(g, 0)
  {
    hide OpsOk, Holds, Distinct;
    g := new Gate(size);
    var first := g.BeginOp(0);
    NothingUsed();
    var second := g.BeginOp(1);
    var third := g.BeginOp(2);
    assert first && second && third;
  }

  lemma NothingUsed()
    ensures UsedBy([]) == 0
  {
  }

  /** The next block, logged by the operation whose turn it is. */
  method FillOne(g: Gate, k: nat)
    requires Filled(g, k) && k < LOGSIZE && k + 1 < g.size
    modifies g
    ensures Filled(g, k + 1)
  {
    hide OpsOk, Holds, Distinct, UsedBy, Unused;
    var ok := g.LogWrite(k / MAXOPBLOCKS, k);
    assert ok && k !in old(g.block);
  }

  /** From an empty log, three operations begin and log `n` blocks between them. */
  method Fill(size: nat, n: nat) returns (g: Gate)
    requires n <= LOGSIZE && (n == 0 || n < size)
    ensures fresh(g) && g.size == size && Filled(g, n)
  {
    hide Filled;
    g := BeginThree(size);
    for k := 0 to n
      invariant g.size == size && Filled(g, k) && fresh(g)
    {
      FillOne(g, k);
    }
  }

  /** In a log area no larger than LOGSIZE, an operation below its budget can panic: a run in which it has
      budget left, logs a new block, and is refused. */
  method BelowBudgetPanics(size: nat) returns (g: Gate, i: nat, ok: bool)
    requires size <= LOGSIZE
    ensures fresh(g) && g.Valid() && g.size == size && i < |g.ops| && g.ops[i].used < MAXOPBLOCKS
    ensures ok == !TooBig(|g.block|, size) && !ok
  {
    var n := if size == 0 then 0 else size - 1;
    g := Fill(size, n);
    i := n / MAXOPBLOCKS;
    ok := g.LogWrite(i, n);
  }

  /** Absorption does not save an operation that has used up its budget: in a larger log area, a run fills
      the log, and then logging a block that is already in it is refused. */
  method AbsorbedWriteCanPanic(size: nat) returns (g: Gate, ok: bool)
    requires LOGSIZE < size
    ensures fresh(g) && g.Valid() && g.size == size && 0 in g.block && |g.ops| == 3
    ensures ok == !TooBig(|g.block|, size) && !ok
  {
    g := Fill(size, LOGSIZE);
    assert g.block[0] == 0;
    ok := g.LogWrite(0, 0);
  }
}
