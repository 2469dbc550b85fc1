/** Concurrent inserts and free slots. A call that misses moves its hint on by one block, but when its chain has
    grown meanwhile the walk puts the hint back to the block of the last slot it passes. The attempts of a call
    are then spent on blocks it has searched before, and an unbounded insert can fail with slots left over. */
module InsertHints {
  import opened Bitset
  import opened MapMemory
  import opened InsertProtocol
  import opened InsertHistory
  import opened InsertProgress
  import opened TableModel

  /* ---------- One call moving alone for a while ---------- */

  // The memory and the call after each of its steps.
  type Trace = seq<(Mem, Op)>

  ghost predicate StepAt(cfg: Config, trace: Trace, k: nat)
    requires k + 1 < |trace|
  {
    Runnable(cfg, trace[k].0, trace[k].1) && trace[k + 1] == OpStep(cfg, trace[k].0, trace[k].1)
  }

  ghost predicate Leads(cfg: Config, m: Mem, op: Op, trace: Trace, m': Mem, op': Op) {
    && |trace| > 0 && trace[0] == (m, op) && trace[|trace| - 1] == (m', op')
    && forall k: nat {:trigger StepAt(cfg, trace, k)} :: k + 1 < |trace| ==> StepAt(cfg, trace, k)
  }

  function Repeat(t: nat, n: nat): seq<nat> {
    seq(n, _ => t)
  }

  lemma {:induction false} TraceRun(cfg: Config, s: State, t: nat, trace: Trace, n: nat)
    requires t < |s.ops| && n < |trace| && trace[0] == (s.mem, s.ops[t])
    requires forall k: nat {:trigger StepAt(cfg, trace, k)} :: k + 1 < |trace| ==> StepAt(cfg, trace, k)
    ensures Run(cfg, s, Repeat(t, n)) == State(trace[n].0, s.ops[t := trace[n].1])
  {
    if n > 0 {
      TraceRun(cfg, s, t, trace, n - 1);
      assert Repeat(t, n)[..n - 1] == Repeat(t, n - 1);
      assert StepAt(cfg, trace, n - 1);
    }
  }

  lemma StepLeads(cfg: Config, m: Mem, op: Op) returns (trace: Trace)
    requires Runnable(cfg, m, op)
    ensures Leads(cfg, m, op, trace, OpStep(cfg, m, op).0, OpStep(cfg, m, op).1)
  {
    trace := [(m, op), OpStep(cfg, m, op)];
  }

  lemma Joins(cfg: Config, m: Mem, op: Op, a: Trace, m1: Mem, op1: Op, b: Trace, m2: Mem, op2: Op) returns (trace: Trace)
    requires Leads(cfg, m, op, a, m1, op1) && Leads(cfg, m1, op1, b, m2, op2)
    ensures Leads(cfg, m, op, trace, m2, op2)
  {
    trace := a + b[1..];
    forall k: nat | k + 1 < |trace|
      ensures StepAt(cfg, trace, k)
    {
      if k + 1 < |a| {
        assert StepAt(cfg, a, k);
      } else {
        assert StepAt(cfg, b, k + 1 - |a|);
      }
    }
  }

  /* ---------- Turns of a call that holds nothing ---------- */

  lemma FullBlockMisses(size: nat, blocks: seq<Word>, hint: nat, direction: nat)
    requires Fits(size, blocks) && hint / BLOCK < |blocks| && BlockFull(size, blocks, hint / BLOCK)
    ensures FindAnyUnsetNear(size, blocks, hint, direction)
         == (false, NextBlock(|blocks|, hint / BLOCK, direction) * BLOCK + hint % BLOCK)
  {
    FindAnyUnsetNearOutcome(size, blocks, hint, direction);
  }

  // At the end of its chain, about to read the pointer there once more.
  ghost predicate AtEnd(cfg: Config, m: Mem, op: Op) {
    && Runnable(cfg, m, op) && op.pc.LoadNext? && op.slot == INVALID
    && Load(cfg.shape, m, op.ptr) == INVALID
  }

  function NextHint(cfg: Config, op: Op): nat
    requires ValidShape(cfg.shape) && op.hint / BLOCK < BlockCount(cfg.shape.capacity)
  {
    NextBlock(BlockCount(cfg.shape.capacity), op.hint / BLOCK, Bucket(cfg.shape, op.key)) * BLOCK + op.hint % BLOCK
  }

  lemma TurnStarts(cfg: Config, m: Mem, op: Op) returns (path: Trace)
    requires AtEnd(cfg, m, op)
    ensures Leads(cfg, m, op, path, m, op.(curr := INVALID, pc := Search))
  {
    var op1 := op.(curr := INVALID, pc := Compare);
    var a := StepLeads(cfg, m, op);
    var b := StepLeads(cfg, m, op1);
    path := Joins(cfg, m, op, a, m, op1, b, m, op.(curr := INVALID, pc := Search));
  }

  lemma SearchMisses(cfg: Config, m: Mem, op: Op) returns (path: Trace)
    requires Runnable(cfg, m, op) && op.pc.Search? && BlockFull(cfg.shape.capacity, m.avail, op.hint / BLOCK)
    ensures Leads(cfg, m, op, path, m, op.(hint := NextHint(cfg, op), attempts := op.attempts + 1,
                                        pc := if op.attempts + 1 >= MaxAttempts(cfg) then Fail else Claim))
    ensures NextHint(cfg, op) / BLOCK < BlockCount(cfg.shape.capacity)
  {
    FullBlockMisses(cfg.shape.capacity, m.avail, op.hint, Bucket(cfg.shape, op.key));
    path := StepLeads(cfg, m, op);
  }

  lemma ClaimLoses(cfg: Config, m: Mem, op: Op) returns (path: Trace)
    requires Runnable(cfg, m, op) && op.pc.Claim? && Test(cfg.shape.capacity, m.avail, op.hint)
    ensures Leads(cfg, m, op, path, m, op.(pc := LoadNext))
  {
    path := StepLeads(cfg, m, op);
  }

  // A miss whose next hint names a bit that is set already costs one attempt.
  lemma MissTurn(cfg: Config, m: Mem, op: Op) returns (path: Trace)
    requires AtEnd(cfg, m, op) && BlockFull(cfg.shape.capacity, m.avail, op.hint / BLOCK)
    requires op.attempts + 1 < MaxAttempts(cfg)
    requires Test(cfg.shape.capacity, m.avail, NextHint(cfg, op))
    ensures Leads(cfg, m, op, path, m, op.(curr := INVALID, hint := NextHint(cfg, op), attempts := op.attempts + 1))
  {
    var op2 := op.(curr := INVALID, pc := Search);
    var op3 := op2.(hint := NextHint(cfg, op), attempts := op.attempts + 1, pc := Claim);
    var a := TurnStarts(cfg, m, op);
    var b := SearchMisses(cfg, m, op2);
    var c := ClaimLoses(cfg, m, op3);
    path := Joins(cfg, m, op, a, m, op2, b, m, op3);
    path := Joins(cfg, m, op, path, m, op3, c, m, op3.(pc := LoadNext));
  }

  lemma RaisesFlag(cfg: Config, m: Mem, op: Op) returns (path: Trace)
    requires Runnable(cfg, m, op) && op.pc.Fail?
    ensures Leads(cfg, m, op, path, m.(failed := true), op.(pc := Done))
  {
    path := StepLeads(cfg, m, op);
  }

  // The last miss raises the failed flag.
  lemma LastMiss(cfg: Config, m: Mem, op: Op) returns (path: Trace)
    requires AtEnd(cfg, m, op) && BlockFull(cfg.shape.capacity, m.avail, op.hint / BLOCK)
    requires op.attempts + 1 >= MaxAttempts(cfg)
    ensures Leads(cfg, m, op, path, m.(failed := true),
                  op.(curr := INVALID, hint := NextHint(cfg, op), attempts := op.attempts + 1, pc := Done))
  {
    var op2 := op.(curr := INVALID, pc := Search);
    var op3 := op2.(hint := NextHint(cfg, op), attempts := op.attempts + 1, pc := Fail);
    var a := TurnStarts(cfg, m, op);
    var b := SearchMisses(cfg, m, op2);
    var c := RaisesFlag(cfg, m, op3);
    path := Joins(cfg, m, op, a, m, op2, b, m, op3);
    path := Joins(cfg, m, op, path, m, op3, c, m.(failed := true), op3.(pc := Done));
  }

  // The chain has grown by one slot with another key: the walk passes it, and the hint becomes that slot.
  lemma WalkPastNewSlot(cfg: Config, m: Mem, op: Op, i: nat) returns (path: Trace)
    requires Runnable(cfg, m, op) && op.pc.LoadNext? && op.slot == INVALID
    requires Load(cfg.shape, m, op.ptr) == i < cfg.shape.capacity && m.keys[i] != op.key && m.next[i] == INVALID
    ensures Leads(cfg, m, op, path, m, op.(curr := i, hint := i, ptr := Next(i),
                                        result := op.result.(position := Increment(op.result.position))))
  {
    var op1 := op.(curr := i, pc := Compare);
    var a := StepLeads(cfg, m, op);
    var b := StepLeads(cfg, m, op1);
    path := Joins(cfg, m, op, a, m, op1, b, m, OpStep(cfg, m, op1).1);
  }

  /* ---------- A call up to its compare-and-swap ---------- */

  lemma CallRunnable(cfg: Config, m: Mem, op: Op)
    requires Sized(cfg.shape, m) && op == Call(cfg, op.key, op.value)
    ensures Runnable(cfg, m, op) && op.hint < cfg.shape.capacity
  {
    FirstHintInRange(cfg.shape, Bucket(cfg.shape, op.key));
    HintOfSlot(cfg.shape.capacity, op.hint);
  }

  // Reading the flags, and raising the modified one if it is down.
  lemma ReadsFlags(cfg: Config, m: Mem, op: Op) returns (path: Trace)
    requires Runnable(cfg, m, op) && op.pc.Enter? && !m.erasable
    ensures Leads(cfg, m, op, path, m.(modified := true), op.(pc := LoadNext))
  {
    var op1 := op.(pc := ReadModified);
    path := StepLeads(cfg, m, op);
    if m.modified {
      var b := StepLeads(cfg, m, op1);
      path := Joins(cfg, m, op, path, m, op1, b, m.(modified := true), op.(pc := LoadNext));
    } else {
      var op2 := op.(pc := MarkModified);
      var b := StepLeads(cfg, m, op1);
      var c := StepLeads(cfg, m, op2);
      path := Joins(cfg, m, op, path, m, op1, b, m, op2);
      path := Joins(cfg, m, op, path, m, op2, c, m.(modified := true), op.(pc := LoadNext));
    }
  }

  // The memory once call op has claimed bit i and written its pair.
  ghost function Claimed(m: Mem, op: Op, i: nat): Mem
    requires i < BLOCK * |m.avail| && i < |m.keys| && i < |m.values|
  {
    m.(avail := Update(m.avail, i, true), keys := m.keys[i := op.key], values := m.values[i := op.value])
  }

  lemma ClaimWins(cfg: Config, m: Mem, op: Op, i: nat) returns (path: Trace)
    requires Runnable(cfg, m, op) && op.pc.Claim? && op.hint == i < cfg.shape.capacity && !Test(cfg.shape.capacity, m.avail, i)
    ensures i < BLOCK * |m.avail|
    ensures Leads(cfg, m, op, path, m.(avail := Update(m.avail, i, true)), op.(slot := i, pc := WriteKey))
  {
    HintOfSlot(cfg.shape.capacity, i);
    path := StepLeads(cfg, m, op);
  }

  lemma SearchFinds(cfg: Config, m: Mem, op: Op, i: nat) returns (path: Trace)
    requires Runnable(cfg, m, op) && op.pc.Search?
    requires FindAnyUnsetNear(cfg.shape.capacity, m.avail, op.hint, Bucket(cfg.shape, op.key)) == (true, i)
    ensures Leads(cfg, m, op, path, m, op.(hint := i, pc := Claim))
  {
    path := StepLeads(cfg, m, op);
  }

  lemma ClaimsFound(cfg: Config, m: Mem, op: Op, i: nat) returns (path: Trace)
    requires Runnable(cfg, m, op) && op.pc.Search? && i < cfg.shape.capacity && !Test(cfg.shape.capacity, m.avail, i)
    requires FindAnyUnsetNear(cfg.shape.capacity, m.avail, op.hint, Bucket(cfg.shape, op.key)) == (true, i)
    ensures i < BLOCK * |m.avail| && i / BLOCK < BlockCount(cfg.shape.capacity)
    ensures Leads(cfg, m, op, path, m.(avail := Update(m.avail, i, true)), op.(hint := i, slot := i, pc := WriteKey))
  {
    var op1 := op.(hint := i, pc := Claim);
    HintOfSlot(cfg.shape.capacity, i);
    var a := SearchFinds(cfg, m, op, i);
    var b := ClaimWins(cfg, m, op1, i);
    path := Joins(cfg, m, op, a, m, op1, b, m.(avail := Update(m.avail, i, true)), op1.(slot := i, pc := WriteKey));
  }

  lemma WritesPair(cfg: Config, m: Mem, op: Op) returns (path: Trace)
    requires Runnable(cfg, m, op) && op.pc.WriteKey?
    ensures op.slot < |m.keys| && op.slot < |m.values|
    ensures Leads(cfg, m, op, path, m.(keys := m.keys[op.slot := op.key], values := m.values[op.slot := op.value]),
                  op.(pc := Append(false)))
  {
    var m1, op1 := m.(keys := m.keys[op.slot := op.key]), op.(pc := WriteValue);
    var a := StepLeads(cfg, m, op);
    var b := StepLeads(cfg, m1, op1);
    path := Joins(cfg, m, op, a, m1, op1, b, m1.(values := m.values[op.slot := op.value]), op.(pc := Append(false)));
  }

  lemma ClaimsAndWrites(cfg: Config, m: Mem, op: Op, i: nat) returns (path: Trace)
    requires Runnable(cfg, m, op) && op.pc.Search? && i < cfg.shape.capacity && !Test(cfg.shape.capacity, m.avail, i)
    requires FindAnyUnsetNear(cfg.shape.capacity, m.avail, op.hint, Bucket(cfg.shape, op.key)) == (true, i)
    ensures i < BLOCK * |m.avail| && i < |m.keys| && i < |m.values|
    ensures Leads(cfg, m, op, path, Claimed(m, op, i), op.(hint := i, slot := i, pc := Append(false)))
  {
    var m2, op2 := m.(avail := Update(m.avail, i, true)), op.(hint := i, slot := i, pc := WriteKey);
    var a := ClaimsFound(cfg, m, op, i);
    UpdateFrame(cfg.shape, m, i, true);
    var b := WritesPair(cfg, m2, op2);
    path := Joins(cfg, m, op, a, m2, op2, b, Claimed(m, op, i), op2.(pc := Append(false)));
  }

  // A search that hits finds a clear bit of the hinted block: the hinted one, if that is clear and the scan goes up.
  lemma SearchHits(cfg: Config, m: Mem, hint: nat, direction: nat) returns (i: nat)
    requires Sized(cfg.shape, m) && hint / BLOCK < |m.avail| && !BlockFull(cfg.shape.capacity, m.avail, hint / BLOCK)
    ensures FindAnyUnsetNear(cfg.shape.capacity, m.avail, hint, direction) == (true, i)
    ensures i / BLOCK == hint / BLOCK && i < cfg.shape.capacity && !Bit(m.avail, i)
    ensures !ScansInReverse(direction) && hint < cfg.shape.capacity && !Bit(m.avail, hint) ==> i == hint
  {
    FindAnyUnsetNearOutcome(cfg.shape.capacity, m.avail, hint, direction);
    i := FindAnyUnsetNear(cfg.shape.capacity, m.avail, hint, direction).1;
  }

  // A call in an empty bucket whose first block has a free bit claims one there, writes its pair, and is about to append.
  ghost predicate Prepared(cfg: Config, m: Mem, op: Op, i: nat, m': Mem, op': Op)
    requires Sized(cfg.shape, m)
  {
    && i < cfg.shape.capacity && i / BLOCK == op.hint / BLOCK && !Bit(m.avail, i)
    && (!ScansInReverse(Bucket(cfg.shape, op.key)) && op.hint < cfg.shape.capacity && !Bit(m.avail, op.hint) ==> i == op.hint)
    && m' == Claimed(m.(modified := true), op, i)
    && op' == op.(hint := i, slot := i, curr := INVALID, pc := Append(false))
  }

  lemma Prepares(cfg: Config, m: Mem, op: Op) returns (i: nat, path: Trace, m': Mem, op': Op)
    requires Sized(cfg.shape, m) && !m.erasable && op == Call(cfg, op.key, op.value)
    requires m.heads[Bucket(cfg.shape, op.key)] == INVALID && !BlockFull(cfg.shape.capacity, m.avail, op.hint / BLOCK)
    ensures Prepared(cfg, m, op, i, m', op') && Leads(cfg, m, op, path, m', op')
  {
    CallRunnable(cfg, m, op);
    var m1 := m.(modified := true);
    var op1, op2 := op.(pc := LoadNext), op.(curr := INVALID, pc := Search);
    var a := ReadsFlags(cfg, m, op);
    var b := TurnStarts(cfg, m1, op1);
    path := Joins(cfg, m, op, a, m1, op1, b, m1, op2);
    i := SearchHits(cfg, m1, op.hint, Bucket(cfg.shape, op.key));
    var c := ClaimsAndWrites(cfg, m1, op2, i);
    m', op' := Claimed(m1, op, i), op.(hint := i, slot := i, curr := INVALID, pc := Append(false));
    path := Joins(cfg, m, op, path, m1, op2, c, m', op');
  }

  lemma Appends(cfg: Config, m: Mem, op: Op, b: nat) returns (path: Trace)
    requires Runnable(cfg, m, op) && op.pc.Append? && op.ptr == Head(b) && m.heads[b] == INVALID
    ensures Leads(cfg, m, op, path, m.(heads := m.heads[b := op.slot]),
                  op.(pc := Done, result := Result(op.slot, Success, op.result.position)))
  {
    path := StepLeads(cfg, m, op);
  }

  /* ---------- Moves of one call as part of a run ---------- */

  ghost predicate Reaches(cfg: Config, s: State, u: State) {
    exists schedule :: Run(cfg, s, schedule) == u
  }

  lemma ReachesItself(cfg: Config, s: State)
    ensures Reaches(cfg, s, s)
  {
    assert Run(cfg, s, []) == s;
  }

  lemma Continues(cfg: Config, s: State, u: State, t: nat, path: Trace, m': Mem, op': Op)
    requires Reaches(cfg, s, u) && t < |u.ops| && Leads(cfg, u.mem, u.ops[t], path, m', op')
    ensures Reaches(cfg, s, State(m', u.ops[t := op']))
  {
    var past :| Run(cfg, s, past) == u;
    RunSplit(cfg, s, past, Repeat(t, |path| - 1));
    TraceRun(cfg, u, t, path, |path| - 1);
  }

  /* ---------- Two calls for one bucket ---------- */

  // Four blocks; only bit i of block 0 and some bits of block 3 are free. Calls 0 and 1 are about to insert into
  // bucket 0, whose chain is empty, and the hint of a third miss in block 3 names a bit that is set.
  ghost predicate NearlyFull(cfg: Config, s: State, i: nat, free: nat) {
    && Sized(cfg.shape, s.mem) && !cfg.bounded && cfg.shape.capacity == 4 * BLOCK && s.mem.modified && !s.mem.erasable
    && |s.ops| >= 2 && s.ops[0].key != s.ops[1].key
    && (forall t :: 0 <= t < 2 ==> s.ops[t] == Call(cfg, s.ops[t].key, s.ops[t].value) && Bucket(cfg.shape, s.ops[t].key) == 0)
    && i < BLOCK && !Bit(s.mem.avail, i) && s.mem.heads[0] == INVALID && s.mem.next[i] == INVALID
    && 3 * BLOCK < free < 4 * BLOCK && !Bit(s.mem.avail, free)
    && forall j: nat :: j <= 3 * BLOCK && j != i ==> Bit(s.mem.avail, j)
  }

  // With bit i taken the blocks 0, 1 and 2 are full.
  lemma ThreeFullBlocks(cfg: Config, s: State, i: nat, free: nat)
    requires NearlyFull(cfg, s, i, free)
    ensures var after := Update(s.mem.avail, i, true);
            && Fits(cfg.shape.capacity, after) && !Bit(after, free)
            && (forall j: nat :: j <= 3 * BLOCK ==> Test(cfg.shape.capacity, after, j))
            && (forall b: nat :: b < 3 ==> BlockFull(cfg.shape.capacity, after, b))
  {
    UpdateFrame(cfg.shape, s.mem, i, true);
    assert !Test(cfg.shape.capacity, s.mem.avail, free);
    var after := Update(s.mem.avail, i, true);
    assert !Test(cfg.shape.capacity, after, free);
    forall j: nat | j <= 3 * BLOCK
      ensures Test(cfg.shape.capacity, after, j)
    {
      assert j != i ==> Test(cfg.shape.capacity, s.mem.avail, j);
    }
    forall b: nat | b < 3
      ensures BlockFull(cfg.shape.capacity, after, b)
    {
      forall j: nat | b * BLOCK <= j < (b + 1) * BLOCK && j < cfg.shape.capacity
        ensures Bit(after, j)
      {
        assert Test(cfg.shape.capacity, after, j);
      }
    }
  }

  lemma BucketZero(cfg: Config, s: State, i: nat, free: nat)
    requires NearlyFull(cfg, s, i, free)
    ensures s.ops[0].hint == 0 && s.ops[1].hint == 0
    ensures Runnable(cfg, s.mem, s.ops[0]) && Runnable(cfg, s.mem, s.ops[1])
  {
    CallRunnable(cfg, s.mem, s.ops[0]);
    CallRunnable(cfg, s.mem, s.ops[1]);
  }

  // Call 1 claims bit i and writes its pair, and stops short of appending it.
  lemma HelperClaims(cfg: Config, s: State, i: nat, free: nat) returns (path: Trace)
    requires NearlyFull(cfg, s, i, free)
    ensures Leads(cfg, s.mem, s.ops[1], path, Claimed(s.mem, s.ops[1], i),
                  s.ops[1].(hint := i, slot := i, curr := INVALID, pc := Append(false)))
  {
    BucketZero(cfg, s, i, free);
    var j, m', op';
    j, path, m', op' := Prepares(cfg, s.mem, s.ops[1]);
    assert j < BLOCK && j == i;
  }

  // The first call misses in the blocks 0, 1 and 2, and each time the next hint names a bit that is set.
  lemma VictimMisses(cfg: Config, m: Mem, op: Op) returns (path: Trace)
    requires AtEnd(cfg, m, op) && !cfg.bounded && cfg.shape.capacity == 4 * BLOCK
    requires Bucket(cfg.shape, op.key) == 0 && op.hint == 0 && op.attempts == 0
    requires forall j: nat :: j <= 3 * BLOCK ==> Test(cfg.shape.capacity, m.avail, j)
    requires forall b: nat :: b < 3 ==> BlockFull(cfg.shape.capacity, m.avail, b)
    ensures Leads(cfg, m, op, path, m, op.(curr := INVALID, hint := 3 * BLOCK, attempts := 3))
  {
    var op1 := op.(curr := INVALID, hint := BLOCK, attempts := 1);
    var op2 := op1.(hint := 2 * BLOCK, attempts := 2);
    var a := VictimMiss(cfg, m, op);
    var b := VictimMiss(cfg, m, op1);
    var c := VictimMiss(cfg, m, op2);
    path := Joins(cfg, m, op, a, m, op1, b, m, op2);
    path := Joins(cfg, m, op, path, m, op2, c, m, op2.(hint := 3 * BLOCK, attempts := 3));
  }

  lemma VictimMiss(cfg: Config, m: Mem, op: Op) returns (path: Trace)
    requires AtEnd(cfg, m, op) && !cfg.bounded && cfg.shape.capacity == 4 * BLOCK
    requires Bucket(cfg.shape, op.key) == 0 && op.attempts < 3 && op.hint == op.attempts * BLOCK
    requires forall j: nat :: j <= 3 * BLOCK ==> Test(cfg.shape.capacity, m.avail, j)
    requires forall b: nat :: b < 3 ==> BlockFull(cfg.shape.capacity, m.avail, b)
    ensures Leads(cfg, m, op, path, m, op.(curr := INVALID, hint := op.hint + BLOCK, attempts := op.attempts + 1))
  {
    assert op.hint / BLOCK == op.attempts && op.hint % BLOCK == 0;
    assert NextHint(cfg, op) == op.hint + BLOCK;
    path := MissTurn(cfg, m, op);
  }

  /* ---------- The run ---------- */

  // Call 1 is about to append; call 0 has spent all attempts but one.
  ghost function BeforeAppend(s: State, i: nat): State
    requires |s.ops| >= 2 && i < BLOCK * |s.mem.avail| && i < |s.mem.keys| && i < |s.mem.values|
  {
    State(Claimed(s.mem, s.ops[1], i),
          s.ops[1 := s.ops[1].(hint := i, slot := i, curr := INVALID, pc := Append(false))]
               [0 := s.ops[0].(pc := LoadNext, curr := INVALID, hint := 3 * BLOCK, attempts := 3)])
  }

  lemma ReachesAppend(cfg: Config, s: State, i: nat, free: nat)
    requires NearlyFull(cfg, s, i, free)
    ensures Reaches(cfg, s, BeforeAppend(s, i))
  {
    var helper := s.ops[1].(hint := i, slot := i, curr := INVALID, pc := Append(false));
    var a := HelperClaims(cfg, s, i, free);
    ReachesItself(cfg, s);
    Continues(cfg, s, s, 1, a, Claimed(s.mem, s.ops[1], i), helper);
    var b := VictimWaits(cfg, s, i, free);
    var u := State(Claimed(s.mem, s.ops[1], i), s.ops[1 := helper]);
    Continues(cfg, s, u, 0, b, u.mem, BeforeAppend(s, i).ops[0]);
  }

  lemma VictimWaits(cfg: Config, s: State, i: nat, free: nat) returns (path: Trace)
    requires NearlyFull(cfg, s, i, free)
    ensures Leads(cfg, Claimed(s.mem, s.ops[1], i), s.ops[0], path, Claimed(s.mem, s.ops[1], i), BeforeAppend(s, i).ops[0])
  {
    BucketZero(cfg, s, i, free);
    ThreeFullBlocks(cfg, s, i, free);
    var m, op := Claimed(s.mem, s.ops[1], i), s.ops[0];
    var a := ReadsFlags(cfg, m, op);
    var b := VictimMisses(cfg, m, op.(pc := LoadNext));
    path := Joins(cfg, m, op, a, m, op.(pc := LoadNext), b, m, BeforeAppend(s, i).ops[0]);
  }

  lemma VictimFails(cfg: Config, m: Mem, op: Op, i: nat) returns (path: Trace, op': Op)
    requires Runnable(cfg, m, op) && op.pc.LoadNext? && op.slot == INVALID && op.result == Result(INVALID, Failed, 0)
    requires !cfg.bounded && cfg.shape.capacity == 4 * BLOCK && op.attempts == 3
    requires Load(cfg.shape, m, op.ptr) == i < BLOCK && m.keys[i] != op.key && m.next[i] == INVALID
    requires BlockFull(cfg.shape.capacity, m.avail, 0)
    ensures Leads(cfg, m, op, path, m.(failed := true), op') && OutcomeOf(op') == Refused
  {
    var op2 := op.(curr := i, hint := i, ptr := Next(i), result := op.result.(position := Increment(op.result.position)));
    var a := WalkPastNewSlot(cfg, m, op, i);
    var b := LastMiss(cfg, m, op2);
    op' := op2.(curr := INVALID, hint := NextHint(cfg, op2), attempts := op2.attempts + 1, pc := Done);
    path := Joins(cfg, m, op, a, m, op2, b, m.(failed := true), op');
  }

  // Call 0 was refused and call 1 served; no other call moved, and the bit is still free.
  ghost predicate LostWithRoom(s: State, end: State, i: nat, free: nat)
    requires |s.ops| >= 2 && i < BLOCK * |s.mem.avail| && i < |s.mem.keys| && i < |s.mem.values| && 0 < |s.mem.heads|
  {
    && |end.ops| == |s.ops| && (forall t :: 2 <= t < |s.ops| ==> end.ops[t] == s.ops[t])
    && OutcomeOf(end.ops[0]) == Refused && OutcomeOf(end.ops[1]) == Inserted(i)
    && end.mem == Claimed(s.mem, s.ops[1], i).(heads := s.mem.heads[0 := i], failed := true)
    && free < BLOCK * |end.mem.avail| && !Bit(end.mem.avail, free)
  }

  /** Two concurrent inserts of different keys, no bound on search attempts, room for both: under some schedule
      one of them fails and raises the failed flag while a bit is free from beginning to end. */
  lemma FailsWithRoomLeft(cfg: Config, s: State, i: nat, free: nat)
    requires NearlyFull(cfg, s, i, free)
    ensures exists schedule :: LostWithRoom(s, Run(cfg, s, schedule), i, free)
  {
    BucketZero(cfg, s, i, free);
    ThreeFullBlocks(cfg, s, i, free);
    ReachesAppend(cfg, s, i, free);
    var u := BeforeAppend(s, i);
    var winner := u.ops[1].(pc := Done, result := Result(i, Success, u.ops[1].result.position));
    var a := Appends(cfg, u.mem, u.ops[1], 0);
    var m := u.mem.(heads := u.mem.heads[0 := i]);
    Continues(cfg, s, u, 1, a, m, winner);
    var b, op' := VictimFails(cfg, m, u.ops[0], i);
    var w := State(m, u.ops[1 := winner]);
    Continues(cfg, s, w, 0, b, m.(failed := true), op');
    var end := State(m.(failed := true), w.ops[0 := op']);
    var schedule :| Run(cfg, s, schedule) == end;
    assert LostWithRoom(s, end, i, free);
  }
}
