/** Two insert phases on a new table that end badly. In the first, 98 unbounded inserts of different keys run in parallel
    into a table of capacity 128, as the copies of rehash do for 98 entries; all keys but two are in buckets of their
    own, and one pair is lost while 31 bits are free. In the second, three more calls follow, and one of them leaves a
    slot behind that holds another value than the entry of its key. */
module InsertLosses {
  import opened Bitset
  import opened MapMemory
  import opened InsertProtocol
  import opened InsertHistory
  import opened InsertBooks
  import opened InsertProgress
  import opened InsertHints
  import opened TableModel
  import opened RehashModel

  /* ---------- The bits of one block ---------- */

  lemma {:induction false} CountFull(w: Word, from: nat)
    requires from <= BLOCK
    ensures BitCountFrom(w, from) <= BLOCK - from
    ensures BitCountFrom(w, from) == BLOCK - from <==> forall k :: from <= k < BLOCK ==> w[k]
    decreases BLOCK - from
  {
    if from < BLOCK {
      CountFull(w, from + 1);
    }
  }

  lemma {:induction false} CountSet(w: Word, from: nat, k: nat)
    requires from <= BLOCK && k < BLOCK && !w[k]
    ensures BitCountFrom(w[k := true], from) == BitCountFrom(w, from) + if from <= k then 1 else 0
    decreases BLOCK - from
  {
    if from < BLOCK {
      CountSet(w, from + 1, k);
    }
  }

  // One bit short of full: the others are set.
  lemma OneShort(w: Word) returns (k: nat)
    requires BitCountFrom(w, 0) == BLOCK - 1
    ensures k < BLOCK && !w[k] && forall j :: 0 <= j < BLOCK && j != k ==> w[j]
  {
    CountFull(w, 0);
    k :| k < BLOCK && !w[k];
    CountSet(w, 0, k);
    CountFull(w[k := true], 0);
    forall j | 0 <= j < BLOCK && j != k ensures w[j] {
      assert w[k := true][j];
    }
  }

  function InBlock(blocks: seq<Word>, b: nat): nat
    requires b < |blocks|
  {
    BitCountFrom(blocks[b], 0)
  }

  lemma FullBlock(blocks: seq<Word>, b: nat)
    requires |blocks| == 4 && b < 4
    ensures InBlock(blocks, b) == BLOCK <==> BlockFull(4 * BLOCK, blocks, b)
  {
    CountFull(blocks[b], 0);
    if BlockFull(4 * BLOCK, blocks, b) {
      forall k | 0 <= k < BLOCK ensures blocks[b][k] {
        assert (b * BLOCK + k) / BLOCK == b && (b * BLOCK + k) % BLOCK == k;
        assert Bit(blocks, b * BLOCK + k);
      }
    }
  }

  lemma InBlockAfter(blocks: seq<Word>, i: nat, b: nat)
    requires i < BLOCK * |blocks| && b < |blocks| && !Bit(blocks, i)
    ensures InBlock(Update(blocks, i, true), b) == InBlock(blocks, b) + if i / BLOCK == b then 1 else 0
  {
    CountSet(blocks[i / BLOCK], 0, i % BLOCK);
  }

  lemma CountOfFour(blocks: seq<Word>)
    requires |blocks| == 4
    ensures Count(blocks) == InBlock(blocks, 0) + InBlock(blocks, 1) + InBlock(blocks, 2) + InBlock(blocks, 3)
  {
    assert blocks[..3][..2] == blocks[..2] && blocks[..2][..1] == blocks[..1] && blocks[..1][..0] == [];
    assert Count(blocks[..1]) == InBlock(blocks, 0) && Count(blocks[..2]) == Count(blocks[..1]) + InBlock(blocks, 1);
  }

  /* ---------- A new table and its calls ---------- */

  // The first entries of the source's list of primes.
  predicate SourcePrimes(primes: seq<nat>) {
    |primes| >= 7 && primes[..7] == [3, 7, 13, 23, 53, 97, 193]
  }

  // Capacity and buckets of the table that rehash makes for 98 entries.
  lemma SourceSizes(primes: seq<nat>)
    requires SourcePrimes(primes)
    ensures CalculateCapacity(98) == 4 * BLOCK && FindHashSize(primes, 4 * BLOCK) == 193
  {
    assert primes[..7][6] == 193;
    forall j | 0 <= j < 6 ensures primes[j] < 4 * BLOCK {
      assert primes[..7][j] == primes[j];
    }
    FirstLargeEnough(primes, 4 * BLOCK, 6);
  }

  // The bucket of call t: two calls share bucket 0; calls 2 .. 97 have buckets of their own, whose first hints lie
  // in the blocks 0, 1, 2, and for call 97 at bit 96; any later calls share bucket 150.
  function Home(t: nat): nat {
    if t < 2 then 0 else if t < 97 then t - 1 + 17 * ((t - 1) / BLOCK) else if t == 97 then 146 else 150
  }

  lemma HomesApart(t: nat, u: nat)
    requires 2 <= t <= 97 && t < u
    ensures 0 < Home(t) && Home(t) != Home(u)
  {
    assert (t - 1) / BLOCK <= (u - 1) / BLOCK;
  }

  // Just constructed, with unbounded calls about to start, as rehash makes them.
  ghost predicate NewTable(cfg: Config, s: State, primes: seq<nat>) {
    && SourcePrimes(primes) && ValidShape(cfg.shape) && !cfg.bounded
    && cfg.shape.capacity == CalculateCapacity(98) && cfg.shape.buckets == FindHashSize(primes, cfg.shape.capacity)
    && Blank(cfg.shape, s.mem) && (forall i: nat :: i < BLOCK * |s.mem.avail| ==> !Bit(s.mem.avail, i))
    && !s.mem.modified && !s.mem.erasable && !s.mem.failed
    && forall t :: 0 <= t < |s.ops| ==> s.ops[t] == Call(cfg, s.ops[t].key, s.ops[t].value) && Bucket(cfg.shape, s.ops[t].key) == Home(t)
  }

  lemma HomeHint(cfg: Config, t: nat)
    requires ValidShape(cfg.shape) && cfg.shape.capacity == 4 * BLOCK && cfg.shape.buckets == 193 && 2 <= t
    ensures FirstHint(cfg.shape, Home(t)) / BLOCK == if t < 97 then (t - 1) / BLOCK else 3
    ensures t == 97 ==> FirstHint(cfg.shape, Home(t)) == 3 * BLOCK
  {
    if t < 97 {
      var q, r := (t - 1) / BLOCK, (t - 1) % BLOCK;
      assert Home(t) == 49 * q + r && q <= 2;
    }
  }

  /* ---------- One call from its start to its end ---------- */

  // Call t has run alone: it took clear bit i, in the block of its first hint, and put the slot into its empty bucket.
  ghost predicate ServedAlone(cfg: Config, u: State, t: nat, i: nat, v: State)
    requires Sized(cfg.shape, u.mem) && t < |u.ops|
  {
    var op := u.ops[t];
    && i < cfg.shape.capacity && i / BLOCK == op.hint / BLOCK && !Bit(u.mem.avail, i)
    && (!ScansInReverse(Bucket(cfg.shape, op.key)) && op.hint < cfg.shape.capacity && !Bit(u.mem.avail, op.hint) ==> i == op.hint)
    && v.mem == Claimed(u.mem.(modified := true), op, i).(heads := u.mem.heads[Bucket(cfg.shape, op.key) := i])
    && |v.ops| == |u.ops| && v.ops == u.ops[t := v.ops[t]] && OutcomeOf(v.ops[t]) == Inserted(i)
  }

  lemma Serves(cfg: Config, s: State, u: State, t: nat) returns (i: nat, v: State)
    requires Reaches(cfg, s, u) && Sized(cfg.shape, u.mem) && !u.mem.erasable
    requires t < |u.ops| && u.ops[t] == Call(cfg, u.ops[t].key, u.ops[t].value)
    requires u.mem.heads[Bucket(cfg.shape, u.ops[t].key)] == INVALID
    requires !BlockFull(cfg.shape.capacity, u.mem.avail, u.ops[t].hint / BLOCK)
    ensures Reaches(cfg, s, v) && ServedAlone(cfg, u, t, i, v)
  {
    var op, b := u.ops[t], Bucket(cfg.shape, u.ops[t].key);
    var path, m1, op1;
    i, path, m1, op1 := Prepares(cfg, u.mem, op);
    Continues(cfg, s, u, t, path, m1, op1);
    var u1 := State(m1, u.ops[t := op1]);
    CallRunnable(cfg, u.mem, op);
    UpdateFrame(cfg.shape, u.mem, i, true);
    HintOfSlot(cfg.shape.capacity, i);
    var op2 := op1.(pc := Done, result := Result(i, Success, op1.result.position));
    path := Appends(cfg, m1, op1, b);
    Continues(cfg, s, u1, t, path, m1.(heads := m1.heads[b := i]), op2);
    v := State(m1.(heads := m1.heads[b := i]), u1.ops[t := op2]);
  }

  /* ---------- Filling the first three blocks ---------- */

  // How many of the calls 2 .. n - 1 have their first hint in block b.
  function Share(n: nat, b: nat): int {
    Clamp(n - 1 - BLOCK * b) - if b == 0 then 1 else 0
  }

  function Clamp(x: int): int {
    if x < 0 then 0 else if x < BLOCK then x else BLOCK
  }

  // The calls 2 .. n - 1 have been served one after the other; nothing else has moved.
  ghost predicate Filled(cfg: Config, s: State, u: State, n: nat) {
    && Sized(cfg.shape, u.mem) && |u.ops| == |s.ops| && !u.mem.failed && !u.mem.erasable && (n > 2 ==> u.mem.modified)
    && cfg.shape.capacity == 4 * BLOCK && cfg.shape.buckets == 193
    && (forall i :: 0 <= i < cfg.shape.capacity ==> u.mem.next[i] == INVALID)
    && (forall t :: 0 <= t < |s.ops| && (t < 2 || n <= t) ==> u.ops[t] == s.ops[t])
    && (forall t :: 0 <= t && (t < 2 || n <= t) ==> u.mem.heads[Home(t)] == INVALID)
    && (forall t :: 2 <= t < n && t < |s.ops| ==> OutcomeOf(u.ops[t]).Inserted?)
    && (forall b: nat :: b < 4 ==> InBlock(u.mem.avail, b) == if b == 3 then (if n > 97 then 1 else 0) else Share(n, b))
    && (n > 97 ==> Bit(u.mem.avail, 3 * BLOCK))
  }

  lemma NothingFilled(cfg: Config, s: State, primes: seq<nat>)
    requires NewTable(cfg, s, primes)
    ensures Filled(cfg, s, s, 2)
  {
    SourceSizes(primes);
    forall b: nat | b < 4 ensures InBlock(s.mem.avail, b) == 0 {
      forall k | 0 <= k < BLOCK ensures !s.mem.avail[b][k] {
        assert (b * BLOCK + k) / BLOCK == b && (b * BLOCK + k) % BLOCK == k;
        assert !Bit(s.mem.avail, b * BLOCK + k);
      }
      CountEmpty(s.mem.avail[b], 0);
    }
  }

  lemma {:induction false} CountEmpty(w: Word, from: nat)
    requires from <= BLOCK && forall k :: from <= k < BLOCK ==> !w[k]
    ensures BitCountFrom(w, from) == 0
    decreases BLOCK - from
  {
    if from < BLOCK {
      CountEmpty(w, from + 1);
    }
  }

  lemma FilledNext(cfg: Config, s: State, u: State, n: nat, i: nat, v: State)
    requires Filled(cfg, s, u, n) && 2 <= n <= 97 && n < |s.ops| && u.ops[n] == s.ops[n]
    requires Bucket(cfg.shape, s.ops[n].key) == Home(n) && s.ops[n].hint == FirstHint(cfg.shape, Home(n))
    requires ServedAlone(cfg, u, n, i, v)
    ensures Filled(cfg, s, v, n + 1)
  {
    HomeHint(cfg, n);
    forall b: nat | b < 4
      ensures InBlock(v.mem.avail, b) == if b == 3 then (if n + 1 > 97 then 1 else 0) else Share(n + 1, b)
    {
      InBlockAfter(u.mem.avail, i, b);
    }
    forall t | 0 <= t && (t < 2 || n + 1 <= t)
      ensures v.mem.heads[Home(t)] == INVALID
    {
      HomesApart(n, if t < 2 then 98 else t);
    }
    if n == 97 {
      LastIsFree(cfg, u.mem);
      UpdateAt(u.mem.avail, i, true, 3 * BLOCK);
    }
  }

  lemma LastIsFree(cfg: Config, m: Mem)
    requires Sized(cfg.shape, m) && cfg.shape.capacity == 4 * BLOCK && InBlock(m.avail, 3) == 0
    ensures !Bit(m.avail, 3 * BLOCK)
  {
    var w := m.avail[3];
    assert BitCountFrom(w, 0) == (if w[0] then 1 else 0) + BitCountFrom(w, 1);
  }

  lemma NextCanBeServed(cfg: Config, s: State, primes: seq<nat>, u: State, n: nat)
    requires NewTable(cfg, s, primes) && Filled(cfg, s, u, n) && 2 <= n <= 97 && n < |s.ops|
    ensures u.ops[n] == s.ops[n] == Call(cfg, s.ops[n].key, s.ops[n].value) && Bucket(cfg.shape, s.ops[n].key) == Home(n)
    ensures u.mem.heads[Home(n)] == INVALID && s.ops[n].hint == FirstHint(cfg.shape, Home(n))
    ensures s.ops[n].hint / BLOCK < 4 && !BlockFull(cfg.shape.capacity, u.mem.avail, s.ops[n].hint / BLOCK)
  {
    HomeHint(cfg, n);
    FullBlock(u.mem.avail, s.ops[n].hint / BLOCK);
  }

  lemma {:induction false} Fill(cfg: Config, s: State, primes: seq<nat>, n: nat) returns (u: State)
    requires NewTable(cfg, s, primes) && 2 <= n <= 98 <= |s.ops|
    ensures Reaches(cfg, s, u) && Filled(cfg, s, u, n)
  {
    if n == 2 {
      u := s;
      ReachesItself(cfg, s);
      NothingFilled(cfg, s, primes);
    } else {
      var before := Fill(cfg, s, primes, n - 1);
      NextCanBeServed(cfg, s, primes, before, n - 1);
      var i;
      i, u := Serves(cfg, s, before, n - 1);
      FilledNext(cfg, s, before, n - 1, i, u);
    }
  }

  // With only bit 96 set in the last block, the next bit is clear.
  lemma NextIsFree(blocks: seq<Word>)
    requires |blocks| == 4 && InBlock(blocks, 3) == 1 && Bit(blocks, 3 * BLOCK)
    ensures !Bit(blocks, 3 * BLOCK + 1)
  {
    var w := blocks[3];
    assert BitCountFrom(w, 0) == 1 + BitCountFrom(w, 1);
    assert BitCountFrom(w, 1) == (if w[1] then 1 else 0) + BitCountFrom(w, 2);
  }

  lemma FullBlocksBits(blocks: seq<Word>, i: nat)
    requires |blocks| == 4 && InBlock(blocks, 1) == BLOCK && InBlock(blocks, 2) == BLOCK && Bit(blocks, 3 * BLOCK)
    requires i < BLOCK && forall k :: 0 <= k < BLOCK && k != i ==> blocks[0][k]
    ensures forall j: nat :: j <= 3 * BLOCK && j != i ==> Bit(blocks, j)
  {
    CountFull(blocks[1], 0);
    CountFull(blocks[2], 0);
  }

  // After these 96 calls only one bit of the first three blocks is left.
  lemma FilledIsNearlyFull(cfg: Config, s: State, primes: seq<nat>, u: State) returns (i: nat)
    requires NewTable(cfg, s, primes) && |s.ops| >= 98 && s.ops[0].key != s.ops[1].key && Filled(cfg, s, u, 98)
    ensures NearlyFull(cfg, u, i, 3 * BLOCK + 1)
  {
    assert InBlock(u.mem.avail, 0) == Share(98, 0) && InBlock(u.mem.avail, 1) == Share(98, 1) && InBlock(u.mem.avail, 2) == Share(98, 2);
    i := OneShort(u.mem.avail[0]);
    FullBlocksBits(u.mem.avail, i);
    assert InBlock(u.mem.avail, 3) == 1;
    NextIsFree(u.mem.avail);
    assert u.mem.heads[Home(0)] == INVALID;
  }

  lemma FillAndLose(cfg: Config, s: State, primes: seq<nat>) returns (u: State, i: nat, end: State)
    requires NewTable(cfg, s, primes) && |s.ops| >= 98 && s.ops[0].key != s.ops[1].key
    ensures Filled(cfg, s, u, 98) && NearlyFull(cfg, u, i, 3 * BLOCK + 1)
    ensures LostWithRoom(u, end, i, 3 * BLOCK + 1) && Reaches(cfg, s, end)
  {
    u := Fill(cfg, s, primes, 98);
    i := FilledIsNearlyFull(cfg, s, primes, u);
    FailsWithRoomLeft(cfg, u, i, 3 * BLOCK + 1);
    var past :| Run(cfg, s, past) == u;
    var rest :| LostWithRoom(u, Run(cfg, u, rest), i, 3 * BLOCK + 1);
    RunSplit(cfg, s, past, rest);
    end := Run(cfg, u, rest);
  }

  /* ---------- A pair is lost ---------- */

  // All calls but the first are served, and its pair is missing although 31 bits are free.
  ghost predicate PairLost(cfg: Config, end: State, ch: Chains)
    requires WellChained(cfg.shape, end.mem, ch)
  {
    && |end.ops| > 0 && OutcomeOf(end.ops[0]) == Refused && (forall t :: 1 <= t < |end.ops| ==> OutcomeOf(end.ops[t]).Inserted?)
    && end.ops[0].key !in Contents(cfg.shape, end.mem, ch)
    && end.mem.failed && Count(end.mem.avail) + 31 == cfg.shape.capacity
  }

  lemma BitsAfterLoss(cfg: Config, s: State, u: State, i: nat, blocks: seq<Word>)
    requires Filled(cfg, s, u, 98) && i < BLOCK && !Bit(u.mem.avail, i) && blocks == Update(u.mem.avail, i, true)
    ensures InBlock(blocks, 3) == 1 && Count(blocks) + 31 == cfg.shape.capacity
  {
    forall b: nat | b < 4
      ensures InBlock(blocks, b) == if b == 3 then 1 else BLOCK
    {
      InBlockAfter(u.mem.avail, i, b);
    }
    CountOfFour(blocks);
    assert InBlock(blocks, 0) == InBlock(blocks, 1) == InBlock(blocks, 2) == BLOCK;
  }

  // A key whose only call was refused is not in the table.
  lemma KeyMissing(s: State, first: Atomic, a: Atomic)
    requires FirstWriterWins(s, first, a) && first.table == map[] && |s.ops| > 0 && a.outcomes[0] == Refused
    requires forall t :: 1 <= t < |s.ops| ==> s.ops[t].key != s.ops[0].key
    ensures s.ops[0].key !in a.table
  {
    assert s.ops[0].key in a.table ==> Explained(s, first, a, s.ops[0].key);
  }

  lemma OwnKey(cfg: Config, s: State, primes: seq<nat>, t: nat)
    requires NewTable(cfg, s, primes) && 1 <= t < |s.ops| <= 98 && s.ops[0].key != s.ops[1].key
    ensures s.ops[t].key != s.ops[0].key
  {
    if t >= 2 {
      HomesApart(t, 98);
    }
  }

  lemma NewStarts(cfg: Config, s: State, primes: seq<nat>)
    requires NewTable(cfg, s, primes)
    ensures Starting(cfg, s, NoChains(cfg.shape.buckets)) && SetBits(s.mem.avail) == {}
    ensures Contents(cfg.shape, s.mem, NoChains(cfg.shape.buckets)) == map[]
  {
    BlankTable(cfg.shape, s.mem);
  }

  /** The copies that rehash makes of 98 entries, in parallel and into the table it makes for 98 entries, can lose one:
      two keys share a bucket, the others have buckets of their own, and under some schedule one of the two calls fails
      while 31 of the 128 slots are free. */
  lemma LosesAPair(cfg: Config, s: State, primes: seq<nat>) returns (schedule: seq<nat>, ch: Chains)
    requires NewTable(cfg, s, primes) && |s.ops| == 98 && s.ops[0].key != s.ops[1].key
    ensures WellChained(cfg.shape, Run(cfg, s, schedule).mem, ch) && PairLost(cfg, Run(cfg, s, schedule), ch)
  {
    var first := NoChains(cfg.shape.buckets);
    var u, i, end := FillAndLose(cfg, s, primes);
    schedule :| Run(cfg, s, schedule) == end;
    NewStarts(cfg, s, primes);
    ch := RunFirstWriterWins(cfg, s, first, schedule);
    RunKeepsArguments(cfg, s, schedule);
    forall t | 1 <= t < |s.ops|
      ensures s.ops[t].key != s.ops[0].key
    {
      OwnKey(cfg, s, primes, t);
    }
    KeyMissing(s, Abstraction(cfg, s, first), Abstraction(cfg, end, ch));
    BitsAfterLoss(cfg, s, u, i, end.mem.avail);
  }

  /* ---------- A slot is left behind ---------- */

  // A call that holds a slot loses its compare-and-swap, passes the slot that was faster, and sees the failed flag.
  lemma HolderFollows(cfg: Config, m: Mem, op: Op, j: nat) returns (path: Trace)
    requires Runnable(cfg, m, op) && op.pc == Append(false) && op.slot != INVALID && m.failed
    requires Load(cfg.shape, m, op.ptr) == j < cfg.shape.capacity && m.keys[j] != op.key && m.next[j] == INVALID
    ensures Leads(cfg, m, op, path, m, op.(curr := INVALID, hint := j, ptr := Next(j), pc := Append(true),
                                        result := op.result.(position := Increment(op.result.position))))
  {
    var op1 := op.(pc := LoadNext);
    var op2 := op.(curr := j, pc := Compare);
    var op3 := op2.(hint := j, ptr := Next(j), pc := LoadNext, result := op.result.(position := Increment(op.result.position)));
    path := StepLeads(cfg, m, op);
    var b := StepLeads(cfg, m, op1);
    path := Joins(cfg, m, op, path, m, op1, b, m, op2);
    b := StepLeads(cfg, m, op2);
    HintOfSlot(cfg.shape.capacity, j);
    path := Joins(cfg, m, op, path, m, op2, b, m, op3);
    b := HolderSeesFlag(cfg, m, op3);
    path := Joins(cfg, m, op, path, m, op3, b, m, op3.(curr := INVALID, pc := Append(true)));
  }

  lemma HolderSeesFlag(cfg: Config, m: Mem, op: Op) returns (path: Trace)
    requires Runnable(cfg, m, op) && op.pc.LoadNext? && op.slot < cfg.shape.capacity && m.failed
    requires Load(cfg.shape, m, op.ptr) == INVALID
    ensures Leads(cfg, m, op, path, m, op.(curr := INVALID, pc := Append(true)))
  {
    var op1, op2 := op.(curr := INVALID, pc := Compare), op.(curr := INVALID, pc := CheckFailed);
    path := StepLeads(cfg, m, op);
    var b := StepLeads(cfg, m, op1);
    path := Joins(cfg, m, op, path, m, op1, b, m, op2);
    b := StepLeads(cfg, m, op2);
    path := Joins(cfg, m, op, path, m, op2, b, m, op.(curr := INVALID, pc := Append(true)));
  }

  // Call t has claimed slot i in the last block and written its pair; it is about to append the slot to its empty bucket.
  ghost predicate TookSlot(cfg: Config, w: State, t: nat, i: nat, v: State)
    requires t < |w.ops| && Sized(cfg.shape, w.mem) && cfg.shape.capacity == 4 * BLOCK
  {
    && Sized(cfg.shape, v.mem) && v.mem.heads == w.mem.heads && v.mem.next == w.mem.next
    && v.mem.failed == w.mem.failed && v.mem.erasable == w.mem.erasable
    && |v.ops| == |w.ops| && v.ops == w.ops[t := v.ops[t]]
    && v.ops[t] == w.ops[t].(hint := i, slot := i, curr := INVALID, pc := Append(false))
    && i < cfg.shape.capacity && v.mem.keys[i] == w.ops[t].key
    && InBlock(v.mem.avail, 3) == InBlock(w.mem.avail, 3) + 1
  }

  // A call for an empty bucket whose first hint is in the last block.
  ghost predicate LateCall(cfg: Config, w: State, t: nat) {
    && Sized(cfg.shape, w.mem) && cfg.shape.capacity == 4 * BLOCK && t < |w.ops|
    && w.ops[t] == Call(cfg, w.ops[t].key, w.ops[t].value) && w.ops[t].hint / BLOCK == 3
    && w.mem.heads[Bucket(cfg.shape, w.ops[t].key)] == INVALID && !w.mem.erasable
  }

  lemma TakesSlot(cfg: Config, s: State, w: State, t: nat) returns (i: nat, v: State)
    requires Reaches(cfg, s, w) && LateCall(cfg, w, t) && InBlock(w.mem.avail, 3) < BLOCK
    ensures Reaches(cfg, s, v) && TookSlot(cfg, w, t, i, v)
  {
    FullBlock(w.mem.avail, 3);
    var path, m', op';
    i, path, m', op' := Prepares(cfg, w.mem, w.ops[t]);
    Continues(cfg, s, w, t, path, m', op');
    InBlockAfter(w.mem.avail, i, 3);
    UpdateFrame(cfg.shape, w.mem, i, true);
    v := State(m', w.ops[t := op']);
  }

  lemma AppendsNext(cfg: Config, m: Mem, op: Op, j: nat) returns (path: Trace)
    requires Runnable(cfg, m, op) && op.pc.Append? && op.ptr == Next(j) && m.next[j] == INVALID
    ensures Leads(cfg, m, op, path, m.(next := m.next[j := op.slot]),
                  op.(pc := Done, result := Result(op.slot, Success, op.result.position)))
  {
    path := StepLeads(cfg, m, op);
  }

  lemma LosesLast(cfg: Config, m: Mem, op: Op) returns (path: Trace)
    requires Runnable(cfg, m, op) && op.pc == Append(true) && Load(cfg.shape, m, op.ptr) != INVALID
    ensures Leads(cfg, m, op, path, m, op.(pc := Done))
  {
    path := StepLeads(cfg, m, op);
  }

  // Three calls for one bucket; the outer two are for one key. All hold a slot and stand before the same empty head.
  ghost predicate BeforeRace(cfg: Config, v: State, a: nat, b: nat) {
    && Sized(cfg.shape, v.mem) && a + 2 < |v.ops| && b < cfg.shape.buckets && v.mem.failed
    && v.mem.heads[b] == INVALID && (forall t :: a <= t <= a + 2 ==> Racing(cfg, v.mem, v.ops[t], b))
    && v.ops[a].key != v.ops[a + 1].key && v.ops[a + 2].key != v.ops[a + 1].key
    && v.mem.keys[v.ops[a + 1].slot] == v.ops[a + 1].key
  }

  ghost predicate Racing(cfg: Config, m: Mem, op: Op, b: nat)
    requires Sized(cfg.shape, m)
  {
    && Runnable(cfg, m, op) && op.pc == Append(false) && op.ptr == Head(b) && op.slot < cfg.shape.capacity
    && m.next[op.slot] == INVALID && op.result == Result(INVALID, Failed, 0)
  }

  // The middle call appended first and the last one behind it; the first one gave up with its slot in hand.
  ghost predicate LeftBehind(v: State, a: nat, end: State) {
    && a + 2 < |v.ops| == |end.ops|
    && (forall t :: 0 <= t < |v.ops| && !(a <= t <= a + 2) ==> end.ops[t] == v.ops[t])
    && end.ops[a].pc.Done? && Holding(end.ops[a])
    && OutcomeOf(end.ops[a + 1]).Inserted? && OutcomeOf(end.ops[a + 2]).Inserted?
  }

  lemma Race(cfg: Config, s: State, v: State, a: nat, b: nat) returns (end: State)
    requires Reaches(cfg, s, v) && BeforeRace(cfg, v, a, b)
    ensures Reaches(cfg, s, end) && LeftBehind(v, a, end)
  {
    var j := v.ops[a + 1].slot;
    assert Racing(cfg, v.mem, v.ops[a], b) && Racing(cfg, v.mem, v.ops[a + 1], b) && Racing(cfg, v.mem, v.ops[a + 2], b);
    var path := Appends(cfg, v.mem, v.ops[a + 1], b);
    var m := v.mem.(heads := v.mem.heads[b := j]);
    var won := v.ops[a + 1].(pc := Done, result := Result(j, Success, v.ops[a + 1].result.position));
    Continues(cfg, s, v, a + 1, path, m, won);
    var first, last := Followed(v.ops[a], j), Followed(v.ops[a + 2], j);
    path := HolderFollows(cfg, m, v.ops[a], j);
    Continues(cfg, s, State(m, v.ops[a + 1 := won]), a, path, m, first);
    path := HolderFollows(cfg, m, v.ops[a + 2], j);
    Continues(cfg, s, State(m, v.ops[a + 1 := won][a := first]), a + 2, path, m, last);
    end := RaceEnds(cfg, s, State(m, v.ops[a + 1 := won][a := first][a + 2 := last]), a, j);
  }

  // A call that has followed its bucket's first slot j.
  function Followed(op: Op, j: nat): Op {
    op.(curr := INVALID, hint := j, ptr := Next(j), pc := Append(true), result := op.result.(position := Increment(op.result.position)))
  }

  lemma RaceEnds(cfg: Config, s: State, w: State, a: nat, j: nat) returns (end: State)
    requires Reaches(cfg, s, w) && a + 2 < |w.ops| && j < cfg.shape.capacity
    requires Runnable(cfg, w.mem, w.ops[a]) && w.ops[a].pc == Append(true) && w.ops[a].ptr == Next(j)
    requires Runnable(cfg, w.mem, w.ops[a + 2]) && w.ops[a + 2].pc == Append(true) && w.ops[a + 2].ptr == Next(j)
    requires w.mem.next[j] == INVALID && OutcomeOf(w.ops[a + 1]).Inserted? && w.ops[a].result.status.Failed?
    ensures Reaches(cfg, s, end) && LeftBehind(w, a, end)
  {
    var l := w.ops[a + 2].slot;
    var path := AppendsNext(cfg, w.mem, w.ops[a + 2], j);
    var m := w.mem.(next := w.mem.next[j := l]);
    var won := w.ops[a + 2].(pc := Done, result := Result(l, Success, w.ops[a + 2].result.position));
    Continues(cfg, s, w, a + 2, path, m, won);
    path := LosesLast(cfg, m, w.ops[a]);
    Continues(cfg, s, State(m, w.ops[a + 2 := won]), a, path, m, w.ops[a].(pc := Done));
    end := State(m, w.ops[a + 2 := won][a := w.ops[a].(pc := Done)]);
  }

  // After the failure of call 0 the calls from 98 on still find an empty bucket and a nearly empty last block.
  ghost predicate AfterLoss(cfg: Config, s: State, w: State) {
    && Sized(cfg.shape, w.mem) && cfg.shape.capacity == 4 * BLOCK && 150 < cfg.shape.buckets && |w.ops| == |s.ops|
    && w.mem.failed && !w.mem.erasable && w.mem.heads[150] == INVALID && InBlock(w.mem.avail, 3) == 1
    && (forall i :: 0 <= i < cfg.shape.capacity ==> w.mem.next[i] == INVALID)
    && (forall t :: 0 <= t < 98 && t < |s.ops| ==> w.ops[t].pc.Done?)
    && (forall t :: 98 <= t < |s.ops| ==> w.ops[t] == s.ops[t])
  }

  lemma LossLeaves(cfg: Config, s: State, u: State, i: nat, w: State)
    requires Filled(cfg, s, u, 98) && |s.ops| >= 98 && NearlyFull(cfg, u, i, 3 * BLOCK + 1)
    requires LostWithRoom(u, w, i, 3 * BLOCK + 1)
    ensures AfterLoss(cfg, s, w)
  {
    BitsAfterLoss(cfg, s, u, i, w.mem.avail);
    assert u.mem.heads[Home(98)] == INVALID;
    forall t | 0 <= t < 98
      ensures w.ops[t].pc.Done?
    {
      assert t >= 2 ==> OutcomeOf(u.ops[t]).Inserted?;
    }
  }

  lemma LateCalls(cfg: Config, s: State, primes: seq<nat>, w: State, t: nat)
    requires NewTable(cfg, s, primes) && AfterLoss(cfg, s, w) && 98 <= t < |s.ops|
    ensures LateCall(cfg, w, t) && Bucket(cfg.shape, w.ops[t].key) == 150
  {
    SourceSizes(primes);
    HomeHint(cfg, t);
  }

  lemma HoldThree(cfg: Config, s: State, primes: seq<nat>, w: State) returns (v: State)
    requires NewTable(cfg, s, primes) && |s.ops| == 101 && Reaches(cfg, s, w) && AfterLoss(cfg, s, w)
    requires s.ops[98].key != s.ops[99].key && s.ops[100].key != s.ops[99].key
    ensures Reaches(cfg, s, v) && BeforeRace(cfg, v, 98, 150) && |v.ops| == 101
    ensures forall t :: 0 <= t < 98 ==> v.ops[t] == w.ops[t]
  {
    LateCalls(cfg, s, primes, w, 98);
    LateCalls(cfg, s, primes, w, 99);
    LateCalls(cfg, s, primes, w, 100);
    var i, v1 := TakesSlot(cfg, s, w, 98);
    var l, v2 := TakesSlot(cfg, s, v1, 100);
    var j;
    j, v := TakesSlot(cfg, s, v2, 99);
    ThreeRacing(cfg, w, i, v1, l, v2, j, v);
  }

  lemma ThreeRacing(cfg: Config, w: State, i: nat, v1: State, l: nat, v2: State, j: nat, v: State)
    requires |w.ops| == 101 && LateCall(cfg, w, 98) && LateCall(cfg, w, 99) && LateCall(cfg, w, 100) && w.mem.failed
    requires forall t :: 98 <= t <= 100 ==> Bucket(cfg.shape, w.ops[t].key) == 150
    requires forall x :: 0 <= x < cfg.shape.capacity ==> w.mem.next[x] == INVALID
    requires w.ops[98].key != w.ops[99].key && w.ops[100].key != w.ops[99].key
    requires TookSlot(cfg, w, 98, i, v1) && TookSlot(cfg, v1, 100, l, v2) && TookSlot(cfg, v2, 99, j, v)
    ensures BeforeRace(cfg, v, 98, 150)
  {
    HintOfSlot(cfg.shape.capacity, i);
    HintOfSlot(cfg.shape.capacity, j);
    HintOfSlot(cfg.shape.capacity, l);
  }

  // The slot that call a holds has another value than the entry of its key.
  ghost predicate StaleSlot(cfg: Config, end: State, ch: Chains, a: nat)
    requires WellChained(cfg.shape, end.mem, ch)
  {
    && a < |end.ops| && end.ops[a].slot in Leaked(end) && end.ops[a].slot < cfg.shape.capacity
    && var i, table := end.ops[a].slot, Contents(cfg.shape, end.mem, ch);
       end.mem.keys[i] in table && table[end.mem.keys[i]].1 != end.mem.values[i]
  }

  lemma LeftBehindIsStale(cfg: Config, end: State, ch: Chains, walked: seq<nat>, a: nat, c: nat)
    requires Inv(cfg, end, ch, walked) && a < |end.ops| && c < |end.ops|
    requires end.ops[a].pc.Done? && Holding(end.ops[a]) && OutcomeOf(end.ops[c]).Inserted?
    requires end.ops[a].key == end.ops[c].key && end.ops[a].value != end.ops[c].value
    ensures StaleSlot(cfg, end, ch, a)
  {
    assert OpInv(cfg, end.mem, ch, end.ops[a], walked[a]) && OpInv(cfg, end.mem, ch, end.ops[c], walked[c]);
    ChainedAt(ch, Bucket(cfg.shape, end.ops[c].key), walked[c]);
    ContentsAt(cfg.shape, end.mem, ch, end.ops[c].result.index);
  }

  lemma StaleMeansDisagree(cfg: Config, end: State, ch: Chains, walked: seq<nat>, strays: set<nat>, a: nat)
    requires Inv(cfg, end, ch, walked) && Booked(end, ch, strays) && StaleSlot(cfg, end, ch, a)
    ensures !StraysAgree(cfg.shape, end.mem, ch)
  {
    RestingBits(cfg, end, ch, walked, strays);
    LiveIsContents(cfg.shape, end.mem, ch);
    assert end.ops[a].slot in Strays(end.mem, ch);
  }

  // Everyone has returned; call 98 holds a slot and call 100 was served.
  ghost predicate SlotKept(end: State) {
    && |end.ops| == 101 && AtRest(end)
    && Holding(end.ops[98]) && OutcomeOf(end.ops[100]).Inserted?
  }

  lemma ReachesLeftBehind(cfg: Config, s: State, primes: seq<nat>) returns (end: State)
    requires NewTable(cfg, s, primes) && |s.ops| == 101 && s.ops[0].key != s.ops[1].key
    requires s.ops[98].key != s.ops[99].key && s.ops[100].key != s.ops[99].key
    ensures Reaches(cfg, s, end) && SlotKept(end)
  {
    var u, i, w := FillAndLose(cfg, s, primes);
    LossLeaves(cfg, s, u, i, w);
    var v := HoldThree(cfg, s, primes, w);
    end := Race(cfg, s, v, 98, 150);
    AllReturned(w, v, end);
  }

  lemma AllReturned(w: State, v: State, end: State)
    requires |w.ops| == |v.ops| == 101 && LeftBehind(v, 98, end)
    requires forall t :: 0 <= t < 98 ==> w.ops[t].pc.Done? && v.ops[t] == w.ops[t]
    ensures SlotKept(end)
  {
    forall t | 0 <= t < |end.ops|
      ensures end.ops[t].pc.Done?
    {
      assert t < 98 || t == 98 || t == 99 || t == 100;
    }
  }

  lemma EndIsStale(cfg: Config, s: State, primes: seq<nat>, schedule: seq<nat>) returns (ch: Chains)
    requires NewTable(cfg, s, primes) && SlotKept(Run(cfg, s, schedule))
    requires var end := Run(cfg, s, schedule); end.ops[98].key == end.ops[100].key && end.ops[98].value != end.ops[100].value
    ensures WellChained(cfg.shape, Run(cfg, s, schedule).mem, ch)
    ensures StaleSlot(cfg, Run(cfg, s, schedule), ch, 98) && !StraysAgree(cfg.shape, Run(cfg, s, schedule).mem, ch)
  {
    NewStarts(cfg, s, primes);
    var walked;
    ch, walked := RunBooked(cfg, s, NoChains(cfg.shape.buckets), schedule);
    LeftBehindIsStale(cfg, Run(cfg, s, schedule), ch, walked, 98, 100);
    StaleMeansDisagree(cfg, Run(cfg, s, schedule), ch, walked, Strays(s.mem, NoChains(cfg.shape.buckets)), 98);
  }

  /** After the failed phase on a new table, three more calls for one bucket can leave a slot behind that holds another
      value than the entry of its key: a leak, and one that rehash may prefer to the entry. */
  lemma LeavesStaleSlot(cfg: Config, s: State, primes: seq<nat>) returns (schedule: seq<nat>, ch: Chains)
    requires NewTable(cfg, s, primes) && |s.ops| == 101 && s.ops[0].key != s.ops[1].key
    requires s.ops[98].key == s.ops[100].key != s.ops[99].key && s.ops[98].value != s.ops[100].value
    ensures var end := Run(cfg, s, schedule);
            && AtRest(end) && WellChained(cfg.shape, end.mem, ch)
            && StaleSlot(cfg, end, ch, 98) && !StraysAgree(cfg.shape, end.mem, ch)
  {
    var end := ReachesLeftBehind(cfg, s, primes);
    schedule :| Run(cfg, s, schedule) == end;
    RunKeepsArguments(cfg, s, schedule);
    ch := EndIsStale(cfg, s, primes, schedule);
  }
}
