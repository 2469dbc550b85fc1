/** When a concurrent insert may fail, for any number of calls with any keys under every schedule. A call spends an
    attempt on a block in which every bit is, or was, set; between two slots that other keys append to its chain it
    searches no block twice. So it needs enough such slots and enough such blocks to run out of attempts. InsertLosses
    gives a run in which both are there. */
module InsertRoom {
  import opened Bitset
  import opened MapMemory
  import opened InsertProtocol
  import opened InsertHistory
  import opened InsertBooks
  import opened TableModel
  import opened Counting

  /* ---------- What has grown since the start ---------- */

  // Slot i was appended by some call of this phase.
  ghost predicate Appender(ops: seq<Op>, i: nat) {
    exists w :: 0 <= w < |ops| && Won(ops[w]) && ops[w].slot == i
  }

  // The call has walked the whole chain as it was at the start.
  ghost predicate PastStart(sh: Shape, first: Chains, op: Op, p: nat)
    requires ValidShape(sh) && |first| == sh.buckets
  {
    (op.pc.Compare? && op.curr == INVALID) || op.pc.Search? || op.pc.Fail? || op.pc.Claim? || op.slot != INVALID ==>
      p >= |first[Bucket(sh, op.key)]|
  }

  ghost predicate Grown(cfg: Config, first: Chains, s: State, ch: Chains, walked: seq<nat>)
    requires ValidShape(cfg.shape) && |first| == cfg.shape.buckets
  {
    && |ch| == |first| && |walked| == |s.ops|
    && (forall b :: 0 <= b < |ch| ==> first[b] <= ch[b])
    && (forall b, j :: 0 <= b < |ch| && |first[b]| <= j < |ch[b]| ==> Appender(s.ops, ch[b][j]))
    && (forall u :: 0 <= u < |s.ops| ==> PastStart(cfg.shape, first, s.ops[u], walked[u]))
  }

  lemma AppenderStays(ops: seq<Op>, t: nat, op': Op, i: nat)
    requires t < |ops| && Appender(ops, i) && (Won(ops[t]) ==> op' == ops[t])
    ensures Appender(ops[t := op'], i)
  {
    var w :| 0 <= w < |ops| && Won(ops[w]) && ops[w].slot == i;
    assert Won(ops[t := op'][w]);
  }

  lemma StepPastStart(cfg: Config, first: Chains, s: State, ch: Chains, walked: seq<nat>, t: nat)
    requires Inv(cfg, s, ch, walked) && t < |s.ops| && AllRunnable(cfg, s)
    requires |first| == cfg.shape.buckets && Grown(cfg, first, s, ch, walked)
    ensures PastStart(cfg.shape, first, Step(cfg, s, t).ops[t], WalkedAfter(cfg, s.mem, s.ops[t], walked[t]))
  {
    var b := Bucket(cfg.shape, s.ops[t].key);
    assert OpInv(cfg, s.mem, ch, s.ops[t], walked[t]) && PastStart(cfg.shape, first, s.ops[t], walked[t]);
    LoadAlongChain(cfg.shape, s.mem, ch, b, walked[t]);
    ChainLoads(cfg.shape, s.mem, ch, b, walked[t]);
    assert first[b] <= ch[b];
  }

  lemma StepGrown(cfg: Config, first: Chains, s: State, ch: Chains, walked: seq<nat>, t: nat)
    requires Inv(cfg, s, ch, walked) && t < |s.ops| && AllRunnable(cfg, s)
    requires |first| == cfg.shape.buckets && Grown(cfg, first, s, ch, walked)
    ensures Grown(cfg, first, Step(cfg, s, t), ChainsAfter(cfg, s.mem, s.ops[t], ch),
                  walked[t := WalkedAfter(cfg, s.mem, s.ops[t], walked[t])])
  {
    var s', ch' := Step(cfg, s, t), ChainsAfter(cfg, s.mem, s.ops[t], ch);
    StepPastStart(cfg, first, s, ch, walked, t);
    forall b, j | 0 <= b < |ch'| && |first[b]| <= j < |ch'[b]|
      ensures Appender(s'.ops, ch'[b][j])
    {
      if j < |ch[b]| {
        AppenderStays(s.ops, t, s'.ops[t], ch[b][j]);
      } else {
        assert Won(s'.ops[t]) && s'.ops[t].slot == ch'[b][j];
      }
    }
  }

  /* ---------- Bits that were ever set ---------- */

  ghost function Taken(ops: seq<Op>): set<nat> {
    set w | 0 <= w < |ops| && ops[w].slot != INVALID :: ops[w].slot
  }

  // The bits set at the start and those claimed since, released or not.
  ghost function Ever(m0: Mem, ops: seq<Op>): set<nat> {
    SetBits(m0.avail) + Taken(ops)
  }

  // A call keeps the number of the slot it claimed.
  lemma StepTaken(cfg: Config, s: State, ch: Chains, walked: seq<nat>, t: nat)
    requires Inv(cfg, s, ch, walked) && t < |s.ops| && AllRunnable(cfg, s)
    ensures Taken(s.ops) <= Taken(Step(cfg, s, t).ops)
    ensures forall i :: i in SetBits(Step(cfg, s, t).mem.avail) ==> i in SetBits(s.mem.avail) || i in Taken(Step(cfg, s, t).ops)
  {
    var op, s' := s.ops[t], Step(cfg, s, t);
    assert OpInv(cfg, s.mem, ch, op, walked[t]);
    forall i | i in Taken(s.ops) ensures i in Taken(s'.ops) {
      var w :| 0 <= w < |s.ops| && s.ops[w].slot != INVALID && s.ops[w].slot == i;
      assert s'.ops[w].slot == i;
    }
    if op.pc.Claim? && op.hint < cfg.shape.capacity && !Test(cfg.shape.capacity, s.mem.avail, op.hint) {
      SetBitsAfter(s.mem.avail, op.hint, true);
      assert s'.ops[t].slot == op.hint;
    } else if op.pc.Release? && op.slot != INVALID {
      SetBitsAfter(s.mem.avail, op.slot, false);
    }
  }

  /* ---------- Blocks whose bits were all set ---------- */

  ghost predicate BlockTaken(size: nat, ever: set<nat>, b: nat) {
    forall i: nat :: b * BLOCK <= i < (b + 1) * BLOCK && i < size ==> i in ever
  }

  ghost function BlocksTaken(size: nat, ever: set<nat>): set<nat> {
    set b: nat | b < BlockCount(size) && BlockTaken(size, ever, b)
  }

  lemma MoreTaken(size: nat, ever: set<nat>, ever': set<nat>)
    requires ever <= ever'
    ensures BlocksTaken(size, ever) <= BlocksTaken(size, ever')
    ensures |BlocksTaken(size, ever)| <= |BlocksTaken(size, ever')|
  {
    SubsetSize(BlocksTaken(size, ever), BlocksTaken(size, ever'));
  }

  // The first r blocks of a row of misses.
  ghost function Missed(n: nat, start: nat, direction: nat, r: nat): set<nat>
    requires start < n
  {
    if r == 0 then {} else Missed(n, start, direction, r - 1) + {MissBlock(n, start, direction, r - 1)}
  }

  lemma {:induction false} MissedApart(n: nat, start: nat, direction: nat, r: nat, k: nat)
    requires start < n && r <= k < n
    ensures MissBlock(n, start, direction, k) !in Missed(n, start, direction, r)
  {
    if r > 0 {
      MissedApart(n, start, direction, r - 1, k);
      MissesCoverEveryBlock(n, start, direction, 0);
    }
  }

  // At most as many misses in a row as blocks go through different blocks.
  lemma {:induction false} MissedSize(n: nat, start: nat, direction: nat, r: nat)
    requires start < n && r <= n
    ensures |Missed(n, start, direction, r)| == r
  {
    if r > 0 {
      MissedSize(n, start, direction, r - 1);
      MissedApart(n, start, direction, r - 1, r - 1);
    }
  }

  // A block that was searched in vain has all its bits set.
  lemma MissTaken(size: nat, blocks: seq<Word>, hint: nat, direction: nat, ever: set<nat>)
    requires Fits(size, blocks) && hint / BLOCK < |blocks| && SetBits(blocks) <= ever
    requires !FindAnyUnsetNear(size, blocks, hint, direction).0
    ensures hint / BLOCK in BlocksTaken(size, ever)
    ensures FindAnyUnsetNear(size, blocks, hint, direction).1 / BLOCK == NextBlock(|blocks|, hint / BLOCK, direction)
  {
    FindAnyUnsetNearOutcome(size, blocks, hint, direction);
    forall i: nat | hint / BLOCK * BLOCK <= i < (hint / BLOCK + 1) * BLOCK && i < size
      ensures i in ever
    {
      assert Bit(blocks, i);
      assert i in SetBits(blocks);
    }
  }

  /* ---------- How far a call has got ---------- */

  // k rounds through f blocks.
  function Rounds(k: nat, f: nat): nat {
    if k == 0 then 0 else Rounds(k - 1, f) + f
  }

  lemma {:induction false} RoundsIs(k: nat, f: nat)
    ensures Rounds(k, f) == k * f
  {
    if k > 0 {
      RoundsIs(k - 1, f);
      assert k * f == (k - 1) * f + f;
    }
  }

  lemma {:induction false} RoundsGrow(k: nat, k': nat, f: nat, f': nat)
    requires k <= k' && f <= f'
    ensures Rounds(k, f) <= Rounds(k', f')
  {
    if k > 0 {
      RoundsGrow(k - 1, k' - 1, f, f');
    }
  }

  // The slots appended to the chain since it had n0, as far as the call has walked.
  function NewSlots(n0: nat, p: nat): nat {
    if p <= n0 then 0 else p - n0
  }

  // Where the searches start behind the first p slots of the chain.
  function SearchStart(sh: Shape, b: nat, c: seq<nat>, p: nat): nat
    requires ValidShape(sh) && p <= |c|
  {
    if p == 0 then FirstHint(sh, b) else c[p - 1]
  }

  // How many blocks a call may search in vain: all of them, or 32 where a bounded table has more.
  function SearchLimit(cfg: Config): nat {
    var n := BlockCount(cfg.shape.capacity);
    if cfg.bounded && n > 32 then 32 else n
  }

  // The blocks of the r misses in a row behind the first p slots of the chain.
  ghost function Row(cfg: Config, op: Op, c: seq<nat>, p: nat, r: nat): set<nat>
    requires ValidShape(cfg.shape) && p <= |c|
  {
    var b, n := Bucket(cfg.shape, op.key), BlockCount(cfg.shape.capacity);
    if SearchStart(cfg.shape, b, c, p) / BLOCK < n then Missed(n, SearchStart(cfg.shape, b, c, p) / BLOCK, b, r) else {}
  }

  // The call holds no slot. Since it stands behind p slots it has missed r times in a row.
  ghost predicate Searching(cfg: Config, n0: nat, c: seq<nat>, ever: set<nat>, op: Op, p: nat, r: nat)
    requires ValidShape(cfg.shape)
  {
    var b, n := Bucket(cfg.shape, op.key), BlockCount(cfg.shape.capacity);
    && n0 <= |c| && p <= |c| && r <= op.attempts <= SearchLimit(cfg) && (p < n0 ==> op.attempts == 0)
    && op.attempts <= Rounds(NewSlots(n0, p), |BlocksTaken(cfg.shape.capacity, ever)|) + r
    && SearchStart(cfg.shape, b, c, p) / BLOCK < n
    && Row(cfg, op, c, p, r) <= BlocksTaken(cfg.shape.capacity, ever)
    && op.hint / BLOCK == MissBlock(n, SearchStart(cfg.shape, b, c, p) / BLOCK, b, r)
    && (op.pc.Fail? <==> op.attempts == SearchLimit(cfg))
  }

  // The call holds a slot. It has come past the end of its chain only behind a slot appended meanwhile.
  ghost predicate Racing(n0: nat, c: seq<nat>, op: Op, p: nat) {
    && n0 <= p
    && (op.pc.LoadNext? ==> n0 < p || p < |c|)
    && (op.pc.Compare? ==> n0 < p || op.curr != INVALID)
    && (op.pc.CheckFailed? || op.pc == Append(true) || (op.pc.Done? && op.result.status.Failed?) ==> n0 < p)
  }

  // The call gave up without a slot: its rounds reach the limit, the first of them already if no slot was new.
  ghost predicate SpentAll(cfg: Config, n0: nat, c: seq<nat>, ever: set<nat>, op: Op, p: nat)
    requires ValidShape(cfg.shape)
  {
    && n0 <= p <= |c| && SearchLimit(cfg) <= Rounds(p - n0 + 1, |BlocksTaken(cfg.shape.capacity, ever)|)
    && (p == n0 ==> Row(cfg, op, c, p, SearchLimit(cfg)) <= BlocksTaken(cfg.shape.capacity, ever))
  }

  ghost predicate Roomy(cfg: Config, n0: nat, c: seq<nat>, ever: set<nat>, op: Op, p: nat, r: nat)
    requires ValidShape(cfg.shape)
  {
    && (!op.pc.Done? && op.slot == INVALID ==> Searching(cfg, n0, c, ever, op, p, r))
    && (op.slot != INVALID ==> Racing(n0, c, op, p))
    && (op.pc.Done? && op.result.status.Failed? && op.slot == INVALID ==> SpentAll(cfg, n0, c, ever, op, p))
  }

  // Others only append to the chain and set more bits.
  lemma RoomyStays(cfg: Config, n0: nat, c: seq<nat>, c': seq<nat>, ever: set<nat>, ever': set<nat>, op: Op, p: nat, r: nat)
    requires ValidShape(cfg.shape) && c <= c' && ever <= ever' && p <= |c| && Roomy(cfg, n0, c, ever, op, p, r)
    ensures Roomy(cfg, n0, c', ever', op, p, r)
  {
    var f, f' := |BlocksTaken(cfg.shape.capacity, ever)|, |BlocksTaken(cfg.shape.capacity, ever')|;
    MoreTaken(cfg.shape.capacity, ever, ever');
    RoundsGrow(NewSlots(n0, p), NewSlots(n0, p), f, f');
    if n0 <= p {
      RoundsGrow(p - n0 + 1, p - n0 + 1, f, f');
    }
    assert SearchStart(cfg.shape, Bucket(cfg.shape, op.key), c', p) == SearchStart(cfg.shape, Bucket(cfg.shape, op.key), c, p);
  }

  // The misses in a row go through as many blocks.
  lemma RowBound(cfg: Config, n0: nat, c: seq<nat>, ever: set<nat>, op: Op, p: nat, r: nat)
    requires ValidShape(cfg.shape) && Searching(cfg, n0, c, ever, op, p, r)
    ensures r <= |BlocksTaken(cfg.shape.capacity, ever)|
    ensures n0 <= p ==> op.attempts <= Rounds(p - n0 + 1, |BlocksTaken(cfg.shape.capacity, ever)|)
    ensures n0 == p ==> r == op.attempts
  {
    var b, n := Bucket(cfg.shape, op.key), BlockCount(cfg.shape.capacity);
    MissedSize(n, SearchStart(cfg.shape, b, c, p) / BLOCK, b, r);
    SubsetSize(Missed(n, SearchStart(cfg.shape, b, c, p) / BLOCK, b, r), BlocksTaken(cfg.shape.capacity, ever));
  }

  /* ---------- The call's own steps ---------- */

  lemma SearchKeepsRoomy(cfg: Config, n0: nat, c: seq<nat>, m: Mem, ever: set<nat>, op: Op, p: nat, r: nat) returns (r': nat)
    requires Runnable(cfg, m, op) && op.pc.Search? && op.slot == INVALID && n0 <= p
    requires SetBits(m.avail) <= ever && Searching(cfg, n0, c, ever, op, p, r)
    ensures Searching(cfg, n0, c, ever, SearchStep(cfg, m, op), p, r')
  {
    var sh, b := cfg.shape, Bucket(cfg.shape, op.key);
    FindAnyUnsetNearOutcome(sh.capacity, m.avail, op.hint, b);
    r' := r;
    if !FindAnyUnsetNear(sh.capacity, m.avail, op.hint, b).0 {
      MissTaken(sh.capacity, m.avail, op.hint, b, ever);
      r' := r + 1;
    }
  }

  // A walk past a slot starts a new row of misses.
  lemma WalkKeepsRoomy(cfg: Config, n0: nat, c: seq<nat>, m: Mem, ever: set<nat>, op: Op, p: nat, r: nat)
    requires Runnable(cfg, m, op) && op.pc.Compare? && op.slot == INVALID && Searching(cfg, n0, c, ever, op, p, r)
    requires op.curr != INVALID && m.keys[op.curr] != op.key && p < |c| && c[p] == op.curr
    ensures Searching(cfg, n0, c, ever, OpStep(cfg, m, op).1, p + 1, 0)
  {
    RowBound(cfg, n0, c, ever, op, p, r);
    HintOfSlot(cfg.shape.capacity, op.curr);
  }

  lemma FailKeepsRoomy(cfg: Config, n0: nat, c: seq<nat>, m: Mem, ever: set<nat>, op: Op, p: nat, r: nat)
    requires Runnable(cfg, m, op) && op.pc.Fail? && op.slot == INVALID && n0 <= p && Searching(cfg, n0, c, ever, op, p, r)
    ensures Roomy(cfg, n0, c, ever, op.(pc := Done), p, r)
  {
    RowBound(cfg, n0, c, ever, op, p, r);
  }

  // A step of a call that holds a slot; c' is the chain afterwards.
  lemma HolderKeepsRoomy(cfg: Config, n0: nat, c: seq<nat>, m: Mem, op: Op, p: nat)
    requires Runnable(cfg, m, op) && op.slot != INVALID && Racing(n0, c, op, p) && p <= |c|
    requires !op.pc.Search? && !op.pc.Fail? && !op.pc.Claim? && !op.pc.Enter? && !op.pc.ReadModified? && !op.pc.MarkModified?
    requires Load(cfg.shape, m, op.ptr) == Target(c, p) && (Target(c, p) == INVALID <==> p == |c|)
    ensures forall c' :: c <= c' ==> Racing(n0, c', OpStep(cfg, m, op).1, WalkedAfter(cfg, m, op, p))
  {
  }

  lemma PlainKeepsRoomy(cfg: Config, n0: nat, c: seq<nat>, m: Mem, ever: set<nat>, op: Op, p: nat, r: nat)
    requires Runnable(cfg, m, op) && !m.erasable && op.slot == INVALID && Roomy(cfg, n0, c, ever, op, p, r)
    requires op.pc.Enter? || op.pc.ReadModified? || op.pc.MarkModified? || op.pc.LoadNext? || op.pc.Release? || op.pc.Done?
          || (op.pc.Compare? && (op.curr == INVALID || m.keys[op.curr] == op.key))
    ensures Roomy(cfg, n0, c, ever, OpStep(cfg, m, op).1, p, r)
  {
  }

  lemma ClaimKeepsRoomy(cfg: Config, n0: nat, c: seq<nat>, m: Mem, ever: set<nat>, op: Op, p: nat, r: nat)
    requires Runnable(cfg, m, op) && op.pc.Claim? && op.slot == INVALID && n0 <= p && Roomy(cfg, n0, c, ever, op, p, r)
    ensures Roomy(cfg, n0, c, ever, OpStep(cfg, m, op).1, p, r)
  {
  }

  // What the invariant says of a call about to move: its chain, its place there, and what it holds.
  ghost predicate Standing(cfg: Config, n0: nat, c: seq<nat>, m: Mem, op: Op, p: nat) {
    && Runnable(cfg, m, op) && !m.erasable && p <= |c|
    && Load(cfg.shape, m, op.ptr) == Target(c, p) && (Target(c, p) == INVALID <==> p == |c|)
    && (op.pc.Compare? && op.curr != INVALID ==> p < |c| && c[p] == op.curr)
    && (op.pc.Search? || op.pc.Fail? || op.pc.Claim? ==> n0 <= p && op.slot == INVALID)
    && (op.pc.Enter? || op.pc.ReadModified? || op.pc.MarkModified? ==> op.slot == INVALID)
    && (op.pc.WriteKey? || op.pc.WriteValue? || op.pc.CheckFailed? || op.pc.Append? ==> op.slot != INVALID)
  }

  lemma StandsInChain(cfg: Config, first: Chains, s: State, ch: Chains, walked: seq<nat>, t: nat)
    requires Inv(cfg, s, ch, walked) && t < |s.ops| && AllRunnable(cfg, s) && !s.mem.erasable
    requires |first| == cfg.shape.buckets && Grown(cfg, first, s, ch, walked)
    ensures var b := Bucket(cfg.shape, s.ops[t].key); Standing(cfg, |first[b]|, ch[b], s.mem, s.ops[t], walked[t])
  {
    assert OpInv(cfg, s.mem, ch, s.ops[t], walked[t]) && PastStart(cfg.shape, first, s.ops[t], walked[t]);
    LoadAlongChain(cfg.shape, s.mem, ch, Bucket(cfg.shape, s.ops[t].key), walked[t]);
  }

  lemma OwnStep(cfg: Config, n0: nat, c: seq<nat>, m: Mem, ever: set<nat>, op: Op, p: nat, r: nat) returns (r': nat)
    requires Standing(cfg, n0, c, m, op, p) && SetBits(m.avail) <= ever && Roomy(cfg, n0, c, ever, op, p, r)
    ensures op.slot == INVALID ==> Roomy(cfg, n0, c, ever, OpStep(cfg, m, op).1, WalkedAfter(cfg, m, op, p), r')
    ensures op.slot != INVALID ==> Racing(n0, c, OpStep(cfg, m, op).1, WalkedAfter(cfg, m, op, p)) && OpStep(cfg, m, op).1.slot != INVALID
  {
    r' := r;
    if op.slot != INVALID {
      HolderKeepsRoomy(cfg, n0, c, m, op, p);
    } else if op.pc.Search? {
      r' := SearchKeepsRoomy(cfg, n0, c, m, ever, op, p, r);
    } else if op.pc.Fail? {
      FailKeepsRoomy(cfg, n0, c, m, ever, op, p, r);
    } else if op.pc.Claim? {
      ClaimKeepsRoomy(cfg, n0, c, m, ever, op, p, r);
    } else if op.pc.Compare? && op.curr != INVALID && m.keys[op.curr] != op.key {
      r' := 0;
      WalkKeepsRoomy(cfg, n0, c, m, ever, op, p, r);
    } else {
      PlainKeepsRoomy(cfg, n0, c, m, ever, op, p, r);
    }
  }

  /* ---------- Runs ---------- */

  // What the run has kept since it started from memory m0 and chains `first`.
  ghost predicate Going(cfg: Config, m0: Mem, first: Chains, u: State, ch: Chains, walked: seq<nat>, t: nat, r: nat) {
    && Inv(cfg, u, ch, walked) && |first| == cfg.shape.buckets && Grown(cfg, first, u, ch, walked)
    && !u.mem.erasable && SetBits(u.mem.avail) <= Ever(m0, u.ops) && t < |u.ops|
    && var b := Bucket(cfg.shape, u.ops[t].key);
       Roomy(cfg, |first[b]|, ch[b], Ever(m0, u.ops), u.ops[t], walked[t], r)
  }

  lemma StepKeepsKeys(cfg: Config, u: State, x: nat)
    ensures |Step(cfg, u, x).ops| == |u.ops| && Step(cfg, u, x).mem.erasable == u.mem.erasable
    ensures forall w :: 0 <= w < |u.ops| ==> Step(cfg, u, x).ops[w].key == u.ops[w].key
  {
  }

  lemma GoingStep(cfg: Config, m0: Mem, first: Chains, u: State, ch: Chains, walked: seq<nat>, x: nat, t: nat, r: nat)
    returns (ch': Chains, walked': seq<nat>, r': nat)
    requires Going(cfg, m0, first, u, ch, walked, t, r) && AllRunnable(cfg, u) && x < |u.ops|
    ensures Going(cfg, m0, first, Step(cfg, u, x), ch', walked', t, r')
  {
    var v, b := Step(cfg, u, x), Bucket(cfg.shape, u.ops[t].key);
    StepKeepsInv(cfg, u, ch, walked, x);
    StepGrown(cfg, first, u, ch, walked, x);
    StepTaken(cfg, u, ch, walked, x);
    StepKeepsKeys(cfg, u, x);
    ch', walked' := ChainsAfter(cfg, u.mem, u.ops[x], ch), walked[x := WalkedAfter(cfg, u.mem, u.ops[x], walked[x])];
    r' := r;
    if x == t {
      StandsInChain(cfg, first, u, ch, walked, t);
      r' := OwnStep(cfg, |first[b]|, ch[b], u.mem, Ever(m0, u.ops), u.ops[t], walked[t], r);
    }
    assert OpInv(cfg, u.mem, ch, u.ops[t], walked[t]) && OpInv(cfg, v.mem, ch', v.ops[t], walked'[t]);
    RoomyStays(cfg, |first[b]|, ch[b], ch'[b], Ever(m0, u.ops), Ever(m0, v.ops), v.ops[t], walked'[t], r');
  }

  lemma {:induction false} RunGoing(cfg: Config, s: State, ch: Chains, schedule: seq<nat>, t: nat)
    returns (ch': Chains, walked: seq<nat>, r: nat)
    requires Starting(cfg, s, ch) && !s.mem.erasable && t < |s.ops|
    ensures Going(cfg, s.mem, ch, Run(cfg, s, schedule), ch', walked, t, r)
  {
    if schedule == [] {
      StartingInv(cfg, s, ch);
      ch', walked, r := ch, Zeros(|s.ops|), 0;
      StartHintInRange(cfg.shape, s.mem, ch, Bucket(cfg.shape, s.ops[t].key));
      FirstHintInRange(cfg.shape, Bucket(cfg.shape, s.ops[t].key));
      HintOfSlot(cfg.shape.capacity, s.ops[t].hint);
    } else {
      var n := |schedule| - 1;
      ch', walked, r := RunGoing(cfg, s, ch, schedule[..n], t);
      var u, x := Run(cfg, s, schedule[..n]), schedule[n];
      InvRunnable(cfg, u, ch', walked);
      if x < |u.ops| {
        ch', walked, r := GoingStep(cfg, s.mem, ch, u, ch', walked, x, t, r);
      }
    }
  }

  /* ---------- The other keys of a bucket ---------- */

  // The calls for the same bucket with another key.
  ghost function Rivals(sh: Shape, ops: seq<Op>, t: nat): set<nat>
    requires ValidShape(sh) && t < |ops|
  {
    set u | 0 <= u < |ops| && Bucket(sh, ops[u].key) == Bucket(sh, ops[t].key) && ops[u].key != ops[t].key
  }

  lemma SameRivals(sh: Shape, ops: seq<Op>, ops': seq<Op>, t: nat)
    requires ValidShape(sh) && |ops'| == |ops| && t < |ops| && forall u :: 0 <= u < |ops| ==> ops'[u].key == ops[u].key
    ensures Rivals(sh, ops', t) == Rivals(sh, ops, t)
  {
  }

  lemma WinnerKey(cfg: Config, s: State, ch: Chains, walked: seq<nat>, w: nat)
    requires Inv(cfg, s, ch, walked) && w < |s.ops| && Won(s.ops[w])
    ensures s.ops[w].slot < cfg.shape.capacity && s.mem.keys[s.ops[w].slot] == s.ops[w].key
  {
    assert OpInv(cfg, s.mem, ch, s.ops[w], walked[w]);
  }

  ghost function SlotsTaken(ops: seq<Op>, who: set<nat>): set<nat> {
    set u | u in who && u < |ops| :: ops[u].slot
  }

  lemma {:induction false} FewSlotsTaken(ops: seq<Op>, who: set<nat>)
    ensures |SlotsTaken(ops, who)| <= |who|
  {
    if who == {} {
      assert SlotsTaken(ops, who) == {};
    } else {
      var u :| u in who;
      FewSlotsTaken(ops, who - {u});
      if u < |ops| {
        assert SlotsTaken(ops, who) == SlotsTaken(ops, who - {u}) + {ops[u].slot};
      } else {
        assert SlotsTaken(ops, who) == SlotsTaken(ops, who - {u});
      }
    }
  }

  ghost function ElementsOf(c: seq<nat>): set<nat> {
    set i | i in c
  }

  lemma {:induction false} DistinctElements(c: seq<nat>)
    requires forall i, j :: 0 <= i < j < |c| ==> c[i] != c[j]
    ensures |ElementsOf(c)| == |c|
  {
    if c == [] {
      assert ElementsOf(c) == {};
    } else {
      var n := |c| - 1;
      DistinctElements(c[..n]);
      assert c == c[..n] + [c[n]];
      assert ElementsOf(c) == ElementsOf(c[..n]) + {c[n]};
      assert c[n] !in c[..n];
    }
  }

  // Distinct slots, each claimed by one of these calls.
  lemma FewClaimed(c: seq<nat>, ops: seq<Op>, who: set<nat>)
    requires forall i, j :: 0 <= i < j < |c| ==> c[i] != c[j]
    requires forall j :: 0 <= j < |c| ==> c[j] in SlotsTaken(ops, who)
    ensures |c| <= |who|
  {
    DistinctElements(c);
    SubsetSize(ElementsOf(c), SlotsTaken(ops, who));
    FewSlotsTaken(ops, who);
  }

  lemma FewPassed(c: seq<nat>, n0: nat, p: nat, ops: seq<Op>, who: set<nat>)
    requires n0 <= p <= |c| && forall i, j :: 0 <= i < j < |c| ==> c[i] != c[j]
    requires forall j :: n0 <= j < p ==> c[j] in SlotsTaken(ops, who)
    ensures p - n0 <= |who|
  {
    FewClaimed(c[n0..p], ops, who);
  }

  lemma WalkedInChain(cfg: Config, u: State, ch: Chains, walked: seq<nat>, t: nat)
    requires Inv(cfg, u, ch, walked) && t < |u.ops|
    ensures var c := ch[Bucket(cfg.shape, u.ops[t].key)];
            walked[t] <= |c| && forall i, j :: 0 <= i < j < |c| ==> c[i] != c[j]
  {
    assert OpInv(cfg, u.mem, ch, u.ops[t], walked[t]);
  }

  // The new slots a call has walked past hold the keys of its rivals, each of one rival.
  lemma PassedAreRivals(cfg: Config, first: Chains, u: State, ch: Chains, walked: seq<nat>, t: nat)
    requires Inv(cfg, u, ch, walked) && t < |u.ops| && |first| == cfg.shape.buckets && Grown(cfg, first, u, ch, walked)
    ensures NewSlots(|first[Bucket(cfg.shape, u.ops[t].key)]|, walked[t]) <= |Rivals(cfg.shape, u.ops, t)|
  {
    var b, p := Bucket(cfg.shape, u.ops[t].key), walked[t];
    WalkedInChain(cfg, u, ch, walked, t);
    if |first[b]| < p {
      forall j | |first[b]| <= j < p
        ensures ch[b][j] in SlotsTaken(u.ops, Rivals(cfg.shape, u.ops, t))
      {
        PassedIsRival(cfg, first, u, ch, walked, t, j);
      }
      FewPassed(ch[b], |first[b]|, p, u.ops, Rivals(cfg.shape, u.ops, t));
    }
  }

  lemma PassedIsRival(cfg: Config, first: Chains, u: State, ch: Chains, walked: seq<nat>, t: nat, j: nat)
    requires Inv(cfg, u, ch, walked) && t < |u.ops| && |first| == cfg.shape.buckets && Grown(cfg, first, u, ch, walked)
    requires var b := Bucket(cfg.shape, u.ops[t].key); |first[b]| <= j < walked[t] && walked[t] <= |ch[b]|
    ensures ch[Bucket(cfg.shape, u.ops[t].key)][j] in SlotsTaken(u.ops, Rivals(cfg.shape, u.ops, t))
  {
    var b := Bucket(cfg.shape, u.ops[t].key);
    assert OpInv(cfg, u.mem, ch, u.ops[t], walked[t]) && KeysFit(cfg.shape, u.mem, b, ch[b]);
    assert Appender(u.ops, ch[b][j]);
    var w :| 0 <= w < |u.ops| && Won(u.ops[w]) && u.ops[w].slot == ch[b][j];
    WinnerKey(cfg, u, ch, walked, w);
  }

  /* ---------- What a refusal needs ---------- */

  // In how many blocks every bit was set at some time.
  ghost function BlocksUsed(cfg: Config, m0: Mem, end: State): nat {
    |BlocksTaken(cfg.shape.capacity, Ever(m0, end.ops))|
  }

  /** Under every schedule: a call that is refused before it held a slot has gone, for each rival and once more, through
      blocks that all filled up, and it takes as many of these as it may search. A call that is refused with a slot in hand
      has a rival and has seen the failed flag. */
  lemma RefusedNeeds(cfg: Config, s: State, ch: Chains, schedule: seq<nat>, t: nat)
    requires Starting(cfg, s, ch) && !s.mem.erasable && t < |s.ops|
    ensures var end := Run(cfg, s, schedule);
            && |end.ops| == |s.ops|
            && (OutcomeOf(end.ops[t]) == Refused && end.ops[t].slot == INVALID ==>
                  SearchLimit(cfg) <= (|Rivals(cfg.shape, s.ops, t)| + 1) * BlocksUsed(cfg, s.mem, end))
            && (OutcomeOf(end.ops[t]) == Refused && end.ops[t].slot != INVALID ==>
                  Rivals(cfg.shape, s.ops, t) != {} && end.mem.failed)
  {
    var end := Run(cfg, s, schedule);
    var ch', walked, r := RunGoing(cfg, s, ch, schedule, t);
    RunKeepsArguments(cfg, s, schedule);
    SameRivals(cfg.shape, s.ops, end.ops, t);
    PassedAreRivals(cfg, ch, end, ch', walked, t);
    assert OpInv(cfg, end.mem, ch', end.ops[t], walked[t]);
    var rivals, f := |Rivals(cfg.shape, s.ops, t)|, BlocksUsed(cfg, s.mem, end);
    RoundsIs(rivals + 1, f);
    RoundsGrow(NewSlots(|ch[Bucket(cfg.shape, s.ops[t].key)]|, walked[t]) + 1, rivals + 1, f, f);
  }

  // Without rivals these blocks are one row, from the last slot of the chain or the call's first hint on.
  lemma RefusedRow(cfg: Config, s: State, ch: Chains, schedule: seq<nat>, t: nat)
    requires Starting(cfg, s, ch) && !s.mem.erasable && t < |s.ops| && Rivals(cfg.shape, s.ops, t) == {}
    ensures var end, c := Run(cfg, s, schedule), ch[Bucket(cfg.shape, s.ops[t].key)];
            && |end.ops| == |s.ops|
            && (OutcomeOf(end.ops[t]) == Refused ==>
                  && end.ops[t].slot == INVALID
                  && Row(cfg, s.ops[t], c, |c|, SearchLimit(cfg)) <= BlocksTaken(cfg.shape.capacity, Ever(s.mem, end.ops)))
  {
    var end, c := Run(cfg, s, schedule), ch[Bucket(cfg.shape, s.ops[t].key)];
    var ch', walked, r := RunGoing(cfg, s, ch, schedule, t);
    RefusedNeeds(cfg, s, ch, schedule, t);
    RunKeepsArguments(cfg, s, schedule);
    SameRivals(cfg.shape, s.ops, end.ops, t);
    PassedAreRivals(cfg, ch, end, ch', walked, t);
    if OutcomeOf(end.ops[t]) == Refused {
      assert c <= ch'[Bucket(cfg.shape, s.ops[t].key)];
      SameRow(cfg, s.ops[t], end.ops[t], c, ch'[Bucket(cfg.shape, s.ops[t].key)], |c|, SearchLimit(cfg));
    }
  }

  lemma SameRow(cfg: Config, op: Op, op': Op, c: seq<nat>, c': seq<nat>, p: nat, r: nat)
    requires ValidShape(cfg.shape) && op'.key == op.key && c <= c' && p <= |c|
    ensures Row(cfg, op', c', p, r) == Row(cfg, op, c, p, r)
  {
    assert SearchStart(cfg.shape, Bucket(cfg.shape, op.key), c', p) == SearchStart(cfg.shape, Bucket(cfg.shape, op.key), c, p);
  }

  /* ---------- How many blocks can fill ---------- */

  // A call that holds no slot has claimed no bit; any other call has claimed one at most.
  lemma EverSmall(m0: Mem, ops: seq<Op>, t: nat)
    requires t < |ops| && ops[t].slot == INVALID
    ensures |Ever(m0, ops)| <= Count(m0.avail) + |ops| - 1
  {
    var others := Below(|ops|) - {t};
    BelowIs(|ops|);
    SubsetSize(Taken(ops), SlotsTaken(ops, others));
    FewSlotsTaken(ops, others);
    CountIsCardinality(m0.avail);
    assert |Ever(m0, ops)| <= |SetBits(m0.avail)| + |Taken(ops)|;
  }

  ghost function BitsOf(b: nat, n: nat): set<nat> {
    if n == 0 then {} else BitsOf(b, n - 1) + {b * BLOCK + n - 1}
  }

  lemma {:induction false} BitsOfIs(b: nat, n: nat)
    ensures |BitsOf(b, n)| == n && forall i :: i in BitsOf(b, n) <==> b * BLOCK <= i < b * BLOCK + n
  {
    if n > 0 {
      BitsOfIs(b, n - 1);
    }
  }

  lemma BitsApart(b: nat, d: nat)
    requires b != d
    ensures BitsOf(b, BLOCK) !! BitsOf(d, BLOCK)
  {
    BitsOfIs(b, BLOCK);
    BitsOfIs(d, BLOCK);
  }

  // Full blocks take their bits from the set, each its own.
  lemma {:induction false} BlocksNeedBits(blocks: set<nat>, ever: set<nat>)
    requires forall b :: b in blocks ==> BitsOf(b, BLOCK) <= ever
    ensures |blocks| * BLOCK <= |ever|
    decreases |blocks|
  {
    if blocks != {} {
      var b :| b in blocks;
      var rest := ever - BitsOf(b, BLOCK);
      forall d | d in blocks - {b}
        ensures BitsOf(d, BLOCK) <= rest
      {
        BitsApart(b, d);
      }
      BlocksNeedBits(blocks - {b}, rest);
      BitsOfIs(b, BLOCK);
      assert ever == rest + BitsOf(b, BLOCK);
    }
  }

  lemma BlocksBound(size: nat, ever: set<nat>)
    requires size % BLOCK == 0
    ensures |BlocksTaken(size, ever)| <= |ever| / BLOCK
  {
    forall b | b in BlocksTaken(size, ever)
      ensures BitsOf(b, BLOCK) <= ever
    {
      BitsOfIs(b, BLOCK);
    }
    BlocksNeedBits(BlocksTaken(size, ever), ever);
  }

  // If all blocks filled up, so did the whole bitset.
  lemma AllBlocksTaken(size: nat, ever: set<nat>)
    requires BlockCount(size) <= |BlocksTaken(size, ever)|
    ensures forall i: nat :: i < size ==> i in ever
    ensures size <= |ever|
  {
    var n := BlockCount(size);
    BelowIs(n);
    SubsetSize(BlocksTaken(size, ever), Below(n));
    SubsetOfSameSize(BlocksTaken(size, ever), Below(n));
    forall i: nat | i < size
      ensures i in ever
    {
      HintOfSlot(size, i);
      assert i / BLOCK in BlocksTaken(size, ever);
    }
    BelowIs(size);
    SubsetSize(Below(size), ever);
  }

  /* ---------- Guards on the calls alone ---------- */

  // The calls may search every block: there is no bound, or at most 32 blocks.
  predicate SearchesAll(cfg: Config) {
    !cfg.bounded || cfg.shape.capacity <= 1024
  }

  /** A call without rivals that may search every block is not refused when there is a free bit for each call, whatever
      the schedule and the keys. */
  lemma RoomForAll(cfg: Config, s: State, ch: Chains, schedule: seq<nat>, t: nat)
    requires Starting(cfg, s, ch) && SearchesAll(cfg) && !s.mem.erasable && t < |s.ops|
    requires Rivals(cfg.shape, s.ops, t) == {} && Count(s.mem.avail) + |s.ops| <= cfg.shape.capacity
    ensures |Run(cfg, s, schedule).ops| == |s.ops| && OutcomeOf(Run(cfg, s, schedule).ops[t]) != Refused
  {
    var end := Run(cfg, s, schedule);
    RefusedNeeds(cfg, s, ch, schedule, t);
    if OutcomeOf(end.ops[t]) == Refused {
      AllBlocksTaken(cfg.shape.capacity, Ever(s.mem, end.ops));
      EverSmall(s.mem, end.ops, t);
    }
  }

  /** In numbers known before the calls: a call refused before it held a slot has at least as many rivals as this bound
      says. In InsertLosses one rival and three blocks of four are enough. */
  lemma RefusalBound(cfg: Config, s: State, ch: Chains, schedule: seq<nat>, t: nat)
    requires Starting(cfg, s, ch) && !s.mem.erasable && t < |s.ops| && cfg.shape.capacity % BLOCK == 0
    ensures var end := Run(cfg, s, schedule);
            && |end.ops| == |s.ops|
            && (OutcomeOf(end.ops[t]) == Refused && end.ops[t].slot == INVALID ==> !Ample(cfg, s, t))
  {
    var end := Run(cfg, s, schedule);
    RefusedNeeds(cfg, s, ch, schedule, t);
    if OutcomeOf(end.ops[t]) == Refused && end.ops[t].slot == INVALID {
      UsedBound(cfg, s, end, t);
      MoreBlocks(|Rivals(cfg.shape, s.ops, t)| + 1, BlocksUsed(cfg, s.mem, end), BlocksToFill(s));
    }
  }

  lemma UsedBound(cfg: Config, s: State, end: State, t: nat)
    requires t < |s.ops| == |end.ops| && end.ops[t].slot == INVALID && cfg.shape.capacity % BLOCK == 0
    ensures BlocksUsed(cfg, s.mem, end) <= BlocksToFill(s)
  {
    EverSmall(s.mem, end.ops, t);
    BlocksBound(cfg.shape.capacity, Ever(s.mem, end.ops));
  }

  lemma MoreBlocks(k: nat, used: nat, most: nat)
    requires used <= most
    ensures k * used <= k * most
  {
    RoundsIs(k, used);
    RoundsIs(k, most);
    RoundsGrow(k, k, used, most);
  }

  // How many blocks the bits of the start and one bit of every call but one can fill.
  function BlocksToFill(s: State): nat
    requires |s.ops| > 0
  {
    (Count(s.mem.avail) + |s.ops| - 1) / BLOCK
  }

  // Too few blocks would fill for the rivals of call t.
  ghost predicate Ample(cfg: Config, s: State, t: nat)
    requires ValidShape(cfg.shape) && t < |s.ops|
  {
    (|Rivals(cfg.shape, s.ops, t)| + 1) * BlocksToFill(s) < SearchLimit(cfg)
  }

  /* ---------- The failed flag ---------- */

  // If the flag is up, it was at the start or some call gave up without a slot.
  ghost predicate FlagExplained(m0: Mem, u: State) {
    u.mem.failed ==> m0.failed || exists w :: 0 <= w < |u.ops| && GaveUp(u.ops[w])
  }

  predicate GaveUp(op: Op) {
    OutcomeOf(op) == Refused && op.slot == INVALID
  }

  lemma StepFlagExplained(cfg: Config, m0: Mem, s: State, ch: Chains, walked: seq<nat>, t: nat)
    requires Inv(cfg, s, ch, walked) && t < |s.ops| && AllRunnable(cfg, s) && FlagExplained(m0, s)
    ensures FlagExplained(m0, Step(cfg, s, t))
  {
    var s' := Step(cfg, s, t);
    assert OpInv(cfg, s.mem, ch, s.ops[t], walked[t]);
    if s.ops[t].pc.Fail? {
      assert GaveUp(s'.ops[t]);
    } else if w :| 0 <= w < |s.ops| && GaveUp(s.ops[w]) {
      assert GaveUp(s'.ops[w]);
    }
  }

  lemma {:induction false} RunFlagExplained(cfg: Config, s: State, ch: Chains, schedule: seq<nat>)
    returns (ch': Chains, walked: seq<nat>)
    requires Starting(cfg, s, ch)
    ensures Inv(cfg, Run(cfg, s, schedule), ch', walked) && FlagExplained(s.mem, Run(cfg, s, schedule))
  {
    if schedule == [] {
      StartingInv(cfg, s, ch);
      ch', walked := ch, Zeros(|s.ops|);
    } else {
      var n := |schedule| - 1;
      ch', walked := RunFlagExplained(cfg, s, ch, schedule[..n]);
      var u, x := Run(cfg, s, schedule[..n]), schedule[n];
      InvRunnable(cfg, u, ch', walked);
      if x < |u.ops| {
        StepKeepsInv(cfg, u, ch', walked, x);
        StepFlagExplained(cfg, s.mem, u, ch', walked, x);
        ch', walked := ChainsAfter(cfg, u.mem, u.ops[x], ch'), walked[x := WalkedAfter(cfg, u.mem, u.ops[x], walked[x])];
      }
    }
  }

  /** With the flag down at the start and the bound kept for every call, no call of the phase is refused. */
  lemma NoneRefused(cfg: Config, s: State, ch: Chains, schedule: seq<nat>, t: nat)
    requires Starting(cfg, s, ch) && !s.mem.erasable && !s.mem.failed && cfg.shape.capacity % BLOCK == 0
    requires t < |s.ops| && forall u :: 0 <= u < |s.ops| ==> Ample(cfg, s, u)
    ensures |Run(cfg, s, schedule).ops| == |s.ops| && OutcomeOf(Run(cfg, s, schedule).ops[t]) != Refused
  {
    var end := Run(cfg, s, schedule);
    RefusedNeeds(cfg, s, ch, schedule, t);
    var ch', walked := RunFlagExplained(cfg, s, ch, schedule);
    forall u | 0 <= u < |s.ops|
      ensures !GaveUp(end.ops[u])
    {
      RefusalBound(cfg, s, ch, schedule, u);
    }
  }

  /* ---------- Different keys: what was set stays set ---------- */

  ghost predicate DistinctKeys(ops: seq<Op>) {
    forall t, u :: 0 <= t < u < |ops| ==> ops[t].key != ops[u].key
  }

  ghost predicate AloneInBucket(sh: Shape, ops: seq<Op>, t: nat)
    requires ValidShape(sh) && t < |ops|
  {
    forall u :: 0 <= u < |ops| && u != t ==> Bucket(sh, ops[u].key) != Bucket(sh, ops[t].key)
  }

  // A call that holds a slot does not find its key.
  lemma NoRelease(cfg: Config, first: Chains, s: State, ch: Chains, walked: seq<nat>, t: nat)
    requires Inv(cfg, s, ch, walked) && t < |s.ops| && AllRunnable(cfg, s) && DistinctKeys(s.ops)
    requires |first| == cfg.shape.buckets && Grown(cfg, first, s, ch, walked)
    ensures !(s.ops[t].pc.Release? && s.ops[t].slot != INVALID)
  {
    if s.ops[t].pc.Release? && s.ops[t].slot != INVALID {
      var b := Bucket(cfg.shape, s.ops[t].key);
      assert OpInv(cfg, s.mem, ch, s.ops[t], walked[t]) && PastStart(cfg.shape, first, s.ops[t], walked[t]);
      var w :| 0 <= w < |s.ops| && Won(s.ops[w]) && s.ops[w].slot == ch[b][walked[t]];
      WinnerKey(cfg, s, ch, walked, w);
      assert false;
    }
  }

  lemma BitsGrow(cfg: Config, first: Chains, s: State, ch: Chains, walked: seq<nat>, t: nat)
    requires Inv(cfg, s, ch, walked) && t < |s.ops| && AllRunnable(cfg, s) && DistinctKeys(s.ops)
    requires |first| == cfg.shape.buckets && Grown(cfg, first, s, ch, walked)
    ensures Keeps(s.mem.avail, Step(cfg, s, t).mem.avail)
  {
    NoRelease(cfg, first, s, ch, walked, t);
    var op, blocks := s.ops[t], s.mem.avail;
    if op.pc.Claim? && op.hint < BLOCK * |blocks| {
      forall i: nat | i < BLOCK * |blocks| ensures Bit(blocks, i) ==> Bit(Update(blocks, op.hint, true), i) {
        UpdateAt(blocks, op.hint, true, i);
      }
    }
  }

  // No set bit is lost.
  ghost predicate Keeps(blocks: seq<Word>, blocks': seq<Word>) {
    |blocks'| == |blocks| && forall i: nat :: i < BLOCK * |blocks| && Bit(blocks, i) ==> Bit(blocks', i)
  }

  // No call has released its slot, and no bit of the start is lost.
  ghost predicate Unreleased(m0: Mem, u: State) {
    && DistinctKeys(u.ops) && Keeps(m0.avail, u.mem.avail)
    && forall w :: 0 <= w < |u.ops| && u.ops[w].slot != INVALID ==> Holding(u.ops[w]) || Won(u.ops[w])
  }

  lemma {:induction false} RunUnreleased(cfg: Config, s: State, ch: Chains, schedule: seq<nat>)
    returns (ch': Chains, walked: seq<nat>)
    requires Starting(cfg, s, ch) && DistinctKeys(s.ops)
    ensures var u := Run(cfg, s, schedule);
            Inv(cfg, u, ch', walked) && |ch| == cfg.shape.buckets && Grown(cfg, ch, u, ch', walked) && Unreleased(s.mem, u)
  {
    if schedule == [] {
      StartingInv(cfg, s, ch);
      ch', walked := ch, Zeros(|s.ops|);
    } else {
      var n := |schedule| - 1;
      ch', walked := RunUnreleased(cfg, s, ch, schedule[..n]);
      var u, x := Run(cfg, s, schedule[..n]), schedule[n];
      InvRunnable(cfg, u, ch', walked);
      if x < |u.ops| {
        StepKeepsInv(cfg, u, ch', walked, x);
        StepGrown(cfg, ch, u, ch', walked, x);
        StepUnreleased(cfg, s.mem, ch, u, ch', walked, x);
        ch', walked := ChainsAfter(cfg, u.mem, u.ops[x], ch'), walked[x := WalkedAfter(cfg, u.mem, u.ops[x], walked[x])];
      }
    }
  }

  lemma StepUnreleased(cfg: Config, m0: Mem, first: Chains, u: State, ch: Chains, walked: seq<nat>, x: nat)
    requires Inv(cfg, u, ch, walked) && x < |u.ops| && AllRunnable(cfg, u) && Unreleased(m0, u)
    requires |first| == cfg.shape.buckets && Grown(cfg, first, u, ch, walked)
    ensures Unreleased(m0, Step(cfg, u, x))
  {
    NoRelease(cfg, first, u, ch, walked, x);
    BitsGrow(cfg, first, u, ch, walked, x);
    StepKeepsKeys(cfg, u, x);
    assert OpInv(cfg, u.mem, ch, u.ops[x], walked[x]);
  }

  // So every bit that was ever set is set.
  lemma EverIsSet(cfg: Config, m0: Mem, u: State, ch: Chains, walked: seq<nat>, i: nat)
    requires Inv(cfg, u, ch, walked) && Unreleased(m0, u) && i in Ever(m0, u.ops)
    ensures i < BLOCK * |u.mem.avail| && Bit(u.mem.avail, i)
  {
    if i !in SetBits(m0.avail) {
      var w :| 0 <= w < |u.ops| && u.ops[w].slot != INVALID && u.ops[w].slot == i;
      assert OpInv(cfg, u.mem, ch, u.ops[w], walked[w]);
      if Won(u.ops[w]) {
        ChainedAt(ch, Bucket(cfg.shape, u.ops[w].key), walked[w]);
      }
      assert Test(cfg.shape.capacity, u.mem.avail, i);
    }
  }

  lemma {:induction false} MissedHas(n: nat, start: nat, direction: nat, r: nat, j: nat)
    requires start < n && j < r
    ensures MissBlock(n, start, direction, j) in Missed(n, start, direction, r)
  {
    if j < r - 1 {
      MissedHas(n, start, direction, r - 1, j);
    }
  }

  // The blocks of the row, by number.
  lemma RowIsTaken(cfg: Config, op: Op, b: nat, c: seq<nat>, taken: set<nat>, j: nat)
    requires ValidShape(cfg.shape) && b == Bucket(cfg.shape, op.key) && StartHint(cfg.shape, b, c) / BLOCK < BlockCount(cfg.shape.capacity)
    requires Row(cfg, op, c, |c|, SearchLimit(cfg)) <= taken && j < SearchLimit(cfg)
    ensures SearchBlock(BlockCount(cfg.shape.capacity), StartHint(cfg.shape, b, c) / BLOCK, b, j) in taken
  {
    var n, start := BlockCount(cfg.shape.capacity), StartHint(cfg.shape, b, c) / BLOCK;
    assert SearchStart(cfg.shape, b, c, |c|) == StartHint(cfg.shape, b, c);
    SearchBlockIs(n, start, b, j);
    MissedHas(n, start, b, SearchLimit(cfg), j);
  }

  lemma TakenIsFull(cfg: Config, m0: Mem, u: State, ch: Chains, walked: seq<nat>, d: nat)
    requires Inv(cfg, u, ch, walked) && Unreleased(m0, u) && d in BlocksTaken(cfg.shape.capacity, Ever(m0, u.ops))
    ensures BlockFull(cfg.shape.capacity, u.mem.avail, d)
  {
    forall i: nat | d * BLOCK <= i < (d + 1) * BLOCK && i < cfg.shape.capacity
      ensures Bit(u.mem.avail, i)
    {
      EverIsSet(cfg, m0, u, ch, walked, i);
    }
  }

  // The blocks that call t may search on an unchanged chain.
  ghost predicate SearchedFull(cfg: Config, m: Mem, b: nat, c: seq<nat>)
    requires Sized(cfg.shape, m) && StartHint(cfg.shape, b, c) / BLOCK < BlockCount(cfg.shape.capacity)
  {
    forall j: nat :: j < SearchLimit(cfg) ==>
      BlockFull(cfg.shape.capacity, m.avail, SearchBlock(BlockCount(cfg.shape.capacity), StartHint(cfg.shape, b, c) / BLOCK, b, j))
  }

  lemma RowIsFull(cfg: Config, s: State, end: State, ch: Chains, ch': Chains, walked: seq<nat>, t: nat)
    requires Inv(cfg, end, ch', walked) && Unreleased(s.mem, end) && t < |s.ops| && |ch| == cfg.shape.buckets
    requires var b := Bucket(cfg.shape, s.ops[t].key);
             && StartHint(cfg.shape, b, ch[b]) / BLOCK < BlockCount(cfg.shape.capacity)
             && Row(cfg, s.ops[t], ch[b], |ch[b]|, SearchLimit(cfg)) <= BlocksTaken(cfg.shape.capacity, Ever(s.mem, end.ops))
    ensures SearchedFull(cfg, end.mem, Bucket(cfg.shape, s.ops[t].key), ch[Bucket(cfg.shape, s.ops[t].key)])
  {
    var b, n := Bucket(cfg.shape, s.ops[t].key), BlockCount(cfg.shape.capacity);
    forall j: nat | j < SearchLimit(cfg)
      ensures BlockFull(cfg.shape.capacity, end.mem.avail, SearchBlock(n, StartHint(cfg.shape, b, ch[b]) / BLOCK, b, j))
    {
      RowIsTaken(cfg, s.ops[t], b, ch[b], BlocksTaken(cfg.shape.capacity, Ever(s.mem, end.ops)), j);
      TakenIsFull(cfg, s.mem, end, ch', walked, SearchBlock(n, StartHint(cfg.shape, b, ch[b]) / BLOCK, b, j));
    }
  }

  // When every block may be searched, full blocks mean a full set.
  lemma SearchedAllFull(cfg: Config, m: Mem, b: nat, c: seq<nat>)
    requires Sized(cfg.shape, m) && StartHint(cfg.shape, b, c) / BLOCK < BlockCount(cfg.shape.capacity)
    requires SearchesAll(cfg) && SearchedFull(cfg, m, b, c)
    ensures EveryBitSet(cfg.shape, m)
  {
    var n, start := BlockCount(cfg.shape.capacity), StartHint(cfg.shape, b, c);
    forall j: nat | j < n
      ensures BlockFull(cfg.shape.capacity, m.avail, MissBlock(n, start / BLOCK, b, j))
    {
      SearchBlockIs(n, start / BLOCK, b, j);
      assert BlockFull(cfg.shape.capacity, m.avail, SearchBlock(n, start / BLOCK, b, j));
    }
    FullWindowIsFullSet(cfg.shape.capacity, m.avail, start, b);
  }

  /** Whatever the schedule: among inserts of pairwise different keys, a call that has its bucket to itself is refused only
      if the blocks it may search are full: every bit is set, or, in a bounded table of more than 1024 slots, the 32 blocks
      that follow each other from its start hint. */
  lemma RefusedMeansFull(cfg: Config, s: State, ch: Chains, schedule: seq<nat>, t: nat)
    requires Starting(cfg, s, ch) && !s.mem.erasable && DistinctKeys(s.ops)
    requires t < |s.ops| && AloneInBucket(cfg.shape, s.ops, t)
    ensures var end, b := Run(cfg, s, schedule), Bucket(cfg.shape, s.ops[t].key);
            && |end.ops| == |s.ops| && Sized(cfg.shape, end.mem)
            && StartHint(cfg.shape, b, ch[b]) / BLOCK < BlockCount(cfg.shape.capacity)
            && (OutcomeOf(end.ops[t]) == Refused ==> SearchedFull(cfg, end.mem, b, ch[b]))
            && (OutcomeOf(end.ops[t]) == Refused && SearchesAll(cfg) ==> EveryBitSet(cfg.shape, end.mem))
  {
    var end, b := Run(cfg, s, schedule), Bucket(cfg.shape, s.ops[t].key);
    StartHintInRange(cfg.shape, s.mem, ch, b);
    assert Rivals(cfg.shape, s.ops, t) == {};
    RefusedRow(cfg, s, ch, schedule, t);
    var ch', walked := RunUnreleased(cfg, s, ch, schedule);
    if OutcomeOf(end.ops[t]) == Refused {
      RowIsFull(cfg, s, end, ch, ch', walked, t);
      if SearchesAll(cfg) {
        SearchedAllFull(cfg, end.mem, b, ch[b]);
      }
    }
  }

  /* ---------- How full a bounded table is when an insert fails ---------- */

  // Blocks with all their bits in the set; only the last block of the bitset may be shorter than 32 bits.
  lemma BitsInBlocks(size: nat, ever: set<nat>, blocks: set<nat>)
    requires blocks <= BlocksTaken(size, ever) && blocks != {}
    ensures (|blocks| - 1) * BLOCK + 1 <= |ever|
  {
    var last := BlockCount(size) - 1;
    var d := if last in blocks then last else var x :| x in blocks; x;
    var first := d * BLOCK;
    assert first in ever && BlockTaken(size, ever, d);
    forall b | b in blocks - {d}
      ensures BitsOf(b, BLOCK) <= ever - {first}
    {
      assert BlockTaken(size, ever, b);
      BitsOfIs(b, BLOCK);
    }
    BlocksNeedBits(blocks - {d}, ever - {first});
  }

  /** A bounded insert that fails alone on a capacity above 1024 finds at least 993 bits set, and 1024 if the last block is
      no shorter than the others, as for every capacity that the constructor computes. */
  lemma BoundedFailureBits(sh: Shape, m: Mem, ch: Chains, k: Key, v: Value, r: Result, m': Mem, ch': Chains)
    requires WellChained(sh, m, ch) && AllSet(sh, m, ch) && BitsInRange(sh, m) && sh.capacity > 1024
    requires InsertOutcome(sh, m, ch, true, k, v, r, m', ch') && r.status.Failed?
    ensures |LiveOf(sh, m, ch)| + |Strays(m, ch)| >= if sh.capacity % 32 == 0 then 1024 else 993
  {
    var b, start := Bucket(sh, k), StartHint(sh, Bucket(sh, k), ch[Bucket(sh, k)]);
    StartHintInRange(sh, m, ch, b);
    var row := Missed(|m.avail|, start / BLOCK, b, 32);
    MissedSize(|m.avail|, start / BLOCK, b, 32);
    WindowIsTaken(sh.capacity, m.avail, start, b, 32);
    BitsInBlocks(sh.capacity, SetBits(m.avail), row);
    if sh.capacity % BLOCK == 0 {
      BlocksBound(sh.capacity, SetBits(m.avail));
      SubsetSize(row, BlocksTaken(sh.capacity, SetBits(m.avail)));
    }
    LiveSize(sh, m, ch);
  }

  lemma {:induction false} WindowIsTaken(size: nat, blocks: seq<Word>, start: nat, direction: nat, r: nat)
    requires Fits(size, blocks) && start / BLOCK < |blocks| && WindowFull(size, blocks, start, direction, r)
    ensures Missed(|blocks|, start / BLOCK, direction, r) <= BlocksTaken(size, SetBits(blocks))
  {
    if r > 0 {
      WindowIsTaken(size, blocks, start, direction, r - 1);
      assert BlockFull(size, blocks, MissBlock(|blocks|, start / BLOCK, direction, r - 1));
    }
  }
}
