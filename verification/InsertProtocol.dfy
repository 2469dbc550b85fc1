/** Concurrent UnorderedMap::insert as a step system.

    Any number of insert calls run at once over one shared memory. A step is one shared access of one call
    together with the local work up to the next shared access; a schedule is any sequence of call numbers.
    Nothing is assumed about fairness. Two inserts made one after the other by the same thread are two
    calls, so threads that insert repeatedly are covered by the schedules that keep their calls apart. */
module InsertProtocol {
  import opened Bitset
  import opened MapMemory

  /* ---------- Results ---------- */

  const LIST_LENGTH_MASK: nat := 0x1FFF_FFFF

  datatype Status = Failed | Success | Existing(freed: bool)
  datatype Result = Result(index: nat, status: Status, position: nat)

  // increment_list_position saturates at the width of the field.
  function Increment(position: nat): nat {
    if position < LIST_LENGTH_MASK then position + 1 else position
  }

  function Saturated(n: nat): nat {
    if n < LIST_LENGTH_MASK then n else LIST_LENGTH_MASK
  }

  /* ---------- One insert call ---------- */

  datatype Pc =
    | Enter          // read the erasable flag
    | ReadModified   // read the modified flag
    | MarkModified   // write the modified flag
    | LoadNext       // curr = load(curr_ptr)
    | Compare        // compare the key of curr, or leave the walk at an invalid index
    | Release        // key found: release a claimed slot, report it
    | Search         // find_any_unset_near
    | Fail           // write the failed-insert flag
    | Claim          // atomic set of the hinted bit
    | WriteKey
    | WriteValue
    | CheckFailed    // read the failed-insert flag while holding a slot
    | Append(last: bool)  // compare-and-swap; `last` when the flag was seen
    | Done

  datatype Op = Op(key: Key, value: Value, pc: Pc, ptr: Ptr, curr: nat, slot: nat, hint: nat, attempts: nat,
                   result: Result)

  datatype Config = Config(shape: Shape, bounded: bool)

  const BOUNDED_FIND_ATTEMPTS: nat := 32

  function MaxAttempts(cfg: Config): nat {
    var blocks := BlockCount(cfg.shape.capacity);
    if cfg.bounded && BOUNDED_FIND_ATTEMPTS < blocks then BOUNDED_FIND_ATTEMPTS else blocks
  }

  // The bucket scaled to the capacity, in exact arithmetic.
  function FirstHint(sh: Shape, bucket: nat): nat
    requires ValidShape(sh)
  {
    QuotientIsNat(Product(bucket, sh.capacity), sh.buckets);
    Product(bucket, sh.capacity) / sh.buckets
  }

  function Product(x: nat, y: nat): nat {
    x * y
  }

  lemma QuotientIsNat(x: nat, d: nat)
    requires d > 0
    ensures x / d >= 0
  {
  }

  function Call(cfg: Config, k: Key, v: Value): Op
    requires ValidShape(cfg.shape)
  {
    var b := Bucket(cfg.shape, k);
    Op(k, v, Enter, Head(b), INVALID, INVALID, FirstHint(cfg.shape, b), 0, Result(INVALID, Failed, 0))
  }

  ghost predicate Runnable(cfg: Config, m: Mem, op: Op) {
    && Sized(cfg.shape, m)
    && ValidPtr(cfg.shape, op.ptr)
    && (op.curr == INVALID || op.curr < cfg.shape.capacity)
    && op.hint / BLOCK < BlockCount(cfg.shape.capacity)
    && (op.pc.Release? ==> op.curr != INVALID && (op.slot == INVALID || op.slot < cfg.shape.capacity))
    && (op.pc.WriteKey? || op.pc.WriteValue? || op.pc.CheckFailed? || op.pc.Append? ==> op.slot < cfg.shape.capacity)
  }

  ghost function SearchStep(cfg: Config, m: Mem, op: Op): Op
    requires Runnable(cfg, m, op)
  {
    var sh := cfg.shape;
    var (found, h) := FindAnyUnsetNear(sh.capacity, m.avail, op.hint, Bucket(sh, op.key));
    var hint := if h >= 0 then h else 0;
    var attempts := if found then op.attempts else op.attempts + 1;
    op.(hint := hint, attempts := attempts,
        pc := if !found && attempts >= MaxAttempts(cfg) then Fail else Claim)
  }

  // One step of one call.
  ghost function OpStep(cfg: Config, m: Mem, op: Op): (Mem, Op)
    requires Runnable(cfg, m, op)
  {
    var sh := cfg.shape;
    match op.pc
    case Enter => (m, op.(pc := if m.erasable then Done else ReadModified))
    case ReadModified => (m, op.(pc := if m.modified then LoadNext else MarkModified))
    case MarkModified => (m.(modified := true), op.(pc := LoadNext))
    case LoadNext => (m, op.(curr := Load(sh, m, op.ptr), pc := Compare))
    case Compare =>
      if op.curr == INVALID then
        (m, op.(pc := if op.slot == INVALID then Search else CheckFailed))
      else if m.keys[op.curr] == op.key then
        (m, op.(pc := Release))
      else
        (m, op.(hint := op.curr, ptr := Next(op.curr), pc := LoadNext,
                result := op.result.(position := Increment(op.result.position))))
    case Release =>
      (if op.slot == INVALID then m else m.(avail := Update(m.avail, op.slot, false)),
       op.(pc := Done, result := Result(op.curr, Existing(op.slot != INVALID), op.result.position)))
    case Search => (m, SearchStep(cfg, m, op))
    case Fail => (m.(failed := true), op.(pc := Done))
    case Claim =>
      if op.hint < sh.capacity && !Test(sh.capacity, m.avail, op.hint) then
        (m.(avail := Update(m.avail, op.hint, true)), op.(slot := op.hint, pc := WriteKey))
      else
        (m, op.(pc := LoadNext))
    case WriteKey => (m.(keys := m.keys[op.slot := op.key]), op.(pc := WriteValue))
    case WriteValue => (m.(values := m.values[op.slot := op.value]), op.(pc := Append(false)))
    case CheckFailed => (m, op.(pc := Append(m.failed)))
    case Append(last) =>
      if Load(sh, m, op.ptr) == INVALID then
        (Store(sh, m, op.ptr, op.slot), op.(pc := Done, result := Result(op.slot, Success, op.result.position)))
      else
        (m, op.(pc := if last then Done else LoadNext))
    case Done => (m, op)
  }

  /* ---------- The system ---------- */

  datatype State = State(mem: Mem, ops: seq<Op>)

  ghost predicate AllRunnable(cfg: Config, s: State) {
    forall t :: 0 <= t < |s.ops| ==> Runnable(cfg, s.mem, s.ops[t])
  }

  // Call t takes a step. A number that names no call changes nothing, and a call about to leave the bounds
  // of an array would be stuck; `EveryRunWellChained` shows that this does not happen.
  ghost function Step(cfg: Config, s: State, t: nat): State {
    if t < |s.ops| && Runnable(cfg, s.mem, s.ops[t]) then
      var (m, op) := OpStep(cfg, s.mem, s.ops[t]);
      State(m, s.ops[t := op])
    else s
  }

  /* ---------- The invariant ---------- */

  // Call op has a claimed slot that is neither appended nor released.
  predicate Holding(op: Op) {
    op.slot != INVALID && !(op.pc.Done? && !op.result.status.Failed?)
  }

  // Unchained, bit set, and as far as the call has got, its own key and value written there.
  ghost predicate HoldsOwn(cfg: Config, m: Mem, ch: Chains, op: Op)
    requires Sized(cfg.shape, m)
  {
    && op.slot < cfg.shape.capacity
    && !Chained(ch, op.slot)
    && Test(cfg.shape.capacity, m.avail, op.slot)
    && (!op.pc.WriteKey? ==> m.keys[op.slot] == op.key)
    && (!op.pc.WriteKey? && !op.pc.WriteValue? ==> m.values[op.slot] == op.value)
  }

  // The call has compared unequal the first p slots of its chain and stands right behind them.
  ghost predicate Walked(cfg: Config, m: Mem, ch: Chains, op: Op, p: nat)
    requires WellChained(cfg.shape, m, ch)
  {
    var b := Bucket(cfg.shape, op.key);
    && p <= |ch[b]|
    && op.ptr == PtrAt(b, ch[b], p)
    && (forall j :: 0 <= j < p ==> m.keys[ch[b][j]] != op.key)
    && op.result.position == Saturated(p)
  }

  // The slot at place p of the call's chain is `i` and holds its key.
  ghost predicate FoundAt(cfg: Config, m: Mem, ch: Chains, op: Op, p: nat, i: nat)
    requires WellChained(cfg.shape, m, ch)
  {
    var c := ch[Bucket(cfg.shape, op.key)];
    p < |c| && c[p] == i && m.keys[i] == op.key
  }

  ghost predicate Finished(cfg: Config, m: Mem, ch: Chains, op: Op, p: nat)
    requires WellChained(cfg.shape, m, ch) && op.pc.Done?
  {
    match op.result.status
    case Success => FoundAt(cfg, m, ch, op, p, op.result.index) && m.values[op.result.index] == op.value && op.slot == op.result.index
    case Existing(freed) => FoundAt(cfg, m, ch, op, p, op.result.index) && freed == (op.slot != INVALID)
    case Failed => op.result.index == INVALID && (m.failed || m.erasable) && (op.slot != INVALID ==> m.failed)
  }

  ghost predicate OpInv(cfg: Config, m: Mem, ch: Chains, op: Op, p: nat)
    requires WellChained(cfg.shape, m, ch)
  {
    && Walked(cfg, m, ch, op, p)
    && op.hint / BLOCK < BlockCount(cfg.shape.capacity)
    && (op.curr == INVALID || op.curr < cfg.shape.capacity)
    && (op.slot == INVALID || op.slot < cfg.shape.capacity)
    && (Holding(op) ==> HoldsOwn(cfg, m, ch, op))
    && (!op.pc.Done? ==> op.result.status.Failed? && op.result.index == INVALID)
    && (match op.pc
        case Enter | ReadModified | MarkModified | Search | Fail | Claim => op.slot == INVALID
        case LoadNext => true
        case Compare => op.curr != INVALID ==> p < |ch[Bucket(cfg.shape, op.key)]| && ch[Bucket(cfg.shape, op.key)][p] == op.curr
        case Release => op.curr != INVALID && FoundAt(cfg, m, ch, op, p, op.curr)
        case WriteKey | WriteValue | CheckFailed => op.slot != INVALID
        case Append(last) => op.slot != INVALID && (last ==> m.failed)
        case Done => Finished(cfg, m, ch, op, p))
  }

  // What one call relies on while others move: chains only grow at their tails, chained slots keep key and
  // value, flags are not lowered, and its own claimed slot is left alone.
  ghost predicate Undisturbed(cfg: Config, m: Mem, ch: Chains, m': Mem, ch': Chains, op: Op)
    requires Sized(cfg.shape, m) && Sized(cfg.shape, m')
  {
    && |ch| == |ch'|
    && (forall b :: 0 <= b < |ch| ==> ch[b] <= ch'[b])
    && (forall i :: 0 <= i < cfg.shape.capacity && Chained(ch, i) ==> m'.keys[i] == m.keys[i] && m'.values[i] == m.values[i])
    && (m.failed ==> m'.failed)
    && (m.erasable == m'.erasable)
    && (Holding(op) && op.slot < cfg.shape.capacity ==>
          && (Chained(ch', op.slot) ==> Chained(ch, op.slot))
          && (Test(cfg.shape.capacity, m.avail, op.slot) ==> Test(cfg.shape.capacity, m'.avail, op.slot))
          && m'.keys[op.slot] == m.keys[op.slot] && m'.values[op.slot] == m.values[op.slot])
  }

  lemma ChainedAt(ch: Chains, b: nat, j: nat)
    requires b < |ch| && j < |ch[b]|
    ensures Chained(ch, ch[b][j])
  {
    assert ch[b][j] in ch[b];
  }

  // The walk of a call is still right after any undisturbing change.
  lemma WalkStable(cfg: Config, m: Mem, ch: Chains, m': Mem, ch': Chains, op: Op, p: nat)
    requires WellChained(cfg.shape, m, ch) && WellChained(cfg.shape, m', ch')
    requires Walked(cfg, m, ch, op, p) && Undisturbed(cfg, m, ch, m', ch', op)
    ensures Walked(cfg, m', ch', op, p)
    ensures var b := Bucket(cfg.shape, op.key);
            forall j: nat :: j < |ch[b]| ==>
              && ch'[b][j] == ch[b][j] && ch[b][j] < cfg.shape.capacity
              && m'.keys[ch[b][j]] == m.keys[ch[b][j]] && m'.values[ch[b][j]] == m.values[ch[b][j]]
  {
    var b := Bucket(cfg.shape, op.key);
    forall j: nat | j < |ch[b]|
      ensures ch'[b][j] == ch[b][j] && ch[b][j] < cfg.shape.capacity
      ensures m'.keys[ch[b][j]] == m.keys[ch[b][j]] && m'.values[ch[b][j]] == m.values[ch[b][j]]
    {
      ChainedAt(ch, b, j);
      assert ch[b] <= ch'[b];
      ChainedInRange(cfg.shape, m, ch, ch[b][j]);
    }
  }

  lemma OpInvStable(cfg: Config, m: Mem, ch: Chains, m': Mem, ch': Chains, op: Op, p: nat)
    requires WellChained(cfg.shape, m, ch) && WellChained(cfg.shape, m', ch')
    requires OpInv(cfg, m, ch, op, p) && Undisturbed(cfg, m, ch, m', ch', op)
    ensures OpInv(cfg, m', ch', op, p)
  {
    WalkStable(cfg, m, ch, m', ch', op, p);
  }

  // A claimed slot belongs to exactly one call.
  ghost predicate HoldersApart(ops: seq<Op>) {
    forall t, u :: 0 <= t < u < |ops| && Holding(ops[t]) && Holding(ops[u]) ==> ops[t].slot != ops[u].slot
  }

  // A slot is appended by one call only.
  ghost predicate OneWinner(ops: seq<Op>) {
    forall t, u :: 0 <= t < u < |ops| && Won(ops[t]) && Won(ops[u]) ==> ops[t].slot != ops[u].slot
  }

  predicate Won(op: Op) {
    op.pc.Done? && op.result.status.Success?
  }

  ghost predicate Inv(cfg: Config, s: State, ch: Chains, walked: seq<nat>) {
    && WellChained(cfg.shape, s.mem, ch)
    && AllSet(cfg.shape, s.mem, ch)
    && |walked| == |s.ops|
    && (forall t :: 0 <= t < |s.ops| ==> OpInv(cfg, s.mem, ch, s.ops[t], walked[t]))
    && HoldersApart(s.ops)
    && OneWinner(s.ops)
  }

  lemma InvRunnable(cfg: Config, s: State, ch: Chains, walked: seq<nat>)
    requires Inv(cfg, s, ch, walked)
    ensures AllRunnable(cfg, s)
  {
    forall t | 0 <= t < |s.ops|
      ensures Runnable(cfg, s.mem, s.ops[t])
    {
      var b := Bucket(cfg.shape, s.ops[t].key);
      assert OpInv(cfg, s.mem, ch, s.ops[t], walked[t]);
      LoadAlongChain(cfg.shape, s.mem, ch, b, walked[t]);
    }
  }

  /* ---------- Every step keeps the invariant ---------- */

  // Re-establishing the invariant after call t moved.
  lemma Rebuild(cfg: Config, s: State, ch: Chains, walked: seq<nat>, t: nat,
                m': Mem, op': Op, ch': Chains, p': nat)
    requires Inv(cfg, s, ch, walked) && t < |s.ops|
    requires WellChained(cfg.shape, m', ch') && AllSet(cfg.shape, m', ch')
    requires OpInv(cfg, m', ch', op', p')
    requires forall u :: 0 <= u < |s.ops| && u != t ==> Undisturbed(cfg, s.mem, ch, m', ch', s.ops[u])
    requires HoldersApart(s.ops[t := op']) && OneWinner(s.ops[t := op'])
    ensures Inv(cfg, State(m', s.ops[t := op']), ch', walked[t := p'])
  {
    forall u | 0 <= u < |s.ops| && u != t
      ensures OpInv(cfg, m', ch', s.ops[u], walked[u])
    {
      OpInvStable(cfg, s.mem, ch, m', ch', s.ops[u], walked[u]);
    }
  }

  // Chains read only heads, next indices and the keys of chained slots.
  lemma SameChains(sh: Shape, m: Mem, m': Mem, ch: Chains)
    requires WellChained(sh, m, ch) && Sized(sh, m') && m'.heads == m.heads && m'.next == m.next
    requires forall i :: 0 <= i < sh.capacity && Chained(ch, i) ==> m'.keys[i] == m.keys[i]
    ensures WellChained(sh, m', ch)
  {
    forall b | 0 <= b < |ch|
      ensures Linked(sh, m', b, ch[b]) && KeysFit(sh, m', b, ch[b])
    {
      assert Linked(sh, m, b, ch[b]) && KeysFit(sh, m, b, ch[b]) && InRange(sh, ch[b]);
      forall j | 0 <= j < |ch[b]|
        ensures m'.keys[ch[b][j]] == m.keys[ch[b][j]]
      {
        ChainedAt(ch, b, j);
      }
      forall p: nat | p <= |ch[b]|
        ensures Load(sh, m', PtrAt(b, ch[b], p)) == Target(ch[b], p)
      {
        assert Load(sh, m, PtrAt(b, ch[b], p)) == Target(ch[b], p);
      }
    }
  }

  // Steps that write nothing but a flag.
  predicate OnlyFlags(m: Mem, m': Mem) {
    && m' == m.(modified := m'.modified, failed := m'.failed)
    && (m.failed ==> m'.failed)
  }

  lemma QuietStep(cfg: Config, s: State, ch: Chains, walked: seq<nat>, t: nat, m': Mem, op': Op, p': nat)
    requires Inv(cfg, s, ch, walked) && t < |s.ops|
    requires OnlyFlags(s.mem, m') && Sized(cfg.shape, m')
    requires Holding(op') == Holding(s.ops[t]) && op'.slot == s.ops[t].slot && !(Won(op') && !Won(s.ops[t]))
    requires WellChained(cfg.shape, m', ch) ==> OpInv(cfg, m', ch, op', p')
    ensures Inv(cfg, State(m', s.ops[t := op']), ch, walked[t := p'])
  {
    SameChains(cfg.shape, s.mem, m', ch);
    Rebuild(cfg, s, ch, walked, t, m', op', ch, p');
  }

  // A search never produces a hint outside the bitset.
  lemma SearchKeepsHint(cfg: Config, m: Mem, op: Op)
    requires Runnable(cfg, m, op)
    ensures SearchStep(cfg, m, op).hint / BLOCK < BlockCount(cfg.shape.capacity)
  {
    FindAnyUnsetNearOutcome(cfg.shape.capacity, m.avail, op.hint, Bucket(cfg.shape, op.key));
  }

  lemma FlagStepKeepsInv(cfg: Config, s: State, ch: Chains, walked: seq<nat>, t: nat)
    requires Inv(cfg, s, ch, walked) && t < |s.ops| && AllRunnable(cfg, s)
    requires var pc := s.ops[t].pc; pc.Enter? || pc.ReadModified? || pc.MarkModified? || pc.LoadNext? || pc.Search? || pc.Fail? || pc.CheckFailed? || pc.Done?
    ensures Inv(cfg, Step(cfg, s, t), ch, walked)
  {
    var op := s.ops[t];
    assert OpInv(cfg, s.mem, ch, op, walked[t]);
    var (m', op') := OpStep(cfg, s.mem, op);
    if op.pc.LoadNext? {
      var b := Bucket(cfg.shape, op.key);
      LoadAlongChain(cfg.shape, s.mem, ch, b, walked[t]);
      if walked[t] < |ch[b]| {
        ChainedAt(ch, b, walked[t]);
        ChainedInRange(cfg.shape, s.mem, ch, ch[b][walked[t]]);
      }
    }
    if op.pc.Search? {
      SearchKeepsHint(cfg, s.mem, op);
    }
    assert walked == walked[t := walked[t]];
    QuietStep(cfg, s, ch, walked, t, m', op', walked[t]);
  }

  // How far call op has walked, and what the chains are, after its step.
  ghost function WalkedAfter(cfg: Config, m: Mem, op: Op, p: nat): nat
    requires Runnable(cfg, m, op)
  {
    if op.pc.Compare? && op.curr != INVALID && m.keys[op.curr] != op.key then p + 1 else p
  }

  ghost function ChainsAfter(cfg: Config, m: Mem, op: Op, ch: Chains): Chains
    requires Runnable(cfg, m, op) && |ch| == cfg.shape.buckets
  {
    if op.pc.Append? && Load(cfg.shape, m, op.ptr) == INVALID
    then Appended(ch, Bucket(cfg.shape, op.key), op.slot) else ch
  }

  ghost predicate StepKeeps(cfg: Config, s: State, ch: Chains, walked: seq<nat>, t: nat)
    requires Inv(cfg, s, ch, walked) && t < |s.ops| && AllRunnable(cfg, s)
  {
    Inv(cfg, Step(cfg, s, t), ChainsAfter(cfg, s.mem, s.ops[t], ch),
        walked[t := WalkedAfter(cfg, s.mem, s.ops[t], walked[t])])
  }

  lemma HintOfSlot(size: nat, i: nat)
    requires i < size
    ensures i / BLOCK < BlockCount(size)
  {
  }

  lemma CompareStep(cfg: Config, s: State, ch: Chains, walked: seq<nat>, t: nat)
    requires Inv(cfg, s, ch, walked) && t < |s.ops| && AllRunnable(cfg, s)
    requires s.ops[t].pc.Compare?
    ensures StepKeeps(cfg, s, ch, walked, t)
  {
    var op := s.ops[t];
    assert OpInv(cfg, s.mem, ch, op, walked[t]);
    var (m', op') := OpStep(cfg, s.mem, op);
    if op.curr != INVALID {
      HintOfSlot(cfg.shape.capacity, op.curr);
    }
    QuietStep(cfg, s, ch, walked, t, m', op', WalkedAfter(cfg, s.mem, op, walked[t]));
  }

  // A free slot belongs to no chain and to no call; after the claim it belongs to this call alone.
  lemma ClaimApart(cfg: Config, s: State, ch: Chains, walked: seq<nat>, t: nat, op': Op)
    requires Inv(cfg, s, ch, walked) && t < |s.ops| && !Holding(s.ops[t]) && Holding(op') && op'.slot < cfg.shape.capacity
    requires !Test(cfg.shape.capacity, s.mem.avail, op'.slot) && !Won(op')
    ensures !Chained(ch, op'.slot)
    ensures HoldersApart(s.ops[t := op']) && OneWinner(s.ops[t := op'])
  {
    var m, i := s.mem, op'.slot;
    forall u | 0 <= u < |s.ops| && u != t && Holding(s.ops[u])
      ensures s.ops[u].slot != i
    {
      assert OpInv(cfg, m, ch, s.ops[u], walked[u]);
    }
  }

  // A claim takes a bit that nobody had.
  lemma ClaimStep(cfg: Config, s: State, ch: Chains, walked: seq<nat>, t: nat)
    requires Inv(cfg, s, ch, walked) && t < |s.ops| && AllRunnable(cfg, s)
    requires s.ops[t].pc.Claim?
    ensures StepKeeps(cfg, s, ch, walked, t)
  {
    var op, m, sh := s.ops[t], s.mem, cfg.shape;
    assert OpInv(cfg, m, ch, op, walked[t]);
    var (m', op') := OpStep(cfg, m, op);
    if op.hint < sh.capacity && !Test(sh.capacity, m.avail, op.hint) {
      var i := op.hint;
      UpdateFrame(sh, m, i, true);
      SameChains(sh, m, m', ch);
      ClaimApart(cfg, s, ch, walked, t, op');
      Rebuild(cfg, s, ch, walked, t, m', op', ch, walked[t]);
    } else {
      QuietStep(cfg, s, ch, walked, t, m', op', walked[t]);
    }
  }

  // One bit changes, every other bit and the layout stay.
  lemma UpdateFrame(sh: Shape, m: Mem, i: nat, b: bool)
    requires Sized(sh, m) && i < sh.capacity
    ensures Sized(sh, m.(avail := Update(m.avail, i, b)))
    ensures forall j: nat :: j != i ==> Test(sh.capacity, Update(m.avail, i, b), j) == Test(sh.capacity, m.avail, j)
    ensures Test(sh.capacity, Update(m.avail, i, b), i) == b
  {
    forall j: nat | j < sh.capacity
      ensures Bit(Update(m.avail, i, b), j) == if i == j then b else Bit(m.avail, j)
    {
      UpdateAt(m.avail, i, b, j);
    }
  }

  // Releasing a claimed slot clears a bit that was set; nobody else is using it.
  lemma ReleaseStep(cfg: Config, s: State, ch: Chains, walked: seq<nat>, t: nat)
    requires Inv(cfg, s, ch, walked) && t < |s.ops| && AllRunnable(cfg, s)
    requires s.ops[t].pc.Release?
    ensures StepKeeps(cfg, s, ch, walked, t)
    ensures s.ops[t].slot != INVALID ==> Test(cfg.shape.capacity, s.mem.avail, s.ops[t].slot)
  {
    var op, m, sh := s.ops[t], s.mem, cfg.shape;
    assert OpInv(cfg, m, ch, op, walked[t]);
    var (m', op') := OpStep(cfg, m, op);
    if op.slot != INVALID {
      var i := op.slot;
      UpdateFrame(sh, m, i, false);
      SameChains(sh, m, m', ch);
      Rebuild(cfg, s, ch, walked, t, m', op', ch, walked[t]);
    } else {
      QuietStep(cfg, s, ch, walked, t, m', op', walked[t]);
    }
  }

  // The slot that a call holds is in no chain and in no other call's hands.
  lemma WriteSurroundings(cfg: Config, s: State, ch: Chains, walked: seq<nat>, t: nat, m': Mem)
    requires Inv(cfg, s, ch, walked) && t < |s.ops| && Holding(s.ops[t]) && Sized(cfg.shape, m')
    requires m' == s.mem.(keys := m'.keys, values := m'.values)
    requires forall i :: 0 <= i <= cfg.shape.capacity && i != s.ops[t].slot ==>
               m'.keys[i] == s.mem.keys[i] && m'.values[i] == s.mem.values[i]
    ensures WellChained(cfg.shape, m', ch) && AllSet(cfg.shape, m', ch)
    ensures forall u :: 0 <= u < |s.ops| && u != t ==> Undisturbed(cfg, s.mem, ch, m', ch, s.ops[u])
  {
    assert OpInv(cfg, s.mem, ch, s.ops[t], walked[t]);
    SameChains(cfg.shape, s.mem, m', ch);
  }

  // Writing the key or the value of a claimed slot is invisible to everyone else.
  lemma WriteStep(cfg: Config, s: State, ch: Chains, walked: seq<nat>, t: nat)
    requires Inv(cfg, s, ch, walked) && t < |s.ops| && AllRunnable(cfg, s)
    requires s.ops[t].pc.WriteKey? || s.ops[t].pc.WriteValue?
    ensures StepKeeps(cfg, s, ch, walked, t)
  {
    var op, m, sh := s.ops[t], s.mem, cfg.shape;
    assert OpInv(cfg, m, ch, op, walked[t]);
    var (m', op') := OpStep(cfg, m, op);
    WriteSurroundings(cfg, s, ch, walked, t, m');
    forall j | 0 <= j < walked[t]
      ensures m'.keys[ch[Bucket(sh, op.key)][j]] == m.keys[ch[Bucket(sh, op.key)][j]]
    {
      ChainedAt(ch, Bucket(sh, op.key), j);
    }
    Rebuild(cfg, s, ch, walked, t, m', op', ch, walked[t]);
  }

  // A pointer holding the invalid index is the tail, so the call has walked its whole chain.
  lemma AtTail(cfg: Config, s: State, ch: Chains, walked: seq<nat>, t: nat)
    requires Inv(cfg, s, ch, walked) && t < |s.ops| && AllRunnable(cfg, s)
    requires s.ops[t].pc.Append? && Load(cfg.shape, s.mem, s.ops[t].ptr) == INVALID
    ensures var op := s.ops[t];
            var b := Bucket(cfg.shape, op.key);
            && walked[t] == |ch[b]| && op.ptr == PtrAt(b, ch[b], |ch[b]|)
            && s.mem.keys[op.slot] == op.key && s.mem.values[op.slot] == op.value && !Chained(ch, op.slot)
            && (forall j :: 0 <= j < |ch[b]| ==> s.mem.keys[ch[b][j]] != op.key)
  {
    var op := s.ops[t];
    assert OpInv(cfg, s.mem, ch, op, walked[t]);
    LoadAlongChain(cfg.shape, s.mem, ch, Bucket(cfg.shape, op.key), walked[t]);
  }

  lemma AppendStep(cfg: Config, s: State, ch: Chains, walked: seq<nat>, t: nat)
    requires Inv(cfg, s, ch, walked) && t < |s.ops| && AllRunnable(cfg, s)
    requires s.ops[t].pc.Append?
    ensures StepKeeps(cfg, s, ch, walked, t)
  {
    var op, m, sh := s.ops[t], s.mem, cfg.shape;
    assert OpInv(cfg, m, ch, op, walked[t]);
    var (m', op') := OpStep(cfg, m, op);
    if Load(sh, m, op.ptr) == INVALID {
      AtTail(cfg, s, ch, walked, t);
      var b, i := Bucket(sh, op.key), op.slot;
      var ch' := Appended(ch, b, i);
      AppendKeepsWellChained(sh, m, ch, i);
      AppendSurroundings(cfg, s, ch, walked, t, m', op');
      assert ch'[b][|ch[b]|] == i;
      assert Walked(cfg, m', ch', op', walked[t]) by {
        assert PtrAt(b, ch'[b], |ch[b]|) == PtrAt(b, ch[b], |ch[b]|);
      }
      Rebuild(cfg, s, ch, walked, t, m', op', ch', walked[t]);
    } else {
      QuietStep(cfg, s, ch, walked, t, m', op', walked[t]);
    }
  }

  lemma AppendSurroundings(cfg: Config, s: State, ch: Chains, walked: seq<nat>, t: nat, m': Mem, op': Op)
    requires Inv(cfg, s, ch, walked) && t < |s.ops| && AllRunnable(cfg, s)
    requires s.ops[t].pc.Append? && Load(cfg.shape, s.mem, s.ops[t].ptr) == INVALID
    requires (m', op') == OpStep(cfg, s.mem, s.ops[t])
    ensures var ch' := Appended(ch, Bucket(cfg.shape, s.ops[t].key), s.ops[t].slot);
            && AllSet(cfg.shape, m', ch')
            && HoldersApart(s.ops[t := op']) && OneWinner(s.ops[t := op'])
            && (forall u :: 0 <= u < |s.ops| && u != t ==> Undisturbed(cfg, s.mem, ch, m', ch', s.ops[u]))
  {
    var op, m, sh := s.ops[t], s.mem, cfg.shape;
    var b, i := Bucket(sh, op.key), op.slot;
    var ch' := Appended(ch, b, i);
    assert OpInv(cfg, m, ch, op, walked[t]);
    assert Holding(op) && Test(sh.capacity, m.avail, i);
    forall j: nat
      ensures Chained(ch', j) <==> j == i || Chained(ch, j)
    {
      ChainedAfterAppend(ch, b, i, j);
    }
    NewWinner(cfg, s, ch, walked, t, op');
  }

  // An unchained slot has no winner yet.
  lemma NewWinner(cfg: Config, s: State, ch: Chains, walked: seq<nat>, t: nat, op': Op)
    requires Inv(cfg, s, ch, walked) && t < |s.ops| && !Chained(ch, op'.slot)
    ensures OneWinner(s.ops[t := op'])
  {
    forall u | 0 <= u < |s.ops| && u != t && Won(s.ops[u])
      ensures s.ops[u].slot != op'.slot
    {
      assert OpInv(cfg, s.mem, ch, s.ops[u], walked[u]);
      ChainedAt(ch, Bucket(cfg.shape, s.ops[u].key), walked[u]);
    }
  }

  /** Every step of every call keeps the invariant: chains stay finite, acyclic and disjoint, their slots
      keep set bits and keys of their own bucket, no key appears twice, and a claimed slot is unchained, set
      and held by exactly one call. */
  lemma StepKeepsInv(cfg: Config, s: State, ch: Chains, walked: seq<nat>, t: nat)
    requires Inv(cfg, s, ch, walked) && t < |s.ops| && AllRunnable(cfg, s)
    ensures StepKeeps(cfg, s, ch, walked, t)
  {
    match s.ops[t].pc
    case Compare => CompareStep(cfg, s, ch, walked, t);
    case Claim => ClaimStep(cfg, s, ch, walked, t);
    case Release => ReleaseStep(cfg, s, ch, walked, t);
    case WriteKey => WriteStep(cfg, s, ch, walked, t);
    case WriteValue => WriteStep(cfg, s, ch, walked, t);
    case Append(_) => AppendStep(cfg, s, ch, walked, t);
    case _ =>
      FlagStepKeepsInv(cfg, s, ch, walked, t);
      assert walked[t := walked[t]] == walked;
  }

  /* ---------- Runs ---------- */

  ghost function Run(cfg: Config, s: State, schedule: seq<nat>): State {
    if schedule == [] then s
    else Step(cfg, Run(cfg, s, schedule[..|schedule| - 1]), schedule[|schedule| - 1])
  }

  // All calls have returned.
  ghost predicate AtRest(s: State) {
    forall t :: 0 <= t < |s.ops| ==> s.ops[t].pc.Done?
  }

  // Calls keep their arguments.
  lemma {:induction false} RunKeepsArguments(cfg: Config, s: State, schedule: seq<nat>)
    ensures |Run(cfg, s, schedule).ops| == |s.ops|
    ensures forall t :: 0 <= t < |s.ops| ==>
              Run(cfg, s, schedule).ops[t].key == s.ops[t].key && Run(cfg, s, schedule).ops[t].value == s.ops[t].value
  {
    if schedule != [] {
      RunKeepsArguments(cfg, s, schedule[..|schedule| - 1]);
    }
  }

  // Insert calls about to start. The table may hold bits that belong to no chain, left by an earlier phase.
  ghost predicate Starting(cfg: Config, s: State, ch: Chains) {
    && WellChained(cfg.shape, s.mem, ch)
    && AllSet(cfg.shape, s.mem, ch)
    && (forall t :: 0 <= t < |s.ops| ==> s.ops[t] == Call(cfg, s.ops[t].key, s.ops[t].value))
  }

  function Zeros(n: nat): seq<nat> {
    seq(n, _ => 0)
  }

  lemma FirstHintInRange(sh: Shape, b: nat)
    requires ValidShape(sh) && b < sh.buckets
    ensures FirstHint(sh, b) < sh.capacity
  {
    assert b * sh.capacity <= (sh.buckets - 1) * sh.capacity;
    assert b * sh.capacity < sh.buckets * sh.capacity;
    QuotientBelow(b * sh.capacity, sh.buckets, sh.capacity);
  }

  lemma MultiplyMonotone(d: nat, x: nat, y: nat)
    requires x <= y
    ensures d * x <= d * y
  {
  }

  lemma QuotientBelow(x: nat, d: nat, n: nat)
    requires d > 0 && x < d * n
    ensures x / d < n
  {
    var q := x / d;
    assert d * q <= x;
    if n <= q {
      MultiplyMonotone(d, n, q);
      assert false;
    }
  }

  lemma StartingInv(cfg: Config, s: State, ch: Chains)
    requires Starting(cfg, s, ch)
    ensures Inv(cfg, s, ch, Zeros(|s.ops|))
  {
    forall t | 0 <= t < |s.ops|
      ensures OpInv(cfg, s.mem, ch, s.ops[t], 0) && !Holding(s.ops[t])
    {
      var b := Bucket(cfg.shape, s.ops[t].key);
      FirstHintInRange(cfg.shape, b);
      HintOfSlot(cfg.shape.capacity, FirstHint(cfg.shape, b));
    }
  }

  // The structure of every reachable state.
  lemma {:induction false} RunKeepsInv(cfg: Config, s: State, ch: Chains, schedule: seq<nat>)
    returns (ch': Chains, walked: seq<nat>)
    requires Starting(cfg, s, ch)
    ensures Inv(cfg, Run(cfg, s, schedule), ch', walked)
  {
    if schedule == [] {
      StartingInv(cfg, s, ch);
      ch', walked := ch, Zeros(|s.ops|);
    } else {
      var n := |schedule| - 1;
      ch', walked := RunKeepsInv(cfg, s, ch, schedule[..n]);
      var u, t := Run(cfg, s, schedule[..n]), schedule[n];
      if t < |u.ops| {
        InvRunnable(cfg, u, ch', walked);
        StepKeepsInv(cfg, u, ch', walked, t);
        ch', walked := ChainsAfter(cfg, u.mem, u.ops[t], ch'), walked[t := WalkedAfter(cfg, u.mem, u.ops[t], walked[t])];
      }
    }
  }

  /** Under every schedule of any number of inserts: the memory still spells out one finite acyclic chain per
      bucket, no slot is in two places, every chained slot has its bit set and a key of its own bucket, no
      key is chained twice, and no call ever leaves the bounds of an array. */
  lemma EveryRunWellChained(cfg: Config, s: State, ch: Chains, schedule: seq<nat>)
    requires Starting(cfg, s, ch)
    ensures AllRunnable(cfg, Run(cfg, s, schedule))
    ensures exists ch' :: WellChained(cfg.shape, Run(cfg, s, schedule).mem, ch') && AllSet(cfg.shape, Run(cfg, s, schedule).mem, ch')
  {
    var ch', walked := RunKeepsInv(cfg, s, ch, schedule);
    InvRunnable(cfg, Run(cfg, s, schedule), ch', walked);
  }
}
