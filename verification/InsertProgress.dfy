/** Concurrent inserts finish. A call may have to search again, walk further or retry its compare-and-swap
    only because some other call claimed, appended, released or returned, and that happens at most twice per
    call. Counting both gives a bound on the steps of unfinished calls under any schedule. */
module InsertProgress {
  import opened Bitset
  import opened MapMemory
  import opened InsertProtocol
  import opened Counting

  /* ---------- The measure ---------- */

  // How many times the call may still disturb others: a claim, and an end.
  function Stage(op: Op): nat {
    if op.pc.Done? then 0 else if op.slot != INVALID then 1 else 2
  }

  // The hinted bit can be taken right now.
  ghost predicate Fresh(cfg: Config, m: Mem, op: Op)
    requires Sized(cfg.shape, m)
  {
    op.hint < cfg.shape.capacity && !Test(cfg.shape.capacity, m.avail, op.hint)
  }

  // Steps left within the current lap, for a call without and with a claimed slot. `ahead` is the number of
  // slots of its chain that the call has not passed yet.
  ghost function SearchingPlace(cfg: Config, m: Mem, op: Op): nat
    requires Sized(cfg.shape, m)
  {
    match op.pc
    case Enter => 8
    case ReadModified => 7
    case MarkModified => 6
    case LoadNext => 5
    case Compare => if op.curr != INVALID then 4 else 3
    case Search => 2
    case Claim => if Fresh(cfg, m, op) then 1 else 6
    case _ => 1
  }

  function HoldingPlace(op: Op, ahead: nat): nat {
    match op.pc
    case WriteKey => 7
    case WriteValue => 6
    case LoadNext => if ahead == 0 then 4 else 2
    case Compare => if op.curr != INVALID then 1 else if ahead == 0 then 3 else 5
    case CheckFailed => if ahead == 0 then 2 else 4
    case Append(_) => if ahead == 0 then 1 else 3
    case _ => 0
  }

  function AttemptsLeft(cfg: Config, op: Op): nat {
    if op.attempts < MaxAttempts(cfg) then MaxAttempts(cfg) - op.attempts else 0
  }

  ghost predicate Placed(cfg: Config, m: Mem, ch: Chains, op: Op, p: nat) {
    && Sized(cfg.shape, m) && |ch| == cfg.shape.buckets
    && p <= |ch[Bucket(cfg.shape, op.key)]| <= cfg.shape.capacity
  }

  // Steps this call can still take if nobody disturbs it.
  ghost function Rank(cfg: Config, m: Mem, ch: Chains, op: Op, p: nat): (r: nat)
    requires Placed(cfg, m, ch, op, p)
    ensures r <= Lap(cfg)
  {
    var ahead := |ch[Bucket(cfg.shape, op.key)]| - p;
    if op.pc.Done? then 0
    else if op.slot != INVALID then 8 * ahead + HoldingPlace(op, ahead)
    else 8 * AttemptsLeft(cfg, op) + 8 * ahead + SearchingPlace(cfg, m, op)
  }

  function Lap(cfg: Config): nat {
    8 * (MaxAttempts(cfg) + cfg.shape.capacity + 1)
  }

  // A chain of distinct slots is no longer than the table.
  lemma ChainBounded(sh: Shape, m: Mem, ch: Chains, b: nat)
    requires WellChained(sh, m, ch) && b < sh.buckets
    ensures |ch[b]| <= sh.capacity
  {
    DistinctBounded(ch[b], sh.capacity);
  }

  lemma {:induction false} DistinctBounded(s: seq<nat>, n: nat)
    requires forall i :: 0 <= i < |s| ==> s[i] < n
    requires forall i, j :: 0 <= i < j < |s| ==> s[i] != s[j]
    ensures |s| <= n
  {
    var elems := set i | 0 <= i < |s| :: s[i];
    DistinctCardinality(s);
    BoundedSet(elems, n);
  }

  lemma {:induction false} DistinctCardinality(s: seq<nat>)
    requires forall i, j :: 0 <= i < j < |s| ==> s[i] != s[j]
    ensures |set i | 0 <= i < |s| :: s[i]| == |s|
  {
    if s != [] {
      var n := |s| - 1;
      DistinctCardinality(s[..n]);
      assert (set i | 0 <= i < |s| :: s[i]) == (set i | 0 <= i < n :: s[..n][i]) + {s[n]};
    }
  }

  ghost predicate AllPlaced(cfg: Config, s: State, ch: Chains, walked: seq<nat>) {
    |walked| == |s.ops| && forall t :: 0 <= t < |s.ops| ==> Placed(cfg, s.mem, ch, s.ops[t], walked[t])
  }

  lemma InvPlaced(cfg: Config, s: State, ch: Chains, walked: seq<nat>)
    requires Inv(cfg, s, ch, walked)
    ensures AllPlaced(cfg, s, ch, walked)
  {
    forall t | 0 <= t < |s.ops|
      ensures Placed(cfg, s.mem, ch, s.ops[t], walked[t])
    {
      assert OpInv(cfg, s.mem, ch, s.ops[t], walked[t]);
      ChainBounded(cfg.shape, s.mem, ch, Bucket(cfg.shape, s.ops[t].key));
    }
  }

  // All ranks together weigh less than one stage.
  function StageWeight(cfg: Config, calls: nat): nat {
    calls * Lap(cfg) + 1
  }

  function WeighedStage(op: Op, weight: nat): nat {
    if Stage(op) == 0 then 0 else if Stage(op) == 1 then weight else weight + weight
  }

  ghost function Stages(s: State, weight: nat): seq<nat> {
    seq(|s.ops|, t requires 0 <= t < |s.ops| => WeighedStage(s.ops[t], weight))
  }

  ghost function Ranks(cfg: Config, s: State, ch: Chains, walked: seq<nat>): (r: seq<nat>)
    requires AllPlaced(cfg, s, ch, walked)
    ensures |r| == |s.ops| && forall t :: 0 <= t < |r| ==> r[t] == Rank(cfg, s.mem, ch, s.ops[t], walked[t])
  {
    seq(|s.ops|, t requires 0 <= t < |s.ops| => Rank(cfg, s.mem, ch, s.ops[t], walked[t]))
  }

  ghost function Measure(cfg: Config, s: State, ch: Chains, walked: seq<nat>): nat
    requires AllPlaced(cfg, s, ch, walked)
  {
    Sum(Stages(s, StageWeight(cfg, |s.ops|))) + Sum(Ranks(cfg, s, ch, walked))
  }

  // Steps that can raise the rank of another call.
  predicate Disturbs(op: Op, op': Op) {
    Stage(op') < Stage(op)
  }

  /* ---------- One step ---------- */

  ghost predicate Searched(cfg: Config, m: Mem, op: Op, op': Op)
    requires Sized(cfg.shape, m)
  {
    && op' == op.(hint := op'.hint, attempts := op'.attempts, pc := op'.pc)
    && (|| (op'.attempts == op.attempts && op'.pc.Claim? && Fresh(cfg, m, op'))
        || (op'.attempts == op.attempts + 1 && (op'.pc.Fail? || (op'.pc.Claim? && op'.attempts < MaxAttempts(cfg)))))
  }

  // A search that misses moves one attempt closer to the limit; one that hits leaves a fresh hint.
  lemma SearchProgress(cfg: Config, m: Mem, op: Op)
    requires Runnable(cfg, m, op) && op.pc.Search?
    ensures Searched(cfg, m, op, SearchStep(cfg, m, op))
  {
    FindAnyUnsetNearOutcome(cfg.shape.capacity, m.avail, op.hint, Bucket(cfg.shape, op.key));
  }

  // A step that does not disturb lowers the rank of its own call and leaves bits and chains alone.
  ghost predicate Advances(cfg: Config, m: Mem, ch: Chains, op: Op, p: nat)
    requires Runnable(cfg, m, op) && Placed(cfg, m, ch, op, p)
  {
    var (m', op') := OpStep(cfg, m, op);
    var p' := WalkedAfter(cfg, m, op, p);
    && Stage(op') <= Stage(op)
    && (!Disturbs(op, op') ==>
          && ChainsAfter(cfg, m, op, ch) == ch && m'.avail == m.avail
          && Placed(cfg, m', ch, op', p') && Rank(cfg, m', ch, op', p') < Rank(cfg, m, ch, op, p))
  }

  // What a call reads at its own pointer tells whether it stands at the tail.
  ghost predicate ReadsTail(cfg: Config, m: Mem, ch: Chains, op: Op, p: nat)
    requires Runnable(cfg, m, op) && Placed(cfg, m, ch, op, p)
  {
    Load(cfg.shape, m, op.ptr) == INVALID <==> p == |ch[Bucket(cfg.shape, op.key)]|
  }

  lemma SearchedRank(cfg: Config, m: Mem, ch: Chains, op: Op, op': Op, p: nat)
    requires Placed(cfg, m, ch, op, p) && op.pc.Search? && op.slot == INVALID && Searched(cfg, m, op, op')
    ensures Stage(op') == Stage(op) && Placed(cfg, m, ch, op', p) && Rank(cfg, m, ch, op', p) < Rank(cfg, m, ch, op, p)
  {
  }

  lemma SearchAdvances(cfg: Config, m: Mem, ch: Chains, op: Op, p: nat)
    requires Runnable(cfg, m, op) && Placed(cfg, m, ch, op, p) && op.pc.Search? && op.slot == INVALID
    ensures Advances(cfg, m, ch, op, p)
  {
    var op' := SearchStep(cfg, m, op);
    SearchProgress(cfg, m, op);
    SearchedRank(cfg, m, ch, op, op', p);
    assert OpStep(cfg, m, op) == (m, op');
  }

  lemma ClaimAdvances(cfg: Config, m: Mem, ch: Chains, op: Op, p: nat)
    requires Runnable(cfg, m, op) && Placed(cfg, m, ch, op, p) && op.pc.Claim? && op.slot == INVALID
    ensures Advances(cfg, m, ch, op, p)
  {
  }

  lemma SearchingCompares(cfg: Config, m: Mem, ch: Chains, op: Op, p: nat)
    requires Runnable(cfg, m, op) && Placed(cfg, m, ch, op, p) && op.slot == INVALID && op.pc.Compare?
    requires op.curr != INVALID ==> p < |ch[Bucket(cfg.shape, op.key)]|
    ensures Advances(cfg, m, ch, op, p)
  {
  }

  lemma SearchingMoves(cfg: Config, m: Mem, ch: Chains, op: Op, p: nat)
    requires Runnable(cfg, m, op) && Placed(cfg, m, ch, op, p) && ReadsTail(cfg, m, ch, op, p)
    requires op.slot == INVALID && !op.pc.Done? && !op.pc.Search? && !op.pc.Claim? && !op.pc.Compare?
    requires !(op.pc.WriteKey? || op.pc.WriteValue? || op.pc.CheckFailed? || op.pc.Append?)
    ensures Advances(cfg, m, ch, op, p)
  {
  }

  lemma HoldingWalks(cfg: Config, m: Mem, ch: Chains, op: Op, p: nat)
    requires Runnable(cfg, m, op) && Placed(cfg, m, ch, op, p) && ReadsTail(cfg, m, ch, op, p)
    requires WellChained(cfg.shape, m, ch) && OpInv(cfg, m, ch, op, p)
    requires op.slot != INVALID && (op.pc.LoadNext? || op.pc.Compare? || op.pc.Release?)
    ensures Advances(cfg, m, ch, op, p)
  {
  }

  lemma HoldingWrites(cfg: Config, m: Mem, ch: Chains, op: Op, p: nat)
    requires Runnable(cfg, m, op) && Placed(cfg, m, ch, op, p) && ReadsTail(cfg, m, ch, op, p)
    requires op.slot != INVALID && (op.pc.WriteKey? || op.pc.WriteValue? || op.pc.CheckFailed? || op.pc.Append?)
    ensures Advances(cfg, m, ch, op, p)
  {
  }

  lemma OwnRankFalls(cfg: Config, s: State, ch: Chains, walked: seq<nat>, t: nat)
    requires Inv(cfg, s, ch, walked) && t < |s.ops| && AllRunnable(cfg, s) && !s.ops[t].pc.Done?
    ensures AllPlaced(cfg, s, ch, walked) && Advances(cfg, s.mem, ch, s.ops[t], walked[t])
  {
    InvPlaced(cfg, s, ch, walked);
    var op := s.ops[t];
    assert OpInv(cfg, s.mem, ch, op, walked[t]);
    LoadAlongChain(cfg.shape, s.mem, ch, Bucket(cfg.shape, op.key), walked[t]);
    if op.pc.Search? {
      SearchAdvances(cfg, s.mem, ch, op, walked[t]);
    } else if op.pc.Claim? {
      ClaimAdvances(cfg, s.mem, ch, op, walked[t]);
    } else if op.slot == INVALID && op.pc.Compare? {
      SearchingCompares(cfg, s.mem, ch, op, walked[t]);
    } else if op.slot == INVALID {
      SearchingMoves(cfg, s.mem, ch, op, walked[t]);
    } else if op.pc.LoadNext? || op.pc.Compare? || op.pc.Release? {
      HoldingWalks(cfg, s.mem, ch, op, walked[t]);
    } else {
      HoldingWrites(cfg, s.mem, ch, op, walked[t]);
    }
  }

  lemma StagesAfter(cfg: Config, s: State, t: nat, weight: nat)
    requires t < |s.ops|
    ensures Stages(Step(cfg, s, t), weight) == Stages(s, weight)[t := WeighedStage(Step(cfg, s, t).ops[t], weight)]
  {
  }

  // A call that does not move keeps its rank while bits and chains stay.
  lemma RanksAfterQuiet(cfg: Config, s: State, ch: Chains, walked: seq<nat>, t: nat, s': State, p': nat)
    requires AllPlaced(cfg, s, ch, walked) && t < |s.ops| && AllPlaced(cfg, s', ch, walked[t := p'])
    requires s' == State(s'.mem, s.ops[t := s'.ops[t]]) && s'.mem.avail == s.mem.avail && |s'.ops| == |s.ops|
    ensures Ranks(cfg, s', ch, walked[t := p']) == Ranks(cfg, s, ch, walked)[t := Rank(cfg, s'.mem, ch, s'.ops[t], p')]
  {
  }

  lemma RanksBounded(cfg: Config, s: State, ch: Chains, walked: seq<nat>)
    requires AllPlaced(cfg, s, ch, walked)
    ensures Sum(Ranks(cfg, s, ch, walked)) < StageWeight(cfg, |s.ops|)
  {
    SumBounded(Ranks(cfg, s, ch, walked), Lap(cfg));
  }

  /** Every step of an unfinished call lowers the measure. */
  lemma MeasureFalls(cfg: Config, s: State, ch: Chains, walked: seq<nat>, t: nat, s': State, ch': Chains, p': nat)
    requires t < |s.ops| && AllPlaced(cfg, s, ch, walked) && AllPlaced(cfg, s', ch', walked[t := p'])
    requires Runnable(cfg, s.mem, s.ops[t]) && Advances(cfg, s.mem, ch, s.ops[t], walked[t])
    requires s' == Step(cfg, s, t) && ch' == ChainsAfter(cfg, s.mem, s.ops[t], ch) && p' == WalkedAfter(cfg, s.mem, s.ops[t], walked[t])
    ensures Measure(cfg, s', ch', walked[t := p']) < Measure(cfg, s, ch, walked)
  {
    var weight := StageWeight(cfg, |s.ops|);
    StagesAfter(cfg, s, t, weight);
    SumUpdate(Stages(s, weight), t, WeighedStage(s'.ops[t], weight));
    if Disturbs(s.ops[t], s'.ops[t]) {
      RanksBounded(cfg, s', ch', walked[t := p']);
    } else {
      RanksAfterQuiet(cfg, s, ch, walked, t, s', p');
      SumUpdate(Ranks(cfg, s, ch, walked), t, Rank(cfg, s'.mem, ch, s'.ops[t], p'));
    }
  }

  /* ---------- Whole runs ---------- */

  function Active(s: State, t: nat): nat {
    if t < |s.ops| && !s.ops[t].pc.Done? then 1 else 0
  }

  // Steps of a schedule that fell on a call still unfinished.
  ghost function ActiveSteps(cfg: Config, s: State, schedule: seq<nat>): nat {
    if schedule == [] then 0
    else
      var n := |schedule| - 1;
      ActiveSteps(cfg, s, schedule[..n]) + Active(Run(cfg, s, schedule[..n]), schedule[n])
  }

  function Budget(cfg: Config, calls: nat): nat {
    calls * (StageWeight(cfg, calls) + StageWeight(cfg, calls)) + StageWeight(cfg, calls)
  }

  // A step of an unfinished call, or a turn of a finished one, within a budget for what is still to come.
  lemma StepWithin(cfg: Config, u: State, t: nat, d: Chains, w: seq<nat>)
    returns (ch': Chains, walked: seq<nat>)
    requires Inv(cfg, u, d, w) && AllPlaced(cfg, u, d, w)
    ensures Inv(cfg, Step(cfg, u, t), ch', walked) && AllPlaced(cfg, Step(cfg, u, t), ch', walked)
    ensures Measure(cfg, Step(cfg, u, t), ch', walked) + Active(u, t) <= Measure(cfg, u, d, w)
  {
    if Active(u, t) == 1 {
      InvRunnable(cfg, u, d, w);
      StepKeepsInv(cfg, u, d, w, t);
      OwnRankFalls(cfg, u, d, w, t);
      var p' := WalkedAfter(cfg, u.mem, u.ops[t], w[t]);
      ch', walked := ChainsAfter(cfg, u.mem, u.ops[t], d), w[t := p'];
      InvPlaced(cfg, Step(cfg, u, t), ch', walked);
      MeasureFalls(cfg, u, d, w, t, Step(cfg, u, t), ch', p');
    } else {
      ch', walked := d, w;
      assert Step(cfg, u, t) == u;
    }
  }

  lemma {:induction false} RunWithinMeasure(cfg: Config, s: State, ch: Chains, schedule: seq<nat>, budget: nat)
    returns (ch': Chains, walked: seq<nat>)
    requires Starting(cfg, s, ch) && AllPlaced(cfg, s, ch, Zeros(|s.ops|))
    requires Measure(cfg, s, ch, Zeros(|s.ops|)) <= budget
    ensures Inv(cfg, Run(cfg, s, schedule), ch', walked) && AllPlaced(cfg, Run(cfg, s, schedule), ch', walked)
    ensures ActiveSteps(cfg, s, schedule) + Measure(cfg, Run(cfg, s, schedule), ch', walked) <= budget
  {
    if schedule == [] {
      StartingInv(cfg, s, ch);
      ch', walked := ch, Zeros(|s.ops|);
    } else {
      var n := |schedule| - 1;
      var d, w := RunWithinMeasure(cfg, s, ch, schedule[..n], budget);
      ch', walked := StepWithin(cfg, Run(cfg, s, schedule[..n]), schedule[n], d, w);
    }
  }

  // The measure at the start, for a table of this size and this many calls.
  lemma InitialMeasure(cfg: Config, s: State, ch: Chains)
    requires AllPlaced(cfg, s, ch, Zeros(|s.ops|))
    ensures Measure(cfg, s, ch, Zeros(|s.ops|)) <= Budget(cfg, |s.ops|)
  {
    RanksBounded(cfg, s, ch, Zeros(|s.ops|));
    var weight := StageWeight(cfg, |s.ops|);
    SumBounded(Stages(s, weight), weight + weight);
  }

  /** Progress. Under any schedule whatever, unfinished calls take no more steps in total than a bound that
      depends only on the number of calls and the size of the table. */
  lemma ActiveStepsBounded(cfg: Config, s: State, ch: Chains, schedule: seq<nat>)
    requires Starting(cfg, s, ch)
    ensures ActiveSteps(cfg, s, schedule) <= Budget(cfg, |s.ops|)
  {
    StartingInv(cfg, s, ch);
    InvPlaced(cfg, s, ch, Zeros(|s.ops|));
    InitialMeasure(cfg, s, ch);
    var ch', walked := RunWithinMeasure(cfg, s, ch, schedule, Budget(cfg, |s.ops|));
  }

  // A schedule made of rounds, each of which gives every call a step.
  ghost predicate Round(calls: nat, round: seq<nat>) {
    forall t :: 0 <= t < calls ==> t in round
  }

  function Concat(rounds: seq<seq<nat>>): seq<nat> {
    if rounds == [] then [] else Concat(rounds[..|rounds| - 1]) + rounds[|rounds| - 1]
  }

  lemma {:induction false} RunSplit(cfg: Config, s: State, a: seq<nat>, b: seq<nat>)
    ensures Run(cfg, s, a + b) == Run(cfg, Run(cfg, s, a), b)
    ensures ActiveSteps(cfg, s, a + b) == ActiveSteps(cfg, s, a) + ActiveSteps(cfg, Run(cfg, s, a), b)
  {
    if b == [] {
      assert a + b == a;
    } else {
      var n := |b| - 1;
      RunSplit(cfg, s, a, b[..n]);
      assert (a + b)[..|a + b| - 1] == a + b[..n];
      assert (a + b)[|a + b| - 1] == b[n];
    }
  }

  lemma IdleStep(cfg: Config, s: State, t: nat)
    requires Active(s, t) == 0
    ensures Step(cfg, s, t) == s
  {
  }

  // A round without an active step finds every call finished.
  lemma {:induction false} IdleRound(cfg: Config, s: State, round: seq<nat>)
    requires ActiveSteps(cfg, s, round) == 0
    ensures Run(cfg, s, round) == s
    ensures forall i :: 0 <= i < |round| ==> Active(s, round[i]) == 0
  {
    if round != [] {
      var n := |round| - 1;
      IdleRound(cfg, s, round[..n]);
      IdleStep(cfg, s, round[n]);
      forall i | 0 <= i < n
        ensures Active(s, round[i]) == 0
      {
        assert round[i] == round[..n][i];
      }
    }
  }

  lemma IdleMeansDone(s: State, round: seq<nat>)
    requires Round(|s.ops|, round) && forall i :: 0 <= i < |round| ==> Active(s, round[i]) == 0
    ensures AtRest(s)
  {
    forall t | 0 <= t < |s.ops|
      ensures s.ops[t].pc.Done?
    {
      assert t in round;
      var i :| 0 <= i < |round| && round[i] == t;
      assert Active(s, round[i]) == 0;
    }
  }

  // One more round either moves a call or finds, and leaves, everything at rest.
  lemma RoundMovesOrRests(cfg: Config, s: State, past: seq<nat>, round: seq<nat>)
    requires Round(|Run(cfg, s, past).ops|, round)
    ensures ActiveSteps(cfg, s, past + round) > ActiveSteps(cfg, s, past) || AtRest(Run(cfg, s, past + round))
    ensures AtRest(Run(cfg, s, past)) ==> AtRest(Run(cfg, s, past + round))
  {
    var u := Run(cfg, s, past);
    RunSplit(cfg, s, past, round);
    if ActiveSteps(cfg, u, round) == 0 {
      IdleRound(cfg, u, round);
      IdleMeansDone(u, round);
    }
    if AtRest(u) {
      RestIsFinal(cfg, u, round);
    }
  }

  lemma {:induction false} RoundsMoveOrRest(cfg: Config, s: State, rounds: seq<seq<nat>>)
    requires forall r :: 0 <= r < |rounds| ==> Round(|s.ops|, rounds[r])
    ensures ActiveSteps(cfg, s, Concat(rounds)) >= |rounds| || AtRest(Run(cfg, s, Concat(rounds)))
  {
    if rounds != [] {
      var n := |rounds| - 1;
      var past := Concat(rounds[..n]);
      RoundsMoveOrRest(cfg, s, rounds[..n]);
      RunKeepsArguments(cfg, s, past);
      assert Round(|s.ops|, rounds[n]);
      RoundMovesOrRests(cfg, s, past, rounds[n]);
      assert Concat(rounds) == past + rounds[n];
    }
  }

  lemma {:induction false} RestIsFinal(cfg: Config, s: State, schedule: seq<nat>)
    requires AtRest(s)
    ensures Run(cfg, s, schedule) == s
  {
    if schedule != [] {
      RestIsFinal(cfg, s, schedule[..|schedule| - 1]);
    }
  }

  /** Termination. If every call gets a turn in each round, all inserts have returned after a bounded number
      of rounds, whatever happens within the rounds. */
  lemma FairRunsFinish(cfg: Config, s: State, ch: Chains, rounds: seq<seq<nat>>)
    requires Starting(cfg, s, ch)
    requires forall r :: 0 <= r < |rounds| ==> Round(|s.ops|, rounds[r])
    requires |rounds| > Budget(cfg, |s.ops|)
    ensures AtRest(Run(cfg, s, Concat(rounds)))
  {
    ActiveStepsBounded(cfg, s, ch, Concat(rounds));
    RoundsMoveOrRest(cfg, s, rounds);
  }
}
