/** What users of concurrent inserts may rely on: each call takes effect at one instant of its own, the first
    writer of a key wins, and the reported list positions are places in the chains. */
module InsertHistory {
  import opened MapMemory
  import opened InsertProtocol

  /* ---------- The atomic dictionary ---------- */

  datatype Outcome = Pending | Inserted(index: nat) | Present(index: nat) | Refused

  datatype Atomic = Atomic(table: map<Key, (nat, Value)>, outcomes: seq<Outcome>)

  // insert(k, v) as one indivisible operation of call t, with the outcome it reports.
  ghost predicate AtomicInsert(a: Atomic, t: nat, k: Key, v: Value, a': Atomic) {
    && t < |a.outcomes| == |a'.outcomes| && a.outcomes[t] == Pending
    && a'.outcomes == a.outcomes[t := a'.outcomes[t]]
    && match a'.outcomes[t]
       case Pending => false
       case Present(i) => k in a.table && a.table[k].0 == i && a'.table == a.table
       case Inserted(i) => k !in a.table && a'.table == a.table[k := (i, v)] && Unused(a.table, i)
       case Refused => a'.table == a.table
  }

  ghost predicate Unused(table: map<Key, (nat, Value)>, i: nat) {
    forall k :: k in table ==> table[k].0 != i
  }

  function OutcomeOf(op: Op): Outcome {
    if !op.pc.Done? then Pending
    else match op.result.status
      case Success => Inserted(op.result.index)
      case Existing(_) => Present(op.result.index)
      case Failed => Refused
  }

  ghost function Abstraction(cfg: Config, s: State, ch: Chains): Atomic
    requires WellChained(cfg.shape, s.mem, ch)
  {
    Atomic(Contents(cfg.shape, s.mem, ch), seq(|s.ops|, t requires 0 <= t < |s.ops| => OutcomeOf(s.ops[t])))
  }

  ghost predicate SameChained(sh: Shape, m: Mem, m': Mem, ch: Chains)
    requires Sized(sh, m) && Sized(sh, m')
  {
    forall i :: 0 <= i < sh.capacity && Chained(ch, i) ==> m'.keys[i] == m.keys[i] && m'.values[i] == m.values[i]
  }

  // Chains and the keys and values they hold decide the contents.
  lemma ContentsIncluded(sh: Shape, m: Mem, m': Mem, ch: Chains)
    requires WellChained(sh, m, ch) && WellChained(sh, m', ch) && SameChained(sh, m, m', ch)
    ensures forall k :: k in Contents(sh, m, ch) ==> k in Contents(sh, m', ch) && Contents(sh, m', ch)[k] == Contents(sh, m, ch)[k]
  {
    forall k | k in Contents(sh, m, ch)
      ensures k in Contents(sh, m', ch) && Contents(sh, m', ch)[k] == Contents(sh, m, ch)[k]
    {
      ContentsFrom(sh, m, ch, k);
      KeptEntry(sh, m, ch, m', ch, k);
    }
  }

  lemma ContentsUnchanged(sh: Shape, m: Mem, m': Mem, ch: Chains)
    requires WellChained(sh, m, ch) && WellChained(sh, m', ch) && SameChained(sh, m, m', ch)
    ensures Contents(sh, m', ch) == Contents(sh, m, ch)
  {
    ContentsIncluded(sh, m, m', ch);
    ContentsIncluded(sh, m', m, ch);
    EqualMaps(Contents(sh, m', ch), Contents(sh, m, ch));
  }

  lemma EqualMaps<K, V>(a: map<K, V>, b: map<K, V>)
    requires forall k :: k in a ==> k in b && b[k] == a[k]
    requires forall k :: k in b ==> k in a
    ensures a == b
  {
  }

  // A slot that a call holds is not part of the dictionary, so writing it is invisible.
  lemma WritesAreInvisible(cfg: Config, s: State, ch: Chains, walked: seq<nat>, t: nat)
    requires Inv(cfg, s, ch, walked) && t < |s.ops| && AllRunnable(cfg, s)
    ensures Sized(cfg.shape, OpStep(cfg, s.mem, s.ops[t]).0)
    ensures SameChained(cfg.shape, s.mem, OpStep(cfg, s.mem, s.ops[t]).0, ch)
  {
    assert OpInv(cfg, s.mem, ch, s.ops[t], walked[t]);
  }

  // The effect of one step on contents: only a successful compare-and-swap changes them.
  lemma StepContents(cfg: Config, s: State, ch: Chains, walked: seq<nat>, t: nat)
    requires Inv(cfg, s, ch, walked) && t < |s.ops| && AllRunnable(cfg, s)
    ensures var op := s.ops[t];
            var s' := Step(cfg, s, t);
            var ch' := ChainsAfter(cfg, s.mem, op, ch);
            && WellChained(cfg.shape, s'.mem, ch')
            && if op.pc.Append? && Load(cfg.shape, s.mem, op.ptr) == INVALID then
                 && op.key !in Contents(cfg.shape, s.mem, ch)
                 && Contents(cfg.shape, s'.mem, ch') == Contents(cfg.shape, s.mem, ch)[op.key := (op.slot, op.value)]
               else ch' == ch && Contents(cfg.shape, s'.mem, ch') == Contents(cfg.shape, s.mem, ch)
  {
    StepKeepsInv(cfg, s, ch, walked, t);
    var op := s.ops[t];
    assert OpInv(cfg, s.mem, ch, op, walked[t]);
    var s' := Step(cfg, s, t);
    var ch' := ChainsAfter(cfg, s.mem, op, ch);
    if op.pc.Append? && Load(cfg.shape, s.mem, op.ptr) == INVALID {
      AtTail(cfg, s, ch, walked, t);
      AppendContents(cfg.shape, s.mem, ch, op.slot, s'.mem, ch');
    } else {
      WritesAreInvisible(cfg, s, ch, walked, t);
      ContentsUnchanged(cfg.shape, s.mem, s'.mem, ch);
    }
  }

  // How a step changes the outcome of its call: not at all, or once, from pending.
  lemma StepOutcome(cfg: Config, s: State, ch: Chains, walked: seq<nat>, t: nat)
    requires Inv(cfg, s, ch, walked) && t < |s.ops| && AllRunnable(cfg, s)
    ensures var op := s.ops[t];
            var o := OutcomeOf(Step(cfg, s, t).ops[t]);
            if op.pc.Release? then OutcomeOf(op) == Pending && o == Present(op.curr)
            else if op.pc.Append? && Load(cfg.shape, s.mem, op.ptr) == INVALID then OutcomeOf(op) == Pending && o == Inserted(op.slot)
            else o == OutcomeOf(op) || (OutcomeOf(op) == Pending && o == Refused)
  {
    assert OpInv(cfg, s.mem, ch, s.ops[t], walked[t]);
  }

  lemma AbstractionAfter(cfg: Config, s: State, ch: Chains, t: nat, ch': Chains)
    requires WellChained(cfg.shape, s.mem, ch) && WellChained(cfg.shape, Step(cfg, s, t).mem, ch') && t < |s.ops|
    ensures Abstraction(cfg, Step(cfg, s, t), ch').outcomes
         == Abstraction(cfg, s, ch).outcomes[t := OutcomeOf(Step(cfg, s, t).ops[t])]
  {
  }

  // Reported and appended slots in terms of the dictionary.
  lemma ReportedSlots(cfg: Config, s: State, ch: Chains, walked: seq<nat>, t: nat)
    requires Inv(cfg, s, ch, walked) && t < |s.ops| && AllRunnable(cfg, s)
    ensures var table := Contents(cfg.shape, s.mem, ch);
            var op := s.ops[t];
            && (op.pc.Release? ==> op.key in table && table[op.key].0 == op.curr)
            && (op.pc.Append? ==> Unused(table, op.slot))
  {
    var op := s.ops[t];
    assert OpInv(cfg, s.mem, ch, op, walked[t]);
    if op.pc.Release? {
      ChainedAt(ch, Bucket(cfg.shape, op.key), walked[t]);
      ContentsAt(cfg.shape, s.mem, ch, op.curr);
    }
    if op.pc.Append? {
      forall k | k in Contents(cfg.shape, s.mem, ch)
        ensures Contents(cfg.shape, s.mem, ch)[k].0 != op.slot
      {
        ContentsFrom(cfg.shape, s.mem, ch, k);
      }
    }
  }

  // A move of the atomic dictionary, read off a new outcome and a new table.
  lemma MoveFrom(ops: seq<Op>, t: nat, a: Atomic, a': Atomic, o: Outcome)
    requires t < |ops| == |a.outcomes| && a'.outcomes == a.outcomes[t := o]
    requires match o
             case Pending => a.outcomes[t] == o && a'.table == a.table
             case Present(i) => a'.table == a.table
               && (a.outcomes[t] == o || (a.outcomes[t] == Pending && ops[t].key in a.table && a.table[ops[t].key].0 == i))
             case Inserted(i) =>
               || (a.outcomes[t] == o && a'.table == a.table)
               || (a.outcomes[t] == Pending && ops[t].key !in a.table && Unused(a.table, i)
                   && a'.table == a.table[ops[t].key := (i, ops[t].value)])
             case Refused => a'.table == a.table && (a.outcomes[t] == o || a.outcomes[t] == Pending)
    ensures AtomicMove(ops, t, a, a')
  {
    if a.outcomes[t] == o {
      assert a'.outcomes == a.outcomes;
    }
  }

  /** Every step is either invisible, or it is the one instant at which its own call happens. */
  lemma StepIsAtomic(cfg: Config, s: State, ch: Chains, walked: seq<nat>, t: nat)
    requires Inv(cfg, s, ch, walked) && t < |s.ops| && AllRunnable(cfg, s)
    ensures var s' := Step(cfg, s, t);
            var ch' := ChainsAfter(cfg, s.mem, s.ops[t], ch);
            && WellChained(cfg.shape, s'.mem, ch')
            && AtomicMove(s.ops, t, Abstraction(cfg, s, ch), Abstraction(cfg, s', ch'))
  {
    StepContents(cfg, s, ch, walked, t);
    StepOutcome(cfg, s, ch, walked, t);
    ReportedSlots(cfg, s, ch, walked, t);
    var ch' := ChainsAfter(cfg, s.mem, s.ops[t], ch);
    AbstractionAfter(cfg, s, ch, t, ch');
    MoveFrom(s.ops, t, Abstraction(cfg, s, ch), Abstraction(cfg, Step(cfg, s, t), ch'), OutcomeOf(Step(cfg, s, t).ops[t]));
  }

  /* ---------- Whole runs ---------- */

  ghost predicate AtomicMove(ops: seq<Op>, t: nat, a: Atomic, a': Atomic) {
    a' == a || (t < |ops| && AtomicInsert(a, t, ops[t].key, ops[t].value, a'))
  }

  // One atomic dictionary state per state of the run, related step by step.
  ghost predicate AtomicHistory(ops: seq<Op>, schedule: seq<nat>, history: seq<Atomic>) {
    && |history| == |schedule| + 1
    && forall n :: 0 <= n < |schedule| ==> AtomicMove(ops, schedule[n], history[n], history[n + 1])
  }

  lemma LongerHistory(ops: seq<Op>, schedule: seq<nat>, history: seq<Atomic>, t: nat, last: Atomic)
    requires AtomicHistory(ops, schedule, history) && AtomicMove(ops, t, history[|schedule|], last)
    ensures AtomicHistory(ops, schedule + [t], history + [last])
  {
  }

  // One more step of a run, with its atomic counterpart.
  lemma StepOfHistory(cfg: Config, s: State, schedule: seq<nat>, t: nat, ch: Chains, walked: seq<nat>)
    returns (ch': Chains, walked': seq<nat>)
    requires Inv(cfg, Run(cfg, s, schedule), ch, walked)
    ensures Inv(cfg, Step(cfg, Run(cfg, s, schedule), t), ch', walked')
    ensures AtomicMove(s.ops, t, Abstraction(cfg, Run(cfg, s, schedule), ch), Abstraction(cfg, Step(cfg, Run(cfg, s, schedule), t), ch'))
  {
    var u := Run(cfg, s, schedule);
    RunKeepsArguments(cfg, s, schedule);
    if t < |u.ops| {
      InvRunnable(cfg, u, ch, walked);
      StepKeepsInv(cfg, u, ch, walked, t);
      StepIsAtomic(cfg, u, ch, walked, t);
      ch', walked' := ChainsAfter(cfg, u.mem, u.ops[t], ch), walked[t := WalkedAfter(cfg, u.mem, u.ops[t], walked[t])];
    } else {
      ch', walked' := ch, walked;
    }
  }

  /** Linearizability. For every schedule there is a history of the atomic dictionary, one state per step,
      that starts at the initial contents, ends at the final contents and outcomes, and in which every call
      happens at one of its own steps. */
  lemma {:induction false} RunIsLinearizable(cfg: Config, s: State, ch: Chains, schedule: seq<nat>)
    returns (ch': Chains, walked: seq<nat>, history: seq<Atomic>)
    requires Starting(cfg, s, ch)
    ensures Inv(cfg, Run(cfg, s, schedule), ch', walked)
    ensures AtomicHistory(s.ops, schedule, history)
    ensures history[0] == Abstraction(cfg, s, ch)
    ensures history[|schedule|] == Abstraction(cfg, Run(cfg, s, schedule), ch')
  {
    if schedule == [] {
      StartingInv(cfg, s, ch);
      ch', walked, history := ch, Zeros(|s.ops|), [Abstraction(cfg, s, ch)];
    } else {
      var prefix, t := schedule[..|schedule| - 1], schedule[|schedule| - 1];
      var before;
      before, walked, history := RunIsLinearizable(cfg, s, ch, prefix);
      ch', walked := StepOfHistory(cfg, s, prefix, t, before, walked);
      var last := Abstraction(cfg, Run(cfg, s, schedule), ch');
      LongerHistory(s.ops, prefix, history, t, last);
      history := history + [last];
      assert prefix + [t] == schedule;
    }
  }

  /* ---------- What an atomic history implies ---------- */

  // The entry of key k was there from the start, or one call inserted it with its own value.
  ghost predicate Explained(s: State, first: Atomic, a: Atomic, k: Key) {
    || (k in first.table && k in a.table && a.table[k] == first.table[k])
    || (exists t :: InsertedBy(s, first, a, k, t))
  }

  ghost predicate InsertedBy(s: State, first: Atomic, a: Atomic, k: Key, t: int) {
    && 0 <= t < |s.ops| == |a.outcomes|
    && k !in first.table && k in a.table && s.ops[t].key == k
    && a.outcomes[t] == Inserted(a.table[k].0) && a.table[k].1 == s.ops[t].value
  }

  // The bookkeeping that every history keeps.
  ghost predicate FirstWriterWins(s: State, first: Atomic, a: Atomic) {
    && |a.outcomes| == |s.ops|
    && (forall k :: k in first.table ==> k in a.table && a.table[k] == first.table[k])
    && (forall k :: k in a.table ==> Explained(s, first, a, k))
    && (forall t :: 0 <= t < |s.ops| && a.outcomes[t].Inserted? ==> InsertedBy(s, first, a, s.ops[t].key, t))
    && (forall t :: 0 <= t < |s.ops| && a.outcomes[t].Present? ==>
          s.ops[t].key in a.table && a.table[s.ops[t].key].0 == a.outcomes[t].index)
    && (forall t, u :: 0 <= t < u < |s.ops| && a.outcomes[t].Inserted? && a.outcomes[u].Inserted? ==> s.ops[t].key != s.ops[u].key)
  }

  // A winner stays the winner.
  lemma WinnersStay(s: State, first: Atomic, a: Atomic, t: nat, a': Atomic, k: Key, u: int)
    requires t < |s.ops| && AtomicInsert(a, t, s.ops[t].key, s.ops[t].value, a')
    requires InsertedBy(s, first, a, k, u)
    ensures InsertedBy(s, first, a', k, u)
  {
  }

  lemma ExplanationsStay(s: State, first: Atomic, a: Atomic, t: nat, a': Atomic, k: Key)
    requires FirstWriterWins(s, first, a) && t < |s.ops|
    requires AtomicInsert(a, t, s.ops[t].key, s.ops[t].value, a') && k in a'.table
    ensures Explained(s, first, a', k)
  {
    if k in a.table {
      assert Explained(s, first, a, k);
      if u :| InsertedBy(s, first, a, k, u) {
        WinnersStay(s, first, a, t, a', k, u);
      }
    } else {
      assert InsertedBy(s, first, a', k, t);
    }
  }

  lemma AtomicInsertKeeps(s: State, first: Atomic, a: Atomic, t: nat, a': Atomic)
    requires FirstWriterWins(s, first, a) && t < |s.ops|
    requires AtomicInsert(a, t, s.ops[t].key, s.ops[t].value, a')
    ensures FirstWriterWins(s, first, a')
  {
    forall k | k in a'.table
      ensures Explained(s, first, a', k)
    {
      ExplanationsStay(s, first, a, t, a', k);
    }
    forall u | 0 <= u < |s.ops| && a'.outcomes[u].Inserted?
      ensures InsertedBy(s, first, a', s.ops[u].key, u)
      ensures u != t ==> a.outcomes[u].Inserted? && InsertedBy(s, first, a, s.ops[u].key, u)
    {
      if u != t {
        WinnersStay(s, first, a, t, a', s.ops[u].key, u);
      }
    }
  }

  lemma {:induction false} HistoryFirstWriterWins(s: State, schedule: seq<nat>, history: seq<Atomic>, n: nat)
    requires AtomicHistory(s.ops, schedule, history) && n <= |schedule|
    requires |history[0].outcomes| == |s.ops| && forall t :: 0 <= t < |s.ops| ==> history[0].outcomes[t] == Pending
    ensures FirstWriterWins(s, history[0], history[n])
  {
    if n == 0 {
      forall k | k in history[0].table
        ensures Explained(s, history[0], history[0], k)
      {
      }
    } else {
      HistoryFirstWriterWins(s, schedule, history, n - 1);
      assert AtomicMove(s.ops, schedule[n - 1], history[n - 1], history[n]);
      if history[n] != history[n - 1] {
        AtomicInsertKeeps(s, history[0], history[n - 1], schedule[n - 1], history[n]);
      }
    }
  }

  /** First writer wins, over every schedule. No key has two winners; a winner's index and value are what the
      table holds for its key; every other call for that key that reports an existing entry reports that
      same index; initial entries are never replaced; and a key is in the table afterwards only if it was
      there before or some call won it. */
  lemma RunFirstWriterWins(cfg: Config, s: State, ch: Chains, schedule: seq<nat>)
    returns (ch': Chains)
    requires Starting(cfg, s, ch)
    ensures WellChained(cfg.shape, Run(cfg, s, schedule).mem, ch')
    ensures FirstWriterWins(s, Abstraction(cfg, s, ch), Abstraction(cfg, Run(cfg, s, schedule), ch'))
  {
    var walked, history;
    ch', walked, history := RunIsLinearizable(cfg, s, ch, schedule);
    HistoryFirstWriterWins(s, schedule, history, |schedule|);
  }

  /** While the erasable flag is up, no schedule writes anything, and every call that takes a step is refused. */
  lemma {:induction false} ErasableRefuses(cfg: Config, s: State, ch: Chains, schedule: seq<nat>)
    requires Starting(cfg, s, ch) && s.mem.erasable
    ensures var end := Run(cfg, s, schedule);
            && end.mem == s.mem && |end.ops| == |s.ops|
            && forall t: nat :: t < |s.ops| ==>
                 end.ops[t] == if t in schedule then s.ops[t].(pc := Done) else s.ops[t]
  {
    if schedule != [] {
      var n := |schedule| - 1;
      ErasableRefuses(cfg, s, ch, schedule[..n]);
      var ch', walked := RunKeepsInv(cfg, s, ch, schedule[..n]);
      InvRunnable(cfg, Run(cfg, s, schedule[..n]), ch', walked);
    }
  }

  /** The reported list position is the place of the reported slot in its chain, up to the 29 bits of the field, and a
      call that meets its key reports whether it gave a slot back. */
  lemma RunPositions(cfg: Config, s: State, ch: Chains, schedule: seq<nat>, t: nat)
    returns (ch': Chains)
    requires Starting(cfg, s, ch) && t < |s.ops|
    ensures var end := Run(cfg, s, schedule);
            && |end.ops| == |s.ops|
            && WellChained(cfg.shape, end.mem, ch')
            && (OutcomeOf(end.ops[t]).Inserted? || OutcomeOf(end.ops[t]).Present? ==>
                  exists p :: 0 <= p < |ch'[Bucket(cfg.shape, s.ops[t].key)]|
                           && ch'[Bucket(cfg.shape, s.ops[t].key)][p] == end.ops[t].result.index
                           && end.ops[t].result.position == if p < 536870911 then p else 536870911)
            && (end.ops[t].pc.Done? && end.ops[t].result.status.Existing? ==>
                  end.ops[t].result.status.freed == (end.ops[t].slot != INVALID))
  {
    var walked;
    ch', walked := RunKeepsInv(cfg, s, ch, schedule);
    RunKeepsArguments(cfg, s, schedule);
    var end := Run(cfg, s, schedule);
    assert OpInv(cfg, end.mem, ch', end.ops[t], walked[t]);
  }
}
