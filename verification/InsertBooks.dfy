/** The books of an insert phase: which set bits are entries, which belong to calls on their way, which were left
    over by an earlier phase, and what size() reports afterwards. */
module InsertBooks {
  import opened Bitset
  import opened MapMemory
  import opened InsertProtocol

  /* ---------- Bits that belong to no chain ---------- */

  // Slots claimed by calls and neither appended nor released. Once its call has returned, such a slot is leaked.
  ghost function Leaked(s: State): set<nat> {
    set t | 0 <= t < |s.ops| && Holding(s.ops[t]) :: s.ops[t].slot
  }

  // Set bits outside the chains, as a phase that leaked slots leaves them to the next one.
  ghost function Strays(m: Mem, ch: Chains): set<nat> {
    SetBits(m.avail) - Slots(ch)
  }

  // Every set bit is an entry, held by a call, or one of the given strays, and only one of these.
  ghost predicate Booked(s: State, ch: Chains, strays: set<nat>) {
    && SetBits(s.mem.avail) == Slots(ch) + Leaked(s) + strays
    && strays !! Slots(ch) && strays !! Leaked(s)
  }

  // The strays keep the pairs they were left with.
  ghost predicate StraysKept(first: Mem, m: Mem, strays: set<nat>) {
    && |m.keys| == |first.keys| && |m.values| == |first.values|
    && forall i :: i in strays && i < |m.keys| && i < |m.values| ==> m.keys[i] == first.keys[i] && m.values[i] == first.values[i]
  }

  lemma LeakedSame(s: State, s': State, t: nat)
    requires t < |s.ops| == |s'.ops| && s'.ops == s.ops[t := s'.ops[t]]
    requires Holding(s'.ops[t]) == Holding(s.ops[t]) && s'.ops[t].slot == s.ops[t].slot
    ensures Leaked(s') == Leaked(s)
  {
    forall i | i in Leaked(s) ensures i in Leaked(s') {
      var u :| 0 <= u < |s.ops| && Holding(s.ops[u]) && s.ops[u].slot == i;
      assert Holding(s'.ops[u]) && s'.ops[u].slot == i;
    }
    forall i | i in Leaked(s') ensures i in Leaked(s) {
      var u :| 0 <= u < |s'.ops| && Holding(s'.ops[u]) && s'.ops[u].slot == i;
      assert Holding(s.ops[u]) && s.ops[u].slot == i;
    }
  }

  lemma LeakedGains(s: State, s': State, t: nat)
    requires t < |s.ops| == |s'.ops| && s'.ops == s.ops[t := s'.ops[t]]
    requires !Holding(s.ops[t]) && Holding(s'.ops[t])
    ensures Leaked(s') == Leaked(s) + {s'.ops[t].slot}
  {
    forall i ensures i in Leaked(s') <==> i in Leaked(s) || i == s'.ops[t].slot {
      if i in Leaked(s) {
        var u :| 0 <= u < |s.ops| && Holding(s.ops[u]) && s.ops[u].slot == i;
        assert Holding(s'.ops[u]);
      }
      assert s'.ops[t].slot in Leaked(s');
    }
  }

  lemma LeakedLoses(s: State, s': State, t: nat)
    requires t < |s.ops| == |s'.ops| && s'.ops == s.ops[t := s'.ops[t]] && HoldersApart(s.ops)
    requires Holding(s.ops[t]) && !Holding(s'.ops[t])
    ensures Leaked(s') == Leaked(s) - {s.ops[t].slot}
  {
    forall i ensures i in Leaked(s') <==> i in Leaked(s) && i != s.ops[t].slot {
      if i in Leaked(s) && i != s.ops[t].slot {
        var u :| 0 <= u < |s.ops| && Holding(s.ops[u]) && s.ops[u].slot == i;
        assert Holding(s'.ops[u]);
      }
    }
  }

  lemma SetBitsAfter(blocks: seq<Word>, i: nat, b: bool)
    requires i < BLOCK * |blocks|
    ensures SetBits(Update(blocks, i, b)) == if b then SetBits(blocks) + {i} else SetBits(blocks) - {i}
  {
    forall j: nat | j < BLOCK * |blocks|
      ensures Bit(Update(blocks, i, b), j) == if i == j then b else Bit(blocks, j)
    {
      UpdateAt(blocks, i, b, j);
    }
  }

  lemma SlotsAfterAppend(ch: Chains, b: nat, i: nat)
    requires b < |ch|
    ensures Slots(Appended(ch, b, i)) == Slots(ch) + {i}
  {
    forall j: nat ensures j in Slots(Appended(ch, b, i)) <==> j in Slots(ch) || j == i {
      SlotsAreChained(ch, j);
      SlotsAreChained(Appended(ch, b, i), j);
      ChainedAfterAppend(ch, b, i, j);
    }
  }

  /* ---------- Every step keeps the books ---------- */

  lemma ClaimBooked(cfg: Config, s: State, ch: Chains, walked: seq<nat>, t: nat, strays: set<nat>)
    requires Inv(cfg, s, ch, walked) && t < |s.ops| && AllRunnable(cfg, s) && Booked(s, ch, strays)
    requires s.ops[t].pc.Claim?
    ensures Booked(Step(cfg, s, t), ch, strays)
  {
    var op, s' := s.ops[t], Step(cfg, s, t);
    assert OpInv(cfg, s.mem, ch, op, walked[t]);
    if op.hint < cfg.shape.capacity && !Test(cfg.shape.capacity, s.mem.avail, op.hint) {
      SetBitsAfter(s.mem.avail, op.hint, true);
      assert op.hint !in SetBits(s.mem.avail);
      LeakedGains(s, s', t);
    } else {
      LeakedSame(s, s', t);
    }
  }

  lemma ReleaseBooked(cfg: Config, s: State, ch: Chains, walked: seq<nat>, t: nat, strays: set<nat>)
    requires Inv(cfg, s, ch, walked) && t < |s.ops| && AllRunnable(cfg, s) && Booked(s, ch, strays)
    requires s.ops[t].pc.Release?
    ensures Booked(Step(cfg, s, t), ch, strays)
  {
    var op, s' := s.ops[t], Step(cfg, s, t);
    assert OpInv(cfg, s.mem, ch, op, walked[t]);
    if op.slot != INVALID {
      SetBitsAfter(s.mem.avail, op.slot, false);
      SlotsAreChained(ch, op.slot);
      LeakedLoses(s, s', t);
      assert op.slot in Leaked(s);
    } else {
      LeakedSame(s, s', t);
    }
  }

  lemma AppendBooked(cfg: Config, s: State, ch: Chains, walked: seq<nat>, t: nat, strays: set<nat>)
    requires Inv(cfg, s, ch, walked) && t < |s.ops| && AllRunnable(cfg, s) && Booked(s, ch, strays)
    requires s.ops[t].pc.Append?
    ensures Booked(Step(cfg, s, t), ChainsAfter(cfg, s.mem, s.ops[t], ch), strays)
  {
    var op, s' := s.ops[t], Step(cfg, s, t);
    assert OpInv(cfg, s.mem, ch, op, walked[t]);
    if Load(cfg.shape, s.mem, op.ptr) == INVALID {
      SlotsAfterAppend(ch, Bucket(cfg.shape, op.key), op.slot);
      LeakedLoses(s, s', t);
      assert op.slot in Leaked(s);
    } else {
      LeakedSame(s, s', t);
    }
  }

  lemma StepBooked(cfg: Config, s: State, ch: Chains, walked: seq<nat>, t: nat, strays: set<nat>)
    requires Inv(cfg, s, ch, walked) && t < |s.ops| && AllRunnable(cfg, s) && Booked(s, ch, strays)
    ensures Booked(Step(cfg, s, t), ChainsAfter(cfg, s.mem, s.ops[t], ch), strays)
  {
    if s.ops[t].pc.Claim? {
      ClaimBooked(cfg, s, ch, walked, t, strays);
    } else if s.ops[t].pc.Release? {
      ReleaseBooked(cfg, s, ch, walked, t, strays);
    } else if s.ops[t].pc.Append? {
      AppendBooked(cfg, s, ch, walked, t, strays);
    } else {
      assert OpInv(cfg, s.mem, ch, s.ops[t], walked[t]);
      LeakedSame(s, Step(cfg, s, t), t);
    }
  }

  // Only a holder writes to a slot, and no stray is held.
  lemma StepKeepsStrays(cfg: Config, s: State, ch: Chains, walked: seq<nat>, t: nat, strays: set<nat>)
    requires Inv(cfg, s, ch, walked) && t < |s.ops| && AllRunnable(cfg, s) && Booked(s, ch, strays)
    ensures StraysKept(s.mem, Step(cfg, s, t).mem, strays)
  {
    assert OpInv(cfg, s.mem, ch, s.ops[t], walked[t]);
    if s.ops[t].pc.WriteKey? || s.ops[t].pc.WriteValue? {
      assert s.ops[t].slot in Leaked(s);
    }
  }

  /* ---------- The modified flag ---------- */

  // The call has not yet made sure that the modified flag is up, or was turned away before that.
  predicate BeforeMark(m: Mem, op: Op) {
    op.pc.Enter? || op.pc.ReadModified? || op.pc.MarkModified? || (op.pc.Done? && m.erasable)
  }

  // As long as the flag is down nothing has happened.
  ghost predicate Flagged(first: Mem, s: State) {
    && s.mem.erasable == first.erasable
    && (s.mem.modified || (s.mem.avail == first.avail && !first.modified
                           && forall t :: 0 <= t < |s.ops| ==> BeforeMark(s.mem, s.ops[t])))
  }

  lemma StepFlagged(cfg: Config, first: Mem, s: State, t: nat)
    requires AllRunnable(cfg, s) && Flagged(first, s)
    ensures Flagged(first, Step(cfg, s, t))
  {
  }

  /* ---------- Runs ---------- */

  // The structure and the books of every reachable state.
  lemma {:induction false} RunBooked(cfg: Config, s: State, ch: Chains, schedule: seq<nat>)
    returns (ch': Chains, walked: seq<nat>)
    requires Starting(cfg, s, ch)
    ensures var end := Run(cfg, s, schedule);
            && Inv(cfg, end, ch', walked) && Booked(end, ch', Strays(s.mem, ch))
            && StraysKept(s.mem, end.mem, Strays(s.mem, ch)) && Flagged(s.mem, end)
  {
    if schedule == [] {
      StartingInv(cfg, s, ch);
      ch', walked := ch, Zeros(|s.ops|);
      StartingBooked(cfg, s, ch);
    } else {
      var n := |schedule| - 1;
      ch', walked := RunBooked(cfg, s, ch, schedule[..n]);
      var u, t := Run(cfg, s, schedule[..n]), schedule[n];
      InvRunnable(cfg, u, ch', walked);
      StepFlagged(cfg, s.mem, u, t);
      if t < |u.ops| {
        StepKeepsInv(cfg, u, ch', walked, t);
        StepBooked(cfg, u, ch', walked, t, Strays(s.mem, ch));
        StepKeepsStrays(cfg, u, ch', walked, t, Strays(s.mem, ch));
        ch', walked := ChainsAfter(cfg, u.mem, u.ops[t], ch'), walked[t := WalkedAfter(cfg, u.mem, u.ops[t], walked[t])];
      }
    }
  }

  lemma StartingBooked(cfg: Config, s: State, ch: Chains)
    requires Starting(cfg, s, ch)
    ensures Leaked(s) == {} && Booked(s, ch, Strays(s.mem, ch)) && Flagged(s.mem, s)
  {
    SlotsHaveBits(cfg.shape, s.mem, ch);
  }

  lemma SlotsHaveBits(sh: Shape, m: Mem, ch: Chains)
    requires WellChained(sh, m, ch) && AllSet(sh, m, ch)
    ensures Slots(ch) <= SetBits(m.avail)
  {
    forall i | i in Slots(ch) ensures i in SetBits(m.avail) {
      SlotsAreChained(ch, i);
      ChainedInRange(sh, m, ch, i);
      assert Test(sh.capacity, m.avail, i);
    }
  }

  /* ---------- Bits at rest ---------- */

  lemma RestingBits(cfg: Config, s: State, ch: Chains, walked: seq<nat>, strays: set<nat>)
    requires Inv(cfg, s, ch, walked) && Booked(s, ch, strays)
    ensures Slots(ch) !! Leaked(s)
    ensures Count(s.mem.avail) == |Contents(cfg.shape, s.mem, ch)| + |Leaked(s)| + |strays|
    ensures Strays(s.mem, ch) == Leaked(s) + strays
  {
    forall i | i in Leaked(s) ensures i !in Slots(ch) {
      var t :| 0 <= t < |s.ops| && Holding(s.ops[t]) && s.ops[t].slot == i;
      assert OpInv(cfg, s.mem, ch, s.ops[t], walked[t]);
      SlotsAreChained(ch, i);
    }
    CountIsCardinality(s.mem.avail);
    ContentsSize(cfg.shape, s.mem, ch);
  }

  lemma NoFlagNoLeak(cfg: Config, s: State, ch: Chains, walked: seq<nat>)
    requires Inv(cfg, s, ch, walked) && AtRest(s) && !s.mem.failed
    ensures Leaked(s) == {}
  {
    forall t | 0 <= t < |s.ops|
      ensures !Holding(s.ops[t])
    {
      assert OpInv(cfg, s.mem, ch, s.ops[t], walked[t]);
    }
  }

  // What size() returns for a cached size.
  function ReportedSize(m: Mem, cached: nat): nat {
    if m.modified then Count(m.avail) else cached
  }

  // The cached size is exact unless something was modified since.
  predicate CacheExact(m: Mem, cached: nat) {
    m.modified || cached == Count(m.avail)
  }

  /** When all inserts have returned, the set bits are the entries, the slots leaked by this phase and the strays it
      began with; nothing leaks unless the failed flag is up; a call that was let in has raised the modified flag;
      and size() counts all three kinds. */
  lemma RunBookkeeping(cfg: Config, s: State, ch: Chains, schedule: seq<nat>, cached: nat)
    returns (ch': Chains)
    requires Starting(cfg, s, ch) && AtRest(Run(cfg, s, schedule)) && CacheExact(s.mem, cached)
    ensures var end, strays := Run(cfg, s, schedule), Strays(s.mem, ch);
            && WellChained(cfg.shape, end.mem, ch') && AllSet(cfg.shape, end.mem, ch')
            && Strays(end.mem, ch') == Leaked(end) + strays && Leaked(end) !! strays
            && (!end.mem.failed ==> Leaked(end) == {})
            && (!s.mem.erasable && |s.ops| > 0 ==> end.mem.modified)
            && CacheExact(end.mem, cached)
            && ReportedSize(end.mem, cached) == |Contents(cfg.shape, end.mem, ch')| + |Leaked(end)| + |strays|
  {
    var walked;
    ch', walked := RunBooked(cfg, s, ch, schedule);
    RunKeepsArguments(cfg, s, schedule);
    RestingBooks(cfg, s.mem, Run(cfg, s, schedule), ch', walked, Strays(s.mem, ch), cached);
  }

  // A call that has returned has made sure of the flag, unless it was turned away.
  lemma RestingFlag(first: Mem, end: State, cached: nat)
    requires Flagged(first, end) && AtRest(end) && CacheExact(first, cached)
    ensures !first.erasable && |end.ops| > 0 ==> end.mem.modified
    ensures CacheExact(end.mem, cached) && ReportedSize(end.mem, cached) == Count(end.mem.avail)
  {
    assert |end.ops| > 0 ==> end.mem.modified || BeforeMark(end.mem, end.ops[0]);
  }

  lemma RestingBooks(cfg: Config, first: Mem, end: State, ch: Chains, walked: seq<nat>, strays: set<nat>, cached: nat)
    requires Inv(cfg, end, ch, walked) && Booked(end, ch, strays) && Flagged(first, end)
    requires AtRest(end) && CacheExact(first, cached)
    ensures Strays(end.mem, ch) == Leaked(end) + strays
    ensures !end.mem.failed ==> Leaked(end) == {}
    ensures !first.erasable && |end.ops| > 0 ==> end.mem.modified
    ensures CacheExact(end.mem, cached)
    ensures ReportedSize(end.mem, cached) == |Contents(cfg.shape, end.mem, ch)| + |Leaked(end)| + |strays|
  {
    RestingBits(cfg, end, ch, walked, strays);
    RestingFlag(first, end, cached);
    if !end.mem.failed {
      NoFlagNoLeak(cfg, end, ch, walked);
    }
  }

  /** On a table without strays, in a phase whose failed flag is never raised, size() afterwards is the number of
      distinct keys. */
  lemma RunSize(cfg: Config, s: State, ch: Chains, schedule: seq<nat>, cached: nat)
    returns (ch': Chains)
    requires Starting(cfg, s, ch) && AtRest(Run(cfg, s, schedule)) && CacheExact(s.mem, cached)
    requires Strays(s.mem, ch) == {} && !Run(cfg, s, schedule).mem.failed
    ensures var end := Run(cfg, s, schedule);
            && WellChained(cfg.shape, end.mem, ch') && Strays(end.mem, ch') == {}
            && ReportedSize(end.mem, cached) == |Contents(cfg.shape, end.mem, ch').Keys|
  {
    ch' := RunBookkeeping(cfg, s, ch, schedule, cached);
  }
}
