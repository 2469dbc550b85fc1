/** What rehash copies. The functor inserts the pair of every slot whose bit is set, whether or not a chain leads to
    the slot, so slots leaked by a failed insert phase are copied like entries. */
module RehashModel {
  import opened Bitset
  import opened MapMemory
  import opened InsertProtocol
  import opened InsertHistory
  import opened InsertBooks
  import opened InsertRoom
  import opened TableModel
  import opened Counting

  // Every slot once, in the order in which the parallel loop's bodies take effect.
  ghost predicate VisitsAll(order: seq<nat>, n: nat) {
    && (forall j :: 0 <= j < |order| ==> order[j] < n)
    && (forall i: nat :: i < n ==> i in order)
    && (forall i, j :: 0 <= i < j < |order| ==> order[i] != order[j])
  }

  ghost predicate Readable(bits: seq<Word>, keys: seq<Key>, values: seq<Value>, i: nat) {
    i < BLOCK * |bits| && i < |keys| && i < |values|
  }

  // The pairs of the visited slots whose bit is set; the first pair of a key wins.
  ghost function FirstPairs(bits: seq<Word>, keys: seq<Key>, values: seq<Value>, order: seq<nat>): map<Key, Value> {
    if order == [] then map[]
    else
      var n := |order| - 1;
      WithPair(bits, keys, values, FirstPairs(bits, keys, values, order[..n]), order[n])
  }

  // One body of the functor, on what was copied before.
  ghost function WithPair(bits: seq<Word>, keys: seq<Key>, values: seq<Value>, before: map<Key, Value>, i: nat): map<Key, Value> {
    if Readable(bits, keys, values, i) && Bit(bits, i) && keys[i] !in before then before[keys[i] := values[i]] else before
  }

  // The values of the entries, without their indices.
  ghost function Pairs(live: map<Key, (nat, Value)>): map<Key, Value> {
    map k | k in live :: live[k].1
  }

  lemma FirstPairsStep(bits: seq<Word>, keys: seq<Key>, values: seq<Value>, order: seq<nat>, j: nat)
    requires j < |order|
    ensures FirstPairs(bits, keys, values, order[..j + 1])
         == WithPair(bits, keys, values, FirstPairs(bits, keys, values, order[..j]), order[j])
  {
    assert order[..j + 1][..j] == order[..j];
  }

  /* ---------- Which pairs survive ---------- */

  // Every pair that is copied comes from a visited slot whose bit is set.
  lemma {:induction false} PairsComeFromSlots(bits: seq<Word>, keys: seq<Key>, values: seq<Value>, order: seq<nat>, k: Key)
    requires k in FirstPairs(bits, keys, values, order)
    ensures exists i :: i in order && Readable(bits, keys, values, i) && Bit(bits, i) && keys[i] == k
                     && FirstPairs(bits, keys, values, order)[k] == values[i]
  {
    var n := |order| - 1;
    FirstPairsStep(bits, keys, values, order, n);
    assert order[..n + 1] == order;
    if k in FirstPairs(bits, keys, values, order[..n]) {
      PairsComeFromSlots(bits, keys, values, order[..n], k);
    }
  }

  // Every visited slot whose bit is set has its key copied.
  lemma {:induction false} SlotsAreCopied(bits: seq<Word>, keys: seq<Key>, values: seq<Value>, order: seq<nat>, i: nat)
    requires i in order && Readable(bits, keys, values, i) && Bit(bits, i)
    ensures keys[i] in FirstPairs(bits, keys, values, order)
  {
    var n := |order| - 1;
    FirstPairsStep(bits, keys, values, order, n);
    assert order[..n + 1] == order;
    if i != order[n] {
      SlotsAreCopied(bits, keys, values, order[..n], i);
    }
  }

  // What was copied first stays.
  lemma {:induction false} FirstVisitWins(bits: seq<Word>, keys: seq<Key>, values: seq<Value>, order: seq<nat>)
    requires order != [] && Readable(bits, keys, values, order[0]) && Bit(bits, order[0])
    ensures var pairs, i := FirstPairs(bits, keys, values, order), order[0];
            keys[i] in pairs && pairs[keys[i]] == values[i]
  {
    var n := |order| - 1;
    FirstPairsStep(bits, keys, values, order, n);
    assert order[..n + 1] == order;
    if n > 0 {
      FirstVisitWins(bits, keys, values, order[..n]);
    } else {
      assert order[..0] == [];
    }
  }

  /* ---------- When the entries survive ---------- */

  // The stray in slot i repeats an entry: its key is one, with its value.
  ghost predicate StrayAgrees(sh: Shape, m: Mem, ch: Chains, i: nat)
    requires WellChained(sh, m, ch)
  {
    i < sh.capacity ==> m.keys[i] in LiveOf(sh, m, ch) && LiveOf(sh, m, ch)[m.keys[i]].1 == m.values[i]
  }

  ghost predicate StraysAgree(sh: Shape, m: Mem, ch: Chains)
    requires WellChained(sh, m, ch)
  {
    forall i :: i in Strays(m, ch) ==> StrayAgrees(sh, m, ch, i)
  }

  ghost predicate KeepsEntries(sh: Shape, m: Mem, ch: Chains, order: seq<nat>)
    requires WellChained(sh, m, ch)
  {
    FirstPairs(m.avail, m.keys, m.values, order) == Pairs(LiveOf(sh, m, ch))
  }

  // When the strays agree, the pair of every set bit is an entry.
  lemma SetSlotIsEntry(sh: Shape, m: Mem, ch: Chains, i: nat)
    requires WellChained(sh, m, ch) && BitsInRange(sh, m) && StraysAgree(sh, m, ch)
    requires i < BLOCK * |m.avail| && Bit(m.avail, i)
    ensures i < sh.capacity && m.keys[i] in LiveOf(sh, m, ch) && LiveOf(sh, m, ch)[m.keys[i]].1 == m.values[i]
  {
    if Chained(ch, i) {
      LiveAt(sh, m, ch, i);
    } else {
      SlotsAreChained(ch, i);
      assert i in Strays(m, ch) && StrayAgrees(sh, m, ch, i);
    }
  }

  lemma CopiedIsEntry(sh: Shape, m: Mem, ch: Chains, order: seq<nat>, k: Key)
    requires WellChained(sh, m, ch) && BitsInRange(sh, m) && StraysAgree(sh, m, ch)
    requires k in FirstPairs(m.avail, m.keys, m.values, order)
    ensures k in LiveOf(sh, m, ch) && LiveOf(sh, m, ch)[k].1 == FirstPairs(m.avail, m.keys, m.values, order)[k]
  {
    PairsComeFromSlots(m.avail, m.keys, m.values, order, k);
    var i :| i in order && Readable(m.avail, m.keys, m.values, i) && Bit(m.avail, i) && m.keys[i] == k
             && FirstPairs(m.avail, m.keys, m.values, order)[k] == m.values[i];
    SetSlotIsEntry(sh, m, ch, i);
  }

  lemma EntryIsCopied(sh: Shape, m: Mem, ch: Chains, order: seq<nat>, k: Key)
    requires WellChained(sh, m, ch) && VisitsAll(order, sh.capacity) && k in LiveOf(sh, m, ch)
    ensures k in FirstPairs(m.avail, m.keys, m.values, order)
  {
    LiveIsSetBit(sh, m, ch, k);
    SlotsAreCopied(m.avail, m.keys, m.values, order, LiveOf(sh, m, ch)[k].0);
  }

  lemma SamePairs(copy: map<Key, Value>, live: map<Key, (nat, Value)>)
    requires forall k :: k in copy ==> k in live && live[k].1 == copy[k]
    requires forall k :: k in live ==> k in copy
    ensures copy == Pairs(live)
  {
  }

  lemma AgreeingStraysKept(sh: Shape, m: Mem, ch: Chains, order: seq<nat>)
    requires WellChained(sh, m, ch) && BitsInRange(sh, m) && StraysAgree(sh, m, ch) && VisitsAll(order, sh.capacity)
    ensures KeepsEntries(sh, m, ch, order)
  {
    var copy, live := FirstPairs(m.avail, m.keys, m.values, order), LiveOf(sh, m, ch);
    forall k | k in copy
      ensures k in live && live[k].1 == copy[k]
    {
      CopiedIsEntry(sh, m, ch, order, k);
    }
    forall k | k in live
      ensures k in copy
    {
      EntryIsCopied(sh, m, ch, order, k);
    }
    SamePairs(copy, live);
  }

  // The slots below n but i, ascending.
  function Others(n: nat, i: nat): (s: seq<nat>)
    ensures forall j :: 0 <= j < |s| ==> s[j] < n && s[j] != i
    ensures forall x: nat :: x < n && x != i ==> x in s
    ensures forall a, b :: 0 <= a < b < |s| ==> s[a] != s[b]
  {
    if n == 0 then [] else if n - 1 == i then Others(n - 1, i) else Others(n - 1, i) + [n - 1]
  }

  // A stray that is visited first decides what its key maps to.
  lemma DisagreeingStrayLost(sh: Shape, m: Mem, ch: Chains, i: nat)
    requires WellChained(sh, m, ch) && BitsInRange(sh, m) && i in Strays(m, ch) && !StrayAgrees(sh, m, ch, i)
    ensures VisitsAll([i] + Others(sh.capacity, i), sh.capacity)
    ensures !KeepsEntries(sh, m, ch, [i] + Others(sh.capacity, i))
  {
    var order := [i] + Others(sh.capacity, i);
    FirstVisitWins(m.avail, m.keys, m.values, order);
    assert m.keys[i] in FirstPairs(m.avail, m.keys, m.values, order);
  }

  /** rehash keeps the entries, in whatever order the slots are visited, if and only if every stray repeats an entry. */
  lemma EntriesKeptIff(sh: Shape, m: Mem, ch: Chains)
    requires WellChained(sh, m, ch) && BitsInRange(sh, m)
    ensures (forall order | VisitsAll(order, sh.capacity) :: KeepsEntries(sh, m, ch, order)) <==> StraysAgree(sh, m, ch)
  {
    if StraysAgree(sh, m, ch) {
      forall order | VisitsAll(order, sh.capacity)
        ensures KeepsEntries(sh, m, ch, order)
      {
        AgreeingStraysKept(sh, m, ch, order);
      }
    } else {
      var i :| i in Strays(m, ch) && !StrayAgrees(sh, m, ch, i);
      DisagreeingStrayLost(sh, m, ch, i);
    }
  }

  /** After an insert phase without a failure, begun on a table without strays, rehash keeps the entries. */
  lemma CleanPhaseKeepsEntries(cfg: Config, s: State, ch: Chains, schedule: seq<nat>, order: seq<nat>)
    returns (ch': Chains)
    requires Starting(cfg, s, ch) && Strays(s.mem, ch) == {} && AtRest(Run(cfg, s, schedule))
    requires !Run(cfg, s, schedule).mem.failed && VisitsAll(order, cfg.shape.capacity)
    ensures var m := Run(cfg, s, schedule).mem;
            WellChained(cfg.shape, m, ch') && KeepsEntries(cfg.shape, m, ch', order)
  {
    var m := Run(cfg, s, schedule).mem;
    var cached := Count(s.mem.avail);
    ch' := RunBookkeeping(cfg, s, ch, schedule, cached);
    NoStraysInRange(cfg.shape, m, ch');
    AgreeingStraysKept(cfg.shape, m, ch', order);
  }

  lemma NoStraysInRange(sh: Shape, m: Mem, ch: Chains)
    requires WellChained(sh, m, ch) && Strays(m, ch) == {}
    ensures BitsInRange(sh, m)
  {
    forall i: nat | i < BLOCK * |m.avail| && Bit(m.avail, i)
      ensures i < sh.capacity
    {
      assert i in Slots(ch) || i in Strays(m, ch);
      SlotsAreChained(ch, i);
      ChainedInRange(sh, m, ch, i);
    }
  }

  /* ---------- Room in the new table ---------- */

  // The visited slots whose bit is set.
  ghost function Visited(bits: seq<Word>, order: seq<nat>): set<nat> {
    set i | i in order && i < BLOCK * |bits| && Bit(bits, i)
  }

  lemma VisitedStep(bits: seq<Word>, order: seq<nat>)
    requires order != [] && forall i, j :: 0 <= i < j < |order| ==> order[i] != order[j]
    ensures var n := |order| - 1;
            |Visited(bits, order)| == |Visited(bits, order[..n])| + if order[n] < BLOCK * |bits| && Bit(bits, order[n]) then 1 else 0
  {
    var n := |order| - 1;
    var before := Visited(bits, order[..n]);
    assert order == order[..n] + [order[n]];
    assert Visited(bits, order) == if order[n] < BLOCK * |bits| && Bit(bits, order[n]) then before + {order[n]} else before;
  }

  lemma {:induction false} FewPairs(bits: seq<Word>, keys: seq<Key>, values: seq<Value>, order: seq<nat>)
    requires forall i, j :: 0 <= i < j < |order| ==> order[i] != order[j]
    ensures |FirstPairs(bits, keys, values, order)| <= |Visited(bits, order)|
  {
    if order != [] {
      var n := |order| - 1;
      FewPairs(bits, keys, values, order[..n]);
      FirstPairsStep(bits, keys, values, order, n);
      assert order[..n + 1] == order;
      VisitedStep(bits, order);
    }
  }

  // While a set bit is still to be visited, fewer keys have been copied than there are set bits.
  lemma RoomForNext(bits: seq<Word>, keys: seq<Key>, values: seq<Value>, order: seq<nat>, j: nat)
    requires j < |order| && forall a, b :: 0 <= a < b < |order| ==> order[a] != order[b]
    requires order[j] < BLOCK * |bits| && Bit(bits, order[j])
    ensures |FirstPairs(bits, keys, values, order[..j])| < Count(bits)
  {
    FewPairs(bits, keys, values, order[..j]);
    assert order[j] !in order[..j];
    CountIsCardinality(bits);
    SubsetSize(Visited(bits, order[..j]) + {order[j]}, SetBits(bits));
  }

  lemma NothingToCopy(bits: seq<Word>, keys: seq<Key>, values: seq<Value>, order: seq<nat>)
    requires Count(bits) == 0 && forall i, j :: 0 <= i < j < |order| ==> order[i] != order[j]
    ensures FirstPairs(bits, keys, values, order) == map[]
  {
    FewPairs(bits, keys, values, order);
    CountIsCardinality(bits);
    assert Visited(bits, order) <= SetBits(bits);
    SubsetSize(Visited(bits, order), SetBits(bits));
  }

  lemma PairsSize(live: map<Key, (nat, Value)>)
    ensures |Pairs(live)| == |live|
  {
    assert Pairs(live).Keys == live.Keys;
    assert |live.Keys| == |live| && |Pairs(live).Keys| == |Pairs(live)|;
  }

  lemma PairsAfter(before: map<Key, (nat, Value)>, after: map<Key, (nat, Value)>, k: Key, i: nat, v: Value)
    requires after == if k in before then before else before[k := (i, v)]
    ensures k in Pairs(before) <==> k in before
    ensures Pairs(after) == if k in before then Pairs(before) else Pairs(before)[k := v]
  {
  }

  // With a slot left, an unbounded insert does not fail.
  lemma InsertServed(sh: Shape, m: Mem, ch: Chains, k: Key, v: Value, r: Result, m': Mem, ch': Chains)
    requires WellChained(sh, m, ch) && AllSet(sh, m, ch) && BitsInRange(sh, m) && WellChained(sh, m', ch')
    requires InsertOutcome(sh, m, ch, false, k, v, r, m', ch')
    requires k in LiveOf(sh, m, ch) || |LiveOf(sh, m, ch)| + |Strays(m, ch)| < sh.capacity
    ensures Strays(m', ch') == Strays(m, ch)
    ensures LiveOf(sh, m', ch') == if k in LiveOf(sh, m, ch) then LiveOf(sh, m, ch) else LiveOf(sh, m, ch)[k := (r.index, v)]
  {
    InsertMeaning(sh, m, ch, false, k, v, r, m', ch');
  }

  // One insert, on the pairs: the first pair of a key stays.
  lemma PairInserted(sh: Shape, m: Mem, ch: Chains, k: Key, v: Value, r: Result, m': Mem, ch': Chains)
    requires WellChained(sh, m, ch) && AllSet(sh, m, ch) && BitsInRange(sh, m) && WellChained(sh, m', ch')
    requires InsertOutcome(sh, m, ch, false, k, v, r, m', ch')
    requires k in LiveOf(sh, m, ch) || |LiveOf(sh, m, ch)| + |Strays(m, ch)| < sh.capacity
    ensures Strays(m', ch') == Strays(m, ch)
    ensures var before := LiveOf(sh, m, ch);
            Pairs(LiveOf(sh, m', ch')) == if k in before then Pairs(before) else Pairs(before)[k := v]
  {
    InsertServed(sh, m, ch, k, v, r, m', ch');
    PairsAfter(LiveOf(sh, m, ch), LiveOf(sh, m', ch'), k, r.index, v);
  }

  lemma RehashKeeps(sh: Shape, m: Mem, ch: Chains, order: seq<nat>)
    requires WellChained(sh, m, ch) && BitsInRange(sh, m) && VisitsAll(order, sh.capacity)
    ensures StraysAgree(sh, m, ch) ==> FirstPairs(m.avail, m.keys, m.values, order) == Pairs(LiveOf(sh, m, ch))
  {
    if StraysAgree(sh, m, ch) {
      AgreeingStraysKept(sh, m, ch, order);
    }
  }

  /* ---------- The copies in parallel ---------- */

  // The new table has room for the copies: no bucket gets two keys and there is a slot for each copy, or, for every
  // copy, more blocks than the other keys of its bucket could make it waste.
  ghost predicate RoomToCopy(cfg: Config, s: State)
    requires ValidShape(cfg.shape)
  {
    || (|s.ops| <= cfg.shape.capacity && forall t :: 0 <= t < |s.ops| ==> Rivals(cfg.shape, s.ops, t) == {})
    || (cfg.shape.capacity % BLOCK == 0 && forall t :: 0 <= t < |s.ops| ==> Ample(cfg, s, t))
  }

  // Every key of the calls, each with the value of one of its calls, and no other key.
  ghost predicate HoldsPairs(table: map<Key, (nat, Value)>, ops: seq<Op>) {
    && (forall t :: 0 <= t < |ops| ==> ops[t].key in table)
    && (forall k :: k in table ==> exists t :: 0 <= t < |ops| && ops[t].key == k && ops[t].value == table[k].1)
  }

  lemma ServedCalls(s: State, first: Atomic, a: Atomic)
    requires FirstWriterWins(s, first, a) && first.table == map[]
    requires forall t :: 0 <= t < |s.ops| ==> a.outcomes[t] != Pending && a.outcomes[t] != Refused
    ensures HoldsPairs(a.table, s.ops)
  {
    forall t | 0 <= t < |s.ops|
      ensures s.ops[t].key in a.table
    {
      if a.outcomes[t].Inserted? {
        assert InsertedBy(s, first, a, s.ops[t].key, t);
      }
    }
    forall k | k in a.table
      ensures exists t :: 0 <= t < |s.ops| && s.ops[t].key == k && s.ops[t].value == a.table[k].1
    {
      assert Explained(s, first, a, k);
      var u :| InsertedBy(s, first, a, k, u);
    }
  }

  lemma CopyServed(cfg: Config, s: State, schedule: seq<nat>, t: nat)
    requires Starting(cfg, s, NoChains(cfg.shape.buckets)) && SetBits(s.mem.avail) == {} && !s.mem.failed
    requires !cfg.bounded && !s.mem.erasable && RoomToCopy(cfg, s) && t < |s.ops|
    ensures |Run(cfg, s, schedule).ops| == |s.ops| && OutcomeOf(Run(cfg, s, schedule).ops[t]) != Refused
  {
    CountIsCardinality(s.mem.avail);
    if |s.ops| <= cfg.shape.capacity && forall t :: 0 <= t < |s.ops| ==> Rivals(cfg.shape, s.ops, t) == {} {
      RoomForAll(cfg, s, NoChains(cfg.shape.buckets), schedule, t);
    } else {
      NoneRefused(cfg, s, NoChains(cfg.shape.buckets), schedule, t);
    }
  }

  /** The copies of rehash in parallel: when the new table has room for them, all succeed under every schedule, and it
      holds exactly their keys, each with the value of one of its copies. */
  lemma ParallelCopy(cfg: Config, s: State, schedule: seq<nat>) returns (ch: Chains)
    requires Starting(cfg, s, NoChains(cfg.shape.buckets)) && SetBits(s.mem.avail) == {} && !s.mem.failed
    requires !cfg.bounded && !s.mem.erasable && RoomToCopy(cfg, s) && AtRest(Run(cfg, s, schedule))
    ensures var m := Run(cfg, s, schedule).mem;
            WellChained(cfg.shape, m, ch) && HoldsPairs(Contents(cfg.shape, m, ch), s.ops)
  {
    var first, end := NoChains(cfg.shape.buckets), Run(cfg, s, schedule);
    RunKeepsArguments(cfg, s, schedule);
    ch := RunFirstWriterWins(cfg, s, first, schedule);
    var a := Abstraction(cfg, end, ch);
    forall t | 0 <= t < |s.ops|
      ensures a.outcomes[t] != Pending && a.outcomes[t] != Refused
    {
      CopyServed(cfg, s, schedule, t);
    }
    NoContents(cfg, s);
    ServedCalls(s, Abstraction(cfg, s, first), a);
  }

  ghost predicate Copies(op: Op, m: Mem, i: nat) {
    Readable(m.avail, m.keys, m.values, i) && Bit(m.avail, i) && op.key == m.keys[i] && op.value == m.values[i]
  }

  ghost predicate HasSource(op: Op, m: Mem) {
    exists i :: Copies(op, m, i)
  }

  ghost predicate IsCopied(ops: seq<Op>, m: Mem, i: nat) {
    exists t :: 0 <= t < |ops| && Copies(ops[t], m, i)
  }

  // The calls carry the pairs of the slots whose bit is set.
  ghost predicate CopiesOf(ops: seq<Op>, m: Mem) {
    && (forall t {:trigger HasSource(ops[t], m)} :: 0 <= t < |ops| ==> HasSource(ops[t], m))
    && (forall i: nat {:trigger IsCopied(ops, m, i)} ::
          Readable(m.avail, m.keys, m.values, i) && Bit(m.avail, i) ==> IsCopied(ops, m, i))
  }

  lemma CopyIsEntry(sh: Shape, m: Mem, ch: Chains, ops: seq<Op>, table: map<Key, (nat, Value)>, k: Key)
    requires WellChained(sh, m, ch) && BitsInRange(sh, m) && StraysAgree(sh, m, ch) && CopiesOf(ops, m) && HoldsPairs(table, ops)
    requires k in table
    ensures k in LiveOf(sh, m, ch) && LiveOf(sh, m, ch)[k].1 == table[k].1
  {
    var t :| 0 <= t < |ops| && ops[t].key == k && ops[t].value == table[k].1;
    assert HasSource(ops[t], m);
    var i :| Copies(ops[t], m, i);
    SetSlotIsEntry(sh, m, ch, i);
  }

  lemma EntryHasCopy(sh: Shape, m: Mem, ch: Chains, ops: seq<Op>, table: map<Key, (nat, Value)>, k: Key)
    requires WellChained(sh, m, ch) && CopiesOf(ops, m) && HoldsPairs(table, ops) && k in LiveOf(sh, m, ch)
    ensures k in table
  {
    LiveIsSetBit(sh, m, ch, k);
    assert IsCopied(ops, m, LiveOf(sh, m, ch)[k].0);
  }

  // When the strays agree, such a table has the entries of the source.
  lemma CopiesAreEntries(sh: Shape, m: Mem, ch: Chains, ops: seq<Op>, table: map<Key, (nat, Value)>)
    requires WellChained(sh, m, ch) && BitsInRange(sh, m) && StraysAgree(sh, m, ch) && CopiesOf(ops, m) && HoldsPairs(table, ops)
    ensures Pairs(table) == Pairs(LiveOf(sh, m, ch))
  {
    var live := LiveOf(sh, m, ch);
    forall k | k in table
      ensures k in live && live[k].1 == table[k].1
    {
      CopyIsEntry(sh, m, ch, ops, table, k);
    }
    forall k | k in live
      ensures k in table
    {
      EntryHasCopy(sh, m, ch, ops, table, k);
    }
    SamePairs(Pairs(table), live);
  }

  /** rehash with its copies in parallel: when the strays of the source repeat entries and the new table has room for the
      copies, the entries are kept under every schedule. */
  lemma ParallelRehash(sh: Shape, m: Mem, ch: Chains, cfg: Config, s: State, schedule: seq<nat>) returns (ch': Chains)
    requires WellChained(sh, m, ch) && BitsInRange(sh, m) && StraysAgree(sh, m, ch) && CopiesOf(s.ops, m)
    requires Starting(cfg, s, NoChains(cfg.shape.buckets)) && SetBits(s.mem.avail) == {} && !s.mem.failed
    requires !cfg.bounded && !s.mem.erasable && RoomToCopy(cfg, s) && AtRest(Run(cfg, s, schedule))
    ensures var end := Run(cfg, s, schedule).mem;
            WellChained(cfg.shape, end, ch') && Pairs(Contents(cfg.shape, end, ch')) == Pairs(LiveOf(sh, m, ch))
  {
    ch' := ParallelCopy(cfg, s, schedule);
    CopiesAreEntries(sh, m, ch, s.ops, Contents(cfg.shape, Run(cfg, s, schedule).mem, ch'));
  }

  lemma NoContents(cfg: Config, s: State)
    requires WellChained(cfg.shape, s.mem, NoChains(cfg.shape.buckets))
    ensures Contents(cfg.shape, s.mem, NoChains(cfg.shape.buckets)) == map[]
  {
    var ch := NoChains(cfg.shape.buckets);
    forall k | k in Contents(cfg.shape, s.mem, ch)
      ensures false
    {
      ContentsFrom(cfg.shape, s.mem, ch, k);
    }
  }
}
