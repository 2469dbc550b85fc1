/** What the operations of Kokkos::UnorderedMap mean, on values: the capacity arithmetic, the blocks a search
    may reach, the outcome of one insert, and the entries that a user sees. */
module TableModel {
  import opened Bitset
  import opened MapMemory
  import opened InsertProtocol
  import opened InsertHistory
  import opened InsertBooks
  import opened ErasePhase
  import opened Arithmetic
  import opened Counting

  /* ---------- Capacity ---------- */

  // calculate_capacity in 32-bit arithmetic: the quotient is truncated, then the rounding sum wraps.
  function CalculateCapacity(hint: nat): nat
    requires hint < UINT32
  {
    if hint != 0 then (7 * hint / 6 % UINT32 + 127) % UINT32 / 128 * 128 else 128
  }

  predicate NoCapacityOverflow(hint: nat) {
    7 * hint / 6 + 127 < UINT32
  }

  /** The capacity covers the request exactly when the 32-bit arithmetic does not overflow, and the only
      requests that get no capacity at all are those for which the rounding wraps to zero. */
  lemma CapacityCovers(hint: nat)
    requires hint < UINT32
    ensures CalculateCapacity(hint) >= hint <==> NoCapacityOverflow(hint)
    ensures CalculateCapacity(hint) == 0 <==> UINT32 - 127 <= 7 * hint / 6 <= UINT32
    ensures CalculateCapacity(hint) % 128 == 0 && CalculateCapacity(hint) < INVALID
    ensures NoCapacityOverflow(hint) && hint > 0 ==> 7 * hint / 6 <= CalculateCapacity(hint) < 7 * hint / 6 + 128
    ensures hint == 0 ==> CalculateCapacity(hint) == 128
  {
    var q := 7 * hint / 6;
    assert q < 2 * UINT32;
    assert q % UINT32 == if q < UINT32 then q else q - UINT32;
  }

  // find_hash_size: the first listed prime that is large enough, or the last one.
  function FindHashSize(primes: seq<nat>, size: nat): (h: nat)
    requires primes != []
    ensures h in primes
  {
    if size <= primes[0] || |primes| == 1 then primes[0] else FindHashSize(primes[1..], size)
  }

  // It is the first prime of the list that reaches the size.
  lemma {:induction false} FirstLargeEnough(primes: seq<nat>, size: nat, n: nat)
    requires n < |primes| && size <= primes[n] && forall j :: 0 <= j < n ==> primes[j] < size
    ensures FindHashSize(primes, size) == primes[n]
  {
    if n > 0 {
      FirstLargeEnough(primes[1..], size, n - 1);
    }
  }

  // When no prime reaches the size, the last one must do.
  lemma {:induction false} LastPrimeOtherwise(primes: seq<nat>, size: nat)
    requires primes != [] && forall j :: 0 <= j < |primes| ==> primes[j] < size
    ensures FindHashSize(primes, size) == primes[|primes| - 1]
  {
    if |primes| > 1 {
      LastPrimeOtherwise(primes[1..], size);
    }
  }

  /* ---------- The blocks a search visits ---------- */

  // The block of search j of a row that starts in block b: one block on, or back, each time, around the end.
  function SearchBlock(nblocks: nat, b: nat, direction: nat, j: nat): nat
    requires b < nblocks && j < nblocks
  {
    if direction / 2 % 2 == 1 then (b + nblocks - j) % nblocks else (b + j) % nblocks
  }

  lemma SearchBlockIs(nblocks: nat, b: nat, direction: nat, j: nat)
    requires b < nblocks && j < nblocks
    ensures SearchBlock(nblocks, b, direction, j) == MissBlock(nblocks, b, direction, j)
  {
    MissBlockClosedForm(nblocks, b, direction, j);
    WrapOnce(b + nblocks - j, nblocks);
    WrapOnce(b + j, nblocks);
  }

  lemma WrapOnce(x: nat, n: nat)
    requires n > 0 && x < 2 * n
    ensures x % n == if x < n then x else x - n
  {
    if x < n {
      DivMod(x, n, 0, x);
    } else {
      DivMod(x, n, 1, x - n);
    }
  }

  /* ---------- The window a search covers ---------- */

  ghost predicate BlockFull(size: nat, blocks: seq<Word>, b: nat)
    requires Fits(size, blocks)
  {
    forall i: nat {:trigger Bit(blocks, i)} :: b * BLOCK <= i < (b + 1) * BLOCK && i < size ==> Bit(blocks, i)
  }

  // Where the search for a free slot starts: the last slot walked, or the scaled bucket number.
  function StartHint(sh: Shape, b: nat, c: seq<nat>): nat
    requires ValidShape(sh)
  {
    if c == [] then FirstHint(sh, b) else c[|c| - 1]
  }

  // The scaled bucket number is the one slot whose share of the capacity the share of the buckets falls into.
  lemma FirstHintIs(sh: Shape, b: nat, h: nat)
    requires ValidShape(sh)
    ensures FirstHint(sh, b) == h <==> h * sh.buckets <= b * sh.capacity < (h + 1) * sh.buckets
  {
    var q, r := FirstHint(sh, b), Product(b, sh.capacity) % sh.buckets;
    assert b * sh.capacity == q * sh.buckets + r;
    if h * sh.buckets <= b * sh.capacity < (h + 1) * sh.buckets {
      DivMod(b * sh.capacity, sh.buckets, h, b * sh.capacity - h * sh.buckets);
    }
  }

  // The blocks searched by `attempts` misses in a row are all full.
  ghost predicate WindowFull(size: nat, blocks: seq<Word>, start: nat, direction: nat, attempts: nat)
    requires Fits(size, blocks) && start / BLOCK < |blocks|
  {
    forall j: nat :: j < attempts ==> BlockFull(size, blocks, MissBlock(|blocks|, start / BLOCK, direction, j))
  }

  ghost predicate FreeBit(size: nat, blocks: seq<Word>, i: nat)
    requires Fits(size, blocks)
  {
    i < size && !Bit(blocks, i)
  }

  // Bit i is the one taken after j misses: those blocks are full, and in the next one the bit that the hint names goes
  // first, unless no miss has led there; otherwise it is the free bit that the scan reaches first.
  ghost predicate TakenAt(size: nat, blocks: seq<Word>, start: nat, direction: nat, j: nat, i: nat)
    requires Fits(size, blocks) && start / BLOCK < |blocks|
  {
    var b := MissBlock(|blocks|, start / BLOCK, direction, j);
    var named := b * BLOCK + start % BLOCK;
    && WindowFull(size, blocks, start, direction, j) && i / BLOCK == b && FreeBit(size, blocks, i)
    && if j > 0 && FreeBit(size, blocks, named) then i == named
       else SearchOutcome(size, blocks, b, start % BLOCK, direction, false, (true, i))
  }

  // When every block gets its attempt, a full window means that no bit is left at all.
  lemma FullWindowIsFullSet(size: nat, blocks: seq<Word>, start: nat, direction: nat)
    requires Fits(size, blocks) && start / BLOCK < |blocks|
    ensures WindowFull(size, blocks, start, direction, |blocks|) <==> forall i: nat :: i < size ==> Bit(blocks, i)
  {
    if WindowFull(size, blocks, start, direction, |blocks|) {
      forall i: nat | i < size
        ensures Bit(blocks, i)
      {
        MissesCoverEveryBlock(|blocks|, start / BLOCK, direction, i / BLOCK);
        var j: nat :| j < |blocks| && MissBlock(|blocks|, start / BLOCK, direction, j) == i / BLOCK;
        assert BlockFull(size, blocks, i / BLOCK);
      }
    }
  }

  /* ---------- insert as a function of the old table ---------- */

  function Attempts(sh: Shape, bounded: bool): nat {
    MaxAttempts(Config(sh, bounded))
  }

  // The first p slots of the key's chain hold other keys.
  ghost predicate Passed(sh: Shape, m: Mem, ch: Chains, k: Key, p: nat)
    requires WellChained(sh, m, ch)
  {
    var c := ch[Bucket(sh, k)];
    p <= |c| && forall j :: 0 <= j < p ==> m.keys[c[j]] != k
  }

  ghost predicate ChainHas(sh: Shape, m: Mem, ch: Chains, k: Key)
    requires WellChained(sh, m, ch)
  {
    exists j :: 0 <= j < |ch[Bucket(sh, k)]| && m.keys[ch[Bucket(sh, k)][j]] == k
  }

  lemma StartHintInRange(sh: Shape, m: Mem, ch: Chains, b: nat)
    requires WellChained(sh, m, ch) && b < sh.buckets
    ensures StartHint(sh, b, ch[b]) < sh.capacity && StartHint(sh, b, ch[b]) / BLOCK < |m.avail|
  {
    FirstHintInRange(sh, b);
    if ch[b] != [] {
      ChainedAt(ch, b, |ch[b]| - 1);
      ChainedInRange(sh, m, ch, ch[b][|ch[b]| - 1]);
    }
    HintOfSlot(sh.capacity, StartHint(sh, b, ch[b]));
  }

  lemma ChainLoads(sh: Shape, m: Mem, ch: Chains, b: nat, p: nat)
    requires WellChained(sh, m, ch) && b < sh.buckets && p <= |ch[b]|
    ensures Target(ch[b], p) != INVALID <==> p < |ch[b]|
    ensures p < |ch[b]| ==> Target(ch[b], p) < sh.capacity
  {
    assert InRange(sh, ch[b]);
  }

  // Where a walk for k ends says what the dictionary holds for k.
  lemma WalkEnd(sh: Shape, m: Mem, ch: Chains, k: Key, p: nat, i: nat)
    requires WellChained(sh, m, ch) && Passed(sh, m, ch, k, p)
    requires i == Target(ch[Bucket(sh, k)], p) && (i != INVALID <==> p < |ch[Bucket(sh, k)]|)
    requires i != INVALID ==> i < sh.capacity && m.keys[i] == k
    ensures i == if k in Contents(sh, m, ch) then Contents(sh, m, ch)[k].0 else INVALID
  {
    AbsentFromChain(sh, m, ch, k);
    if i != INVALID {
      ChainedAt(ch, Bucket(sh, k), p);
      ContentsAt(sh, m, ch, i);
    }
  }

  // A walk that started behind p0 slots, with hint0 in hand, and now stands behind p.
  ghost predicate WalkState(sh: Shape, m: Mem, ch: Chains, k: Key, p0: nat, hint0: nat,
                            p: nat, ptr: Ptr, hint: nat, position: nat)
    requires WellChained(sh, m, ch)
  {
    var c := ch[Bucket(sh, k)];
    && p0 <= p && Passed(sh, m, ch, k, p) && ptr == PtrAt(Bucket(sh, k), c, p)
    && hint == (if p == p0 then hint0 else c[p - 1]) && position == Saturated(p)
  }

  // The slot behind the first p of the key's chain, or the invalid index at its end.
  ghost predicate AtSlot(sh: Shape, ch: Chains, k: Key, p: nat, curr: nat)
    requires ValidShape(sh) && |ch| == sh.buckets
  {
    var c := ch[Bucket(sh, k)];
    && p <= |c| && curr == Target(c, p)
    && (curr != INVALID <==> p < |c|) && (curr != INVALID ==> curr < sh.capacity)
  }

  ghost function ToWalk(sh: Shape, ch: Chains, k: Key, p: nat): int
    requires ValidShape(sh) && |ch| == sh.buckets
  {
    |ch[Bucket(sh, k)]| - p
  }

  // What the walk reads at its pointer.
  lemma WalkReads(sh: Shape, m: Mem, ch: Chains, k: Key, p0: nat, hint0: nat, p: nat, ptr: Ptr, hint: nat, position: nat)
    requires WellChained(sh, m, ch) && WalkState(sh, m, ch, k, p0, hint0, p, ptr, hint, position)
    ensures ValidPtr(sh, ptr) && AtSlot(sh, ch, k, p, Load(sh, m, ptr))
  {
    LoadAlongChain(sh, m, ch, Bucket(sh, k), p);
    ChainLoads(sh, m, ch, Bucket(sh, k), p);
  }

  // One turn of the walk, past a slot with another key.
  lemma WalkAdvances(sh: Shape, m: Mem, ch: Chains, k: Key, p0: nat, hint0: nat, p: nat, ptr: Ptr, hint: nat, position: nat, curr: nat)
    requires WellChained(sh, m, ch) && WalkState(sh, m, ch, k, p0, hint0, p, ptr, hint, position)
    requires AtSlot(sh, ch, k, p, curr) && curr != INVALID && m.keys[curr] != k
    ensures WalkState(sh, m, ch, k, p0, hint0, p + 1, Next(curr), curr, Increment(position))
    ensures ValidPtr(sh, Next(curr)) && AtSlot(sh, ch, k, p + 1, Load(sh, m, Next(curr)))
    ensures 0 <= ToWalk(sh, ch, k, p + 1) < ToWalk(sh, ch, k, p)
  {
    WalkReads(sh, m, ch, k, p0, hint0, p + 1, Next(curr), curr, Increment(position));
  }

  // No free slot within reach of the search for key k.
  ghost predicate NoRoom(sh: Shape, m: Mem, ch: Chains, bounded: bool, k: Key)
    requires WellChained(sh, m, ch)
  {
    StartHintInRange(sh, m, ch, Bucket(sh, k));
    WindowFull(sh.capacity, m.avail, StartHint(sh, Bucket(sh, k), ch[Bucket(sh, k)]), Bucket(sh, k), Attempts(sh, bounded))
  }

  // The slot that the search for key k takes.
  ghost predicate Takes(sh: Shape, m: Mem, ch: Chains, bounded: bool, k: Key, i: nat)
    requires WellChained(sh, m, ch)
  {
    StartHintInRange(sh, m, ch, Bucket(sh, k));
    exists j :: 0 <= j < Attempts(sh, bounded) &&
      TakenAt(sh.capacity, m.avail, StartHint(sh, Bucket(sh, k), ch[Bucket(sh, k)]), Bucket(sh, k), j, i)
  }

  // The whole new memory after slot i was claimed, written and appended.
  ghost function WithEntry(sh: Shape, m: Mem, ch: Chains, k: Key, v: Value, i: nat): Mem
    requires WellChained(sh, m, ch) && i < sh.capacity
  {
    var b := Bucket(sh, k);
    LoadAlongChain(sh, m, ch, b, |ch[b]|);
    Store(sh, m.(modified := true, avail := Update(m.avail, i, true), keys := m.keys[i := k], values := m.values[i := v]),
          PtrAt(b, ch[b], |ch[b]|), i)
  }

  // No bit is set beyond the capacity.
  ghost predicate BitsInRange(sh: Shape, m: Mem) {
    forall i: nat {:trigger Bit(m.avail, i)} :: i < BLOCK * |m.avail| && Bit(m.avail, i) ==> i < sh.capacity
  }

  // Chains fit the memory; outside an erase phase every chained slot has its bit set. Bits outside the chains, left
  // by a failed insert phase, are allowed.
  ghost predicate TableOk(sh: Shape, m: Mem, ch: Chains) {
    WellChained(sh, m, ch) && BitsInRange(sh, m) && (m.erasable || AllSet(sh, m, ch))
  }

  // Claiming, writing and appending a free slot adds exactly one entry.
  lemma EntryKeepsTable(sh: Shape, m: Mem, ch: Chains, k: Key, v: Value, i: nat)
    requires WellChained(sh, m, ch) && AllSet(sh, m, ch) && BitsInRange(sh, m)
    requires i < sh.capacity && !Bit(m.avail, i) && !ChainHas(sh, m, ch, k)
    ensures var m', ch' := WithEntry(sh, m, ch, k, v, i), Appended(ch, Bucket(sh, k), i);
            && !Chained(ch, i)
            && WellChained(sh, m', ch') && AllSet(sh, m', ch') && BitsInRange(sh, m') && Strays(m', ch') == Strays(m, ch)
            && k !in Contents(sh, m, ch) && Contents(sh, m', ch') == Contents(sh, m, ch)[k := (i, v)]
  {
    var b := Bucket(sh, k);
    var m1 := m.(modified := true, avail := Update(m.avail, i, true), keys := m.keys[i := k], values := m.values[i := v]);
    assert !Test(sh.capacity, m.avail, i);
    UpdateFrame(sh, m, i, true);
    SameChains(sh, m, m1, ch);
    ContentsUnchanged(sh, m, m1, ch);
    forall j | 0 <= j < |ch[b]|
      ensures m1.keys[ch[b][j]] != k
    {
      ChainedAt(ch, b, j);
    }
    LoadAlongChain(sh, m, ch, b, |ch[b]|);
    AppendKeepsWellChained(sh, m1, ch, i);
    var m', ch' := WithEntry(sh, m, ch, k, v, i), Appended(ch, b, i);
    AppendContents(sh, m1, ch, i, m', ch');
    EntryBits(sh, m, ch, i, m', ch', b);
  }

  lemma EntryBits(sh: Shape, m: Mem, ch: Chains, i: nat, m': Mem, ch': Chains, b: nat)
    requires Sized(sh, m) && Sized(sh, m') && AllSet(sh, m, ch) && BitsInRange(sh, m) && i < sh.capacity && !Bit(m.avail, i)
    requires b < |ch| && ch' == Appended(ch, b, i) && m'.avail == Update(m.avail, i, true)
    ensures AllSet(sh, m', ch') && BitsInRange(sh, m') && Strays(m', ch') == Strays(m, ch)
  {
    UpdateFrame(sh, m, i, true);
    SetBitsAfter(m.avail, i, true);
    SlotsAfterAppend(ch, b, i);
    forall j: nat
      ensures Chained(ch', j) <==> j == i || Chained(ch, j)
    {
      ChainedAfterAppend(ch, b, i, j);
    }
    forall j: nat | j < BLOCK * |m'.avail| && Bit(m'.avail, j)
      ensures j < sh.capacity
    {
      UpdateAt(m.avail, i, true, j);
    }
  }

  // An existing key is reported and nothing else changes; a new key takes a free slot unless there is no room.
  ghost predicate InsertOutcome(sh: Shape, m: Mem, ch: Chains, bounded: bool, k: Key, v: Value,
                                r: Result, m': Mem, ch': Chains)
    requires WellChained(sh, m, ch)
  {
    var c := ch[Bucket(sh, k)];
    match r.status
    case Existing(freed) =>
      && !freed && m' == m.(modified := true) && ch' == ch
      && exists p :: 0 <= p < |c| && c[p] == r.index && m.keys[r.index] == k && r.position == Saturated(p)
    case Failed =>
      && !ChainHas(sh, m, ch, k) && NoRoom(sh, m, ch, bounded, k)
      && r.index == INVALID && m' == m.(modified := true, failed := true) && ch' == ch && r.position == Saturated(|c|)
    case Success =>
      && !ChainHas(sh, m, ch, k) && !NoRoom(sh, m, ch, bounded, k) && Takes(sh, m, ch, bounded, k, r.index)
      && r.index < sh.capacity && !Bit(m.avail, r.index) && r.position == Saturated(|c|)
      && m' == WithEntry(sh, m, ch, k, v, r.index) && ch' == Appended(ch, Bucket(sh, k), r.index)
  }

  /* ---------- Entries ---------- */

  // The entries of the table: chained slots whose bit is set.
  ghost function LiveOf(sh: Shape, m: Mem, ch: Chains): map<Key, (nat, Value)>
    requires WellChained(sh, m, ch)
  {
    Available(Contents(sh, m, ch), sh.capacity, m.avail)
  }

  // The entries of a dictionary whose slot has its bit set.
  ghost function Available(all: map<Key, (nat, Value)>, size: nat, blocks: seq<Word>): map<Key, (nat, Value)>
    requires Fits(size, blocks)
  {
    map k | k in all && Test(size, blocks, all[k].0) :: all[k]
  }

  lemma AvailableWithout(all: map<Key, (nat, Value)>, less: map<Key, (nat, Value)>, size: nat, blocks: seq<Word>, i: nat)
    requires Fits(size, blocks) && !Test(size, blocks, i)
    requires forall k :: k in less <==> k in all && all[k].0 != i
    requires forall k :: k in less ==> less[k] == all[k]
    ensures Available(less, size, blocks) == Available(all, size, blocks)
  {
  }

  lemma AvailableCleared(all: map<Key, (nat, Value)>, size: nat, blocks: seq<Word>, blocks': seq<Word>, k: Key)
    requires Fits(size, blocks) && Fits(size, blocks') && k in all
    requires forall j: nat :: Test(size, blocks', j) == (j != all[k].0 && Test(size, blocks, j))
    requires forall k' :: k' in all && k' != k ==> all[k'].0 != all[k].0
    ensures Available(all, size, blocks') == Available(all, size, blocks) - {k}
  {
  }

  // Outside an erase phase every chained slot is an entry.
  lemma LiveIsContents(sh: Shape, m: Mem, ch: Chains)
    requires WellChained(sh, m, ch) && AllSet(sh, m, ch)
    ensures LiveOf(sh, m, ch) == Contents(sh, m, ch)
  {
    forall k | k in Contents(sh, m, ch)
      ensures Test(sh.capacity, m.avail, Contents(sh, m, ch)[k].0)
    {
      ContentsFrom(sh, m, ch, k);
    }
  }

  lemma LiveAt(sh: Shape, m: Mem, ch: Chains, i: nat)
    requires WellChained(sh, m, ch) && Chained(ch, i) && Test(sh.capacity, m.avail, i)
    ensures m.keys[i] in LiveOf(sh, m, ch) && LiveOf(sh, m, ch)[m.keys[i]] == (i, m.values[i])
  {
    ContentsAt(sh, m, ch, i);
  }

  // The slots of the entries: set bits inside the chains.
  ghost function LiveSlots(m: Mem, ch: Chains): set<nat> {
    SetBits(m.avail) * Slots(ch)
  }

  lemma SetBitIsLive(sh: Shape, m: Mem, ch: Chains, i: nat)
    requires WellChained(sh, m, ch) && i in LiveSlots(m, ch)
    ensures Chained(ch, i) && i < sh.capacity
    ensures m.keys[i] in LiveOf(sh, m, ch) && LiveOf(sh, m, ch)[m.keys[i]].0 == i
  {
    SlotsAreChained(ch, i);
    ChainedInRange(sh, m, ch, i);
    LiveAt(sh, m, ch, i);
  }

  lemma LiveIsSetBit(sh: Shape, m: Mem, ch: Chains, k: Key)
    requires WellChained(sh, m, ch) && k in LiveOf(sh, m, ch)
    ensures var i := LiveOf(sh, m, ch)[k].0; i < sh.capacity && i in LiveSlots(m, ch) && m.keys[i] == k && m.values[i] == LiveOf(sh, m, ch)[k].1
  {
    ContentsFrom(sh, m, ch, k);
    SlotsAreChained(ch, LiveOf(sh, m, ch)[k].0);
  }

  // As many entries as set bits in the chains.
  lemma LiveSlotsSize(sh: Shape, m: Mem, ch: Chains)
    requires WellChained(sh, m, ch)
    ensures |LiveOf(sh, m, ch)| == |LiveSlots(m, ch)|
  {
    var s, live := LiveSlots(m, ch), LiveOf(sh, m, ch);
    forall i | i in s
      ensures Chained(ch, i) && i < |m.keys| && m.keys[i] in live
    {
      SetBitIsLive(sh, m, ch, i);
    }
    ChainedImage(sh, m, ch, s);
    forall k | k in live
      ensures k in Image(m.keys, s)
    {
      LiveIsSetBit(sh, m, ch, k);
    }
    assert Image(m.keys, s) == live.Keys;
  }

  // The bit count is the number of entries and strays.
  lemma LiveSize(sh: Shape, m: Mem, ch: Chains)
    requires WellChained(sh, m, ch)
    ensures Count(m.avail) == |SetBits(m.avail)| == |LiveOf(sh, m, ch)| + |Strays(m, ch)|
  {
    CountIsCardinality(m.avail);
    LiveSlotsSize(sh, m, ch);
    assert SetBits(m.avail) == LiveSlots(m, ch) + Strays(m, ch);
  }

  // What size() reports, and that lowering the flag changes no entry.
  lemma SizeMeaning(sh: Shape, m: Mem, ch: Chains, cached: nat, m': Mem)
    requires WellChained(sh, m, ch) && WellChained(sh, m', ch) && m' == m.(modified := false)
    ensures LiveOf(sh, m', ch) == LiveOf(sh, m, ch) && Strays(m', ch) == Strays(m, ch)
    ensures CacheExact(m, cached) ==> ReportedSize(m, cached) == Count(m.avail) == |LiveOf(sh, m, ch)| + |Strays(m, ch)|
  {
    FlagsKeepLive(sh, m, m', ch);
    if CacheExact(m, cached) {
      ReportedEntries(sh, m, ch, cached);
    }
  }

  lemma ReportedEntries(sh: Shape, m: Mem, ch: Chains, cached: nat)
    requires WellChained(sh, m, ch) && CacheExact(m, cached)
    ensures ReportedSize(m, cached) == Count(m.avail) == |LiveOf(sh, m, ch)| + |Strays(m, ch)|
  {
    LiveSize(sh, m, ch);
  }

  lemma SubsetOfSameSize(s: set<nat>, t: set<nat>)
    requires s <= t && |s| == |t|
    ensures s == t
  {
    assert t == s + (t - s);
    assert |t - s| == 0;
  }

  ghost predicate EveryBitSet(sh: Shape, m: Mem)
    requires Sized(sh, m)
  {
    forall i: nat :: i < sh.capacity ==> Bit(m.avail, i)
  }

  lemma EveryBitSetIs(sh: Shape, m: Mem)
    requires Sized(sh, m) && BitsInRange(sh, m)
    ensures SetBits(m.avail) <= Below(sh.capacity)
    ensures EveryBitSet(sh, m) <==> SetBits(m.avail) == Below(sh.capacity)
  {
    BelowIs(sh.capacity);
    forall i: nat | i < sh.capacity && SetBits(m.avail) == Below(sh.capacity)
      ensures Bit(m.avail, i)
    {
      assert i in SetBits(m.avail);
    }
  }

  // No bit left means as many entries and strays as slots.
  lemma FullTable(sh: Shape, m: Mem, ch: Chains)
    requires WellChained(sh, m, ch) && BitsInRange(sh, m)
    ensures EveryBitSet(sh, m) <==> |LiveOf(sh, m, ch)| + |Strays(m, ch)| == sh.capacity
  {
    LiveSize(sh, m, ch);
    EveryBitSetIs(sh, m);
    BelowIs(sh.capacity);
    if |SetBits(m.avail)| == sh.capacity {
      SubsetOfSameSize(SetBits(m.avail), Below(sh.capacity));
    }
  }

  /** insert in terms of entries. An existing key is reported with its index and nothing changes; a failure
      changes nothing; a success adds exactly the new pair at a slot nobody had. Without the bound on search
      attempts an insert fails exactly for a new key in a table without a free slot. */
  lemma InsertMeaning(sh: Shape, m: Mem, ch: Chains, bounded: bool, k: Key, v: Value, r: Result, m': Mem, ch': Chains)
    requires WellChained(sh, m, ch) && AllSet(sh, m, ch) && BitsInRange(sh, m) && WellChained(sh, m', ch')
    requires InsertOutcome(sh, m, ch, bounded, k, v, r, m', ch')
    ensures var before, after := LiveOf(sh, m, ch), LiveOf(sh, m', ch');
            && (r.status.Existing? <==> k in before)
            && (r.status.Existing? ==> r.index == before[k].0 && after == before)
            && (r.status.Failed? ==> after == before)
            && (r.status.Success? ==> after == before[k := (r.index, v)] && Unused(before, r.index))
            && Strays(m', ch') == Strays(m, ch)
            && (!bounded ==> (r.status.Failed? <==> k !in before && |before| + |Strays(m, ch)| == sh.capacity))
  {
    OutcomeEntries(sh, m, ch, bounded, k, v, r, m', ch');
    OutcomeFails(sh, m, ch, bounded, k, v, r, m', ch');
  }

  lemma OutcomeEntries(sh: Shape, m: Mem, ch: Chains, bounded: bool, k: Key, v: Value, r: Result, m': Mem, ch': Chains)
    requires WellChained(sh, m, ch) && AllSet(sh, m, ch) && BitsInRange(sh, m) && WellChained(sh, m', ch')
    requires InsertOutcome(sh, m, ch, bounded, k, v, r, m', ch')
    ensures var before, after := LiveOf(sh, m, ch), LiveOf(sh, m', ch');
            && (r.status.Existing? ==> k in before && r.index == before[k].0 && after == before)
            && (r.status.Failed? ==> after == before)
            && (r.status.Success? ==> after == before[k := (r.index, v)] && Unused(before, r.index))
            && Strays(m', ch') == Strays(m, ch)
  {
    match r.status {
      case Existing(_) => ExistingMeaning(sh, m, ch, k, r, m');
      case Failed => FlagsKeepLive(sh, m, m', ch);
      case Success => SuccessMeaning(sh, m, ch, k, v, r.index);
    }
  }

  lemma OutcomeFails(sh: Shape, m: Mem, ch: Chains, bounded: bool, k: Key, v: Value, r: Result, m': Mem, ch': Chains)
    requires WellChained(sh, m, ch) && AllSet(sh, m, ch) && BitsInRange(sh, m)
    requires InsertOutcome(sh, m, ch, bounded, k, v, r, m', ch')
    ensures !r.status.Existing? ==> k !in LiveOf(sh, m, ch)
    ensures !bounded && !r.status.Existing? ==>
              (r.status.Failed? <==> |LiveOf(sh, m, ch)| + |Strays(m, ch)| == sh.capacity)
  {
    ChainHasIsLive(sh, m, ch, k);
    RoomMeaning(sh, m, ch, k);
  }

  lemma RoomMeaning(sh: Shape, m: Mem, ch: Chains, k: Key)
    requires WellChained(sh, m, ch) && BitsInRange(sh, m)
    ensures NoRoom(sh, m, ch, false, k) <==> |LiveOf(sh, m, ch)| + |Strays(m, ch)| == sh.capacity
  {
    UnboundedRoom(sh, m, ch, k);
    FullTable(sh, m, ch);
  }

  lemma ChainHasIsLive(sh: Shape, m: Mem, ch: Chains, k: Key)
    requires WellChained(sh, m, ch) && AllSet(sh, m, ch)
    ensures ChainHas(sh, m, ch, k) <==> k in LiveOf(sh, m, ch)
  {
    LiveIsContents(sh, m, ch);
    AbsentFromChain(sh, m, ch, k);
    if p :| 0 <= p < |ch[Bucket(sh, k)]| && m.keys[ch[Bucket(sh, k)][p]] == k {
      ChainedAt(ch, Bucket(sh, k), p);
      ContentsAt(sh, m, ch, ch[Bucket(sh, k)][p]);
    }
  }

  lemma ExistingMeaning(sh: Shape, m: Mem, ch: Chains, k: Key, r: Result, m': Mem)
    requires WellChained(sh, m, ch) && AllSet(sh, m, ch)
    requires exists p :: 0 <= p < |ch[Bucket(sh, k)]| && ch[Bucket(sh, k)][p] == r.index && m.keys[r.index] == k
    requires m' == m.(modified := true) && WellChained(sh, m', ch)
    ensures k in LiveOf(sh, m, ch) && LiveOf(sh, m, ch)[k].0 == r.index && LiveOf(sh, m', ch) == LiveOf(sh, m, ch)
  {
    var p :| 0 <= p < |ch[Bucket(sh, k)]| && ch[Bucket(sh, k)][p] == r.index && m.keys[r.index] == k;
    ChainedAt(ch, Bucket(sh, k), p);
    LiveIsContents(sh, m, ch);
    ContentsAt(sh, m, ch, r.index);
    FlagsKeepLive(sh, m, m', ch);
  }

  lemma SuccessMeaning(sh: Shape, m: Mem, ch: Chains, k: Key, v: Value, i: nat)
    requires WellChained(sh, m, ch) && AllSet(sh, m, ch) && BitsInRange(sh, m)
    requires i < sh.capacity && !Bit(m.avail, i) && !ChainHas(sh, m, ch, k)
    ensures var m', ch' := WithEntry(sh, m, ch, k, v, i), Appended(ch, Bucket(sh, k), i);
            && WellChained(sh, m', ch') && Strays(m', ch') == Strays(m, ch)
            && LiveOf(sh, m', ch') == LiveOf(sh, m, ch)[k := (i, v)] && Unused(LiveOf(sh, m, ch), i)
  {
    LiveIsContents(sh, m, ch);
    EntryKeepsTable(sh, m, ch, k, v, i);
    LiveIsContents(sh, WithEntry(sh, m, ch, k, v, i), Appended(ch, Bucket(sh, k), i));
    NewSlotUnused(sh, m, ch, i);
  }

  lemma NewSlotUnused(sh: Shape, m: Mem, ch: Chains, i: nat)
    requires WellChained(sh, m, ch) && !Chained(ch, i)
    ensures Unused(Contents(sh, m, ch), i)
  {
    forall k | k in Contents(sh, m, ch)
      ensures Contents(sh, m, ch)[k].0 != i
    {
      ContentsFrom(sh, m, ch, k);
    }
  }

  lemma FlagsKeepLive(sh: Shape, m: Mem, m': Mem, ch: Chains)
    requires WellChained(sh, m, ch) && WellChained(sh, m', ch)
    requires m' == m.(modified := m'.modified, failed := m'.failed, erasable := m'.erasable)
    ensures LiveOf(sh, m', ch) == LiveOf(sh, m, ch)
  {
    ContentsUnchanged(sh, m, m', ch);
  }

  // With one attempt per block, no room means no bit at all.
  lemma UnboundedRoom(sh: Shape, m: Mem, ch: Chains, k: Key)
    requires WellChained(sh, m, ch)
    ensures NoRoom(sh, m, ch, false, k) <==> EveryBitSet(sh, m)
  {
    var b := Bucket(sh, k);
    StartHintInRange(sh, m, ch, b);
    FullWindowIsFullSet(sh.capacity, m.avail, StartHint(sh, b, ch[b]), b);
  }

  /** A bounded insert alone. On a capacity of at most 1024 it fails, like an unbounded one, exactly for a new key in a table
      without a free slot. On a larger one it fails exactly for a new key when the 32 blocks are full that follow each other,
      around the end, from the block of its start hint: the last slot of its chain, or its bucket scaled to the capacity. */
  lemma BoundedInsertFails(sh: Shape, m: Mem, ch: Chains, k: Key, v: Value, r: Result, m': Mem, ch': Chains)
    requires WellChained(sh, m, ch) && AllSet(sh, m, ch) && BitsInRange(sh, m)
    requires InsertOutcome(sh, m, ch, true, k, v, r, m', ch')
    ensures sh.capacity <= 1024 ==>
              (r.status.Failed? <==> k !in LiveOf(sh, m, ch) && |LiveOf(sh, m, ch)| + |Strays(m, ch)| == sh.capacity)
    ensures var b := sh.hash(k) % sh.buckets;
            var start := if ch[b] == [] then FirstHint(sh, b) else ch[b][|ch[b]| - 1];
            sh.capacity > 1024 ==>
              && |m.avail| > 32 && start / 32 < |m.avail|
              && (r.status.Failed? <==> k !in LiveOf(sh, m, ch)
                                        && forall j: nat :: j < 32 ==> BlockFull(sh.capacity, m.avail, SearchBlock(|m.avail|, start / 32, b, j)))
  {
    ChainHasIsLive(sh, m, ch, k);
    StartHintInRange(sh, m, ch, Bucket(sh, k));
    if sh.capacity <= 1024 {
      assert NoRoom(sh, m, ch, true, k) == NoRoom(sh, m, ch, false, k);
      RoomMeaning(sh, m, ch, k);
    } else {
      ThirtyTwoBlocks(sh, m, ch, k);
    }
  }

  lemma ThirtyTwoBlocks(sh: Shape, m: Mem, ch: Chains, k: Key)
    requires WellChained(sh, m, ch) && sh.capacity > 1024
    ensures var b := sh.hash(k) % sh.buckets;
            var start := if ch[b] == [] then FirstHint(sh, b) else ch[b][|ch[b]| - 1];
            && |m.avail| > 32 && start / 32 < |m.avail|
            && (NoRoom(sh, m, ch, true, k) <==>
                  forall j: nat :: j < 32 ==> BlockFull(sh.capacity, m.avail, SearchBlock(|m.avail|, start / 32, b, j)))
  {
    var b := Bucket(sh, k);
    var start := StartHint(sh, b, ch[b]);
    StartHintInRange(sh, m, ch, b);
    forall j: nat | j < 32
      ensures SearchBlock(|m.avail|, start / 32, b, j) == MissBlock(|m.avail|, start / 32, b, j)
    {
      SearchBlockIs(|m.avail|, start / 32, b, j);
    }
  }

  // How far the scan goes from the place of the hint to bit i: up, or, for an odd direction, down from two below it.
  function ScanDistance(offset: nat, direction: nat, i: nat): int {
    if direction % 2 == 0 then (i % 32 + 32 - offset % 32) % 32 else (offset % 32 + 62 - i % 32) % 32
  }

  // The first j blocks are full; the next holds the free slot i, which is the bit named by the hint if a miss led there
  // and that bit is free, and else the free bit that the scan reaches first.
  ghost predicate FirstFree(size: nat, blocks: seq<Word>, start: nat, direction: nat, j: nat, i: nat)
    requires Fits(size, blocks) && start / 32 < |blocks|
  {
    && j < |blocks|
    && (forall l: nat :: l < j ==> BlockFull(size, blocks, SearchBlock(|blocks|, start / 32, direction, l)))
    && i / 32 == SearchBlock(|blocks|, start / 32, direction, j) && FreeBit(size, blocks, i)
    && var named := i / 32 * 32 + start % 32;
       if j > 0 && FreeBit(size, blocks, named) then i == named
       else forall d: nat {:trigger FreeBit(size, blocks, d)} :: FreeBit(size, blocks, d) && d / 32 == i / 32 ==>
              ScanDistance(start, direction, i) <= ScanDistance(start, direction, d)
  }

  lemma TakenIsFirstFree(size: nat, blocks: seq<Word>, start: nat, direction: nat, j: nat, i: nat)
    requires Fits(size, blocks) && start / BLOCK < |blocks| && j < |blocks| && TakenAt(size, blocks, start, direction, j, i)
    ensures FirstFree(size, blocks, start, direction, j, i)
  {
    SearchBlockIs(|blocks|, start / BLOCK, direction, j);
    forall l: nat | l < j
      ensures BlockFull(size, blocks, SearchBlock(|blocks|, start / 32, direction, l))
    {
      SearchBlockIs(|blocks|, start / BLOCK, direction, l);
    }
    forall d: nat | FreeBit(size, blocks, d) && d / 32 == i / 32 && !(j > 0 && FreeBit(size, blocks, i / 32 * 32 + start % 32))
      ensures ScanDistance(start, direction, i) <= ScanDistance(start, direction, d)
    {
      assert Bit(blocks, d) == false;
      ScanOrder(start % BLOCK, direction, i % BLOCK, d % BLOCK);
    }
  }

  // A slot taken for k, in numbers.
  ghost predicate TakesFirstFree(sh: Shape, m: Mem, ch: Chains, bounded: bool, k: Key, i: nat)
    requires WellChained(sh, m, ch)
  {
    StartHintInRange(sh, m, ch, Bucket(sh, k));
    var b := sh.hash(k) % sh.buckets;
    var start := if ch[b] == [] then FirstHint(sh, b) else ch[b][|ch[b]| - 1];
    exists j: nat :: (bounded ==> j < 32) && FirstFree(sh.capacity, m.avail, start, b, j, i)
  }

  lemma TakesIs(sh: Shape, m: Mem, ch: Chains, bounded: bool, k: Key, i: nat)
    requires WellChained(sh, m, ch) && Takes(sh, m, ch, bounded, k, i)
    ensures TakesFirstFree(sh, m, ch, bounded, k, i)
  {
    var b := Bucket(sh, k);
    StartHintInRange(sh, m, ch, b);
    var j :| 0 <= j < Attempts(sh, bounded) && TakenAt(sh.capacity, m.avail, StartHint(sh, b, ch[b]), b, j, i);
    TakenIsFirstFree(sh.capacity, m.avail, StartHint(sh, b, ch[b]), b, j, i);
  }

  // The place of slot i in the chain of key k, up to the 29 bits of the reported position.
  ghost predicate ReportsPlace(sh: Shape, ch: Chains, k: Key, i: nat, position: nat)
    requires ValidShape(sh) && |ch| == sh.buckets
  {
    var c := ch[Bucket(sh, k)];
    exists p :: 0 <= p < |c| && c[p] == i && position == if p < 536870911 then p else 536870911
  }

  /** Where insert puts a new pair, and what place in its chain it reports for a new or a present one. */
  lemma InsertPlaces(sh: Shape, m: Mem, ch: Chains, bounded: bool, k: Key, v: Value, r: Result, m': Mem, ch': Chains)
    requires WellChained(sh, m, ch) && WellChained(sh, m', ch') && InsertOutcome(sh, m, ch, bounded, k, v, r, m', ch')
    ensures r.status.Success? ==> TakesFirstFree(sh, m, ch, bounded, k, r.index)
    ensures !r.status.Failed? ==> ReportsPlace(sh, ch', k, r.index, r.position)
  {
    var c := ch[Bucket(sh, k)];
    match r.status {
      case Existing(_) =>
        var p :| 0 <= p < |c| && c[p] == r.index && r.position == Saturated(p);
      case Success =>
        TakesIs(sh, m, ch, bounded, k, r.index);
        assert ch'[Bucket(sh, k)][|c|] == r.index;
      case Failed =>
    }
  }

  // Unlinking a slot whose bit is clear drops no entry.
  lemma UnlinkKeepsLive(sh: Shape, m: Mem, ch: Chains, b: nat, x: nat, blank: Key)
    requires WellChained(sh, m, ch) && b < sh.buckets && x < |ch[b]|
    requires !Test(sh.capacity, m.avail, ch[b][x])
    ensures var m', ch' := Unlinked(sh, m, ch, b, x, blank), WithoutSlot(ch, b, x);
            && WellChained(sh, m', ch') && m'.avail == m.avail
            && Strays(m', ch') == Strays(m, ch) && LiveOf(sh, m', ch') == LiveOf(sh, m, ch)
  {
    var m', ch' := Unlinked(sh, m, ch, b, x, blank), WithoutSlot(ch, b, x);
    UnlinkKeepsWellChained(sh, m, ch, b, x, blank);
    UnlinkContents(sh, m, ch, b, x, blank, m', ch');
    UnlinkKeepsStrays(sh, m, ch, b, x);
    AvailableWithout(Contents(sh, m, ch), Contents(sh, m', ch'), sh.capacity, m.avail, ch[b][x]);
  }

  lemma UnlinkKeepsStrays(sh: Shape, m: Mem, ch: Chains, b: nat, x: nat)
    requires WellChained(sh, m, ch) && b < sh.buckets && x < |ch[b]|
    requires !Test(sh.capacity, m.avail, ch[b][x])
    ensures SetBits(m.avail) - Slots(WithoutSlot(ch, b, x)) == Strays(m, ch)
  {
    ChainedAt(ch, b, x);
    ChainedInRange(sh, m, ch, ch[b][x]);
    forall i: nat
      ensures i in SetBits(m.avail) ==> (i in Slots(WithoutSlot(ch, b, x)) <==> i in Slots(ch))
    {
      SlotsAreChained(ch, i);
      SlotsAreChained(WithoutSlot(ch, b, x), i);
      ChainedWithoutSlot(ch, b, x, i);
    }
  }

  // What find returned, tested for availability, tells whether k is an entry.
  lemma FoundIsLive(sh: Shape, m: Mem, ch: Chains, k: Key, index: nat)
    requires WellChained(sh, m, ch)
    requires index == if k in Contents(sh, m, ch) then Contents(sh, m, ch)[k].0 else INVALID
    ensures Test(sh.capacity, m.avail, index) <==> k in LiveOf(sh, m, ch)
    ensures k !in LiveOf(sh, m, ch) ==> LiveOf(sh, m, ch) - {k} == LiveOf(sh, m, ch)
    ensures k in LiveOf(sh, m, ch) ==> k in Contents(sh, m, ch) && index < sh.capacity
  {
  }

  // Clearing the bit of key k's slot removes exactly that entry.
  lemma ClearBitRemoves(sh: Shape, m: Mem, ch: Chains, k: Key, modified: bool)
    requires WellChained(sh, m, ch) && BitsInRange(sh, m) && k in Contents(sh, m, ch)
    ensures var i := Contents(sh, m, ch)[k].0;
            var m' := m.(avail := Update(m.avail, i, false), modified := modified);
            && i < sh.capacity && WellChained(sh, m', ch) && BitsInRange(sh, m')
            && Strays(m', ch) == Strays(m, ch) && LiveOf(sh, m', ch) == LiveOf(sh, m, ch) - {k}
  {
    ContentsFrom(sh, m, ch, k);
    var all := Contents(sh, m, ch);
    var i := all[k].0;
    var m' := m.(avail := Update(m.avail, i, false), modified := modified);
    UpdateFrame(sh, m, i, false);
    SameChains(sh, m, m', ch);
    ContentsUnchanged(sh, m, m', ch);
    ClearKeepsStrays(sh, m, ch, i, m');
    forall k' | k' in all && k' != k
      ensures all[k'].0 != i
    {
      ContentsFrom(sh, m, ch, k');
    }
    AvailableCleared(all, sh.capacity, m.avail, m'.avail, k);
  }

  lemma ClearKeepsStrays(sh: Shape, m: Mem, ch: Chains, i: nat, m': Mem)
    requires BitsInRange(sh, m) && i < BLOCK * |m.avail| && m'.avail == Update(m.avail, i, false) && Chained(ch, i)
    ensures BitsInRange(sh, m') && Strays(m', ch) == Strays(m, ch)
  {
    SetBitsAfter(m.avail, i, false);
    SlotsAreChained(ch, i);
    forall j: nat | j < BLOCK * |m'.avail| && Bit(m'.avail, j)
      ensures j < sh.capacity
    {
      UpdateAt(m.avail, i, false, j);
    }
  }

  lemma NoBitsBooked(sh: Shape, m: Mem, ch: Chains)
    requires forall i: nat :: i < BLOCK * |m.avail| ==> !Bit(m.avail, i)
    ensures Count(m.avail) == 0 && Strays(m, ch) == {} && BitsInRange(sh, m)
  {
    CountIsCardinality(m.avail);
    assert SetBits(m.avail) == {};
  }

  // A table as the constructor and clear() leave it.
  lemma BlankTableOk(sh: Shape, m: Mem)
    requires Blank(sh, m) && forall i: nat :: i < BLOCK * |m.avail| ==> !Bit(m.avail, i)
    ensures var ch := NoChains(sh.buckets);
            TableOk(sh, m, ch) && AllSet(sh, m, ch) && LiveOf(sh, m, ch) == map[] && Strays(m, ch) == {} && Count(m.avail) == 0
  {
    BlankTable(sh, m);
    NoBitsBooked(sh, m, NoChains(sh.buckets));
  }

  lemma OutcomeModifies(sh: Shape, m: Mem, ch: Chains, bounded: bool, k: Key, v: Value, r: Result, m': Mem, ch': Chains)
    requires WellChained(sh, m, ch) && InsertOutcome(sh, m, ch, bounded, k, v, r, m', ch')
    ensures m'.modified && m'.erasable == m.erasable
  {
  }

  lemma OutcomeKeepsStrays(sh: Shape, m: Mem, ch: Chains, bounded: bool, k: Key, v: Value, r: Result, m': Mem, ch': Chains)
    requires WellChained(sh, m, ch) && AllSet(sh, m, ch) && BitsInRange(sh, m)
    requires InsertOutcome(sh, m, ch, bounded, k, v, r, m', ch')
    ensures Strays(m', ch') == Strays(m, ch)
  {
    if r.status.Success? {
      EntryKeepsTable(sh, m, ch, k, v, r.index);
    }
  }

  lemma OutcomeIgnoresModified(sh: Shape, m: Mem, ch: Chains, bounded: bool, k: Key, v: Value, r: Result, m': Mem, ch': Chains)
    requires WellChained(sh, m, ch) && WellChained(sh, m.(modified := true), ch)
    requires InsertOutcome(sh, m.(modified := true), ch, bounded, k, v, r, m', ch')
    ensures InsertOutcome(sh, m, ch, bounded, k, v, r, m', ch')
  {
    var m1 := m.(modified := true);
    assert ChainHas(sh, m1, ch, k) == ChainHas(sh, m, ch, k);
    assert NoRoom(sh, m1, ch, bounded, k) == NoRoom(sh, m, ch, bounded, k);
    assert Takes(sh, m1, ch, bounded, k, r.index) == Takes(sh, m, ch, bounded, k, r.index);
    if r.status.Success? {
      assert WithEntry(sh, m1, ch, k, v, r.index) == WithEntry(sh, m, ch, k, v, r.index);
    }
  }

  // The hint is still at its place in the block, and after a miss the bit it names has been tried.
  ghost predicate NamedTaken(size: nat, blocks: seq<Word>, start: nat, attempts: nat, hint: nat)
    requires Fits(size, blocks)
  {
    hint % BLOCK == start % BLOCK && (attempts > 0 ==> !FreeBit(size, blocks, hint))
  }

  // Between two turns of insert: nothing found so far, `attempts` full blocks behind.
  ghost predicate TurnReady(sh: Shape, m: Mem, ch: Chains, bounded: bool, k: Key,
                            ptr: Ptr, hint: nat, attempts: nat, position: nat, p: nat)
    requires WellChained(sh, m, ch)
  {
    var b := Bucket(sh, k);
    var c := ch[b];
    StartHintInRange(sh, m, ch, b);
    && Passed(sh, m, ch, k, p) && ptr == PtrAt(b, c, p) && position == Saturated(p)
    && (attempts == 0 ==> p == 0 && hint == FirstHint(sh, b))
    && (attempts > 0 ==>
          && p == |c| && attempts < Attempts(sh, bounded)
          && hint / BLOCK == MissBlock(|m.avail|, StartHint(sh, b, c) / BLOCK, b, attempts)
          && NamedTaken(sh.capacity, m.avail, StartHint(sh, b, c), attempts, hint))
    && WindowFull(sh.capacity, m.avail, StartHint(sh, b, c), b, attempts)
  }

  // The same, with the walk at the end of the chain.
  ghost predicate AtTailReady(sh: Shape, m: Mem, ch: Chains, bounded: bool, k: Key,
                              tail: Ptr, hint: nat, attempts: nat, position: nat)
    requires WellChained(sh, m, ch)
  {
    var b := Bucket(sh, k);
    var c := ch[b];
    StartHintInRange(sh, m, ch, b);
    && tail == PtrAt(b, c, |c|) && position == Saturated(|c|) && !ChainHas(sh, m, ch, k)
    && attempts < Attempts(sh, bounded)
    && hint / BLOCK == MissBlock(|m.avail|, StartHint(sh, b, c) / BLOCK, b, attempts)
    && NamedTaken(sh.capacity, m.avail, StartHint(sh, b, c), attempts, hint)
    && WindowFull(sh.capacity, m.avail, StartHint(sh, b, c), b, attempts)
  }

  lemma TailReached(sh: Shape, m: Mem, ch: Chains, bounded: bool, k: Key, ptr0: Ptr, hint0: nat, attempts: nat,
                    position0: nat, p0: nat, ptr: Ptr, hint: nat, position: nat, p: nat)
    requires WellChained(sh, m, ch)
    requires TurnReady(sh, m, ch, bounded, k, ptr0, hint0, attempts, position0, p0)
    requires WalkState(sh, m, ch, k, p0, hint0, p, ptr, hint, position) && p == |ch[Bucket(sh, k)]|
    ensures AtTailReady(sh, m, ch, bounded, k, ptr, hint, attempts, position)
  {
  }

  // A free slot in a block the search may reach shows that the window was not full.
  lemma ClaimedMeansRoom(sh: Shape, m: Mem, ch: Chains, bounded: bool, k: Key, attempts: nat, i: nat)
    requires WellChained(sh, m, ch) && i < sh.capacity && !Bit(m.avail, i)
    requires attempts < Attempts(sh, bounded)
    requires StartHint(sh, Bucket(sh, k), ch[Bucket(sh, k)]) / BLOCK < |m.avail|
    requires TakenAt(sh.capacity, m.avail, StartHint(sh, Bucket(sh, k), ch[Bucket(sh, k)]), Bucket(sh, k), attempts, i)
    ensures !NoRoom(sh, m, ch, bounded, k) && Takes(sh, m, ch, bounded, k, i)
  {
    StartHintInRange(sh, m, ch, Bucket(sh, k));
    assert !BlockFull(sh.capacity, m.avail, i / BLOCK);
  }

  // A missed search adds its block to the window and leads on to the next one.
  lemma MissAdvances(size: nat, blocks: seq<Word>, start: nat, direction: nat, attempts: nat, hint: nat, next: nat)
    requires Fits(size, blocks) && start / BLOCK < |blocks|
    requires hint / BLOCK == MissBlock(|blocks|, start / BLOCK, direction, attempts)
    requires WindowFull(size, blocks, start, direction, attempts)
    requires hint % BLOCK == start % BLOCK
    requires SearchOutcome(size, blocks, hint / BLOCK, hint % BLOCK, direction, false, (false, next))
    ensures WindowFull(size, blocks, start, direction, attempts + 1)
    ensures next / BLOCK == MissBlock(|blocks|, start / BLOCK, direction, attempts + 1) && next % BLOCK == start % BLOCK
    ensures FreeBit(size, blocks, next) ==> TakenAt(size, blocks, start, direction, attempts + 1, next)
  {
    assert BlockFull(size, blocks, hint / BLOCK);
  }

  // A search that hits takes its slot.
  lemma HitTakes(size: nat, blocks: seq<Word>, start: nat, direction: nat, attempts: nat, hint: nat, i: nat)
    requires Fits(size, blocks) && start / BLOCK < |blocks|
    requires hint / BLOCK == MissBlock(|blocks|, start / BLOCK, direction, attempts)
    requires WindowFull(size, blocks, start, direction, attempts) && NamedTaken(size, blocks, start, attempts, hint)
    requires SearchOutcome(size, blocks, hint / BLOCK, hint % BLOCK, direction, false, (true, i))
    ensures FreeBit(size, blocks, i) && TakenAt(size, blocks, start, direction, attempts, i)
  {
  }

  // What the arrays hold behind the first p slots of chain b.
  lemma ChainReads(sh: Shape, m: Mem, ch: Chains, b: nat, p: nat)
    requires WellChained(sh, m, ch) && b < sh.buckets
    ensures 0 < p <= |ch[b]| ==> ch[b][p - 1] < sh.capacity && m.next[ch[b][p - 1]] == Target(ch[b], p)
    ensures p == 0 ==> m.heads[b] == Target(ch[b], 0)
    ensures p <= |ch[b]| ==> (Target(ch[b], p) != INVALID <==> p < |ch[b]|)
    ensures p < |ch[b]| ==> ch[b][p] < sh.capacity
  {
    if p <= |ch[b]| {
      LoadAlongChain(sh, m, ch, b, p);
      ChainLoads(sh, m, ch, b, p);
      assert InRange(sh, ch[b]);
    }
  }

  ghost predicate OnlyBucket(ch: Chains, ch': Chains, b: nat) {
    |ch'| == |ch| && forall d :: 0 <= d < |ch| && d != b ==> ch'[d] == ch[d]
  }

  // The first x slots of chain b have their bits set.
  ghost predicate ChainSet(sh: Shape, m: Mem, ch: Chains, b: nat, x: nat)
    requires Sized(sh, m)
  {
    b < |ch| && x <= |ch[b]| && forall j :: 0 <= j < x ==> Test(sh.capacity, m.avail, ch[b][j])
  }

  lemma ChainsSet(sh: Shape, m: Mem, ch: Chains)
    requires Sized(sh, m) && forall b: nat :: b < |ch| ==> ChainSet(sh, m, ch, b, |ch[b]|)
    ensures AllSet(sh, m, ch)
  {
    forall i: nat | Chained(ch, i)
      ensures Test(sh.capacity, m.avail, i)
    {
      var b :| 0 <= b < |ch| && i in ch[b];
      var j :| 0 <= j < |ch[b]| && ch[b][j] == i;
      assert ChainSet(sh, m, ch, b, |ch[b]|);
    }
  }

  // The second removal loop: `prev` is the last slot looked at and kept, `curr` comes after it.
  ghost predicate InnerState(sh: Shape, m: Mem, ch: Chains, b: nat, x: nat, prev: nat, curr: nat)
    requires Sized(sh, m)
  {
    && ChainSet(sh, m, ch, b, x) && 1 <= x && prev == ch[b][x - 1]
    && curr == Target(ch[b], x) && (curr != INVALID <==> x < |ch[b]|)
  }

  lemma DropTurn(sh: Shape, ch: Chains, b: nat, x: nat, prev: nat, next: nat, m': Mem)
    requires Sized(sh, m') && b < |ch| && 1 <= x < |ch[b]| && prev == ch[b][x - 1] && next == Target(ch[b], x + 1)
    requires WellChained(sh, m', WithoutSlot(ch, b, x))
    requires forall j :: 0 <= j < x ==> Test(sh.capacity, m'.avail, ch[b][j])
    ensures InnerState(sh, m', WithoutSlot(ch, b, x), b, x, prev, next)
    ensures OnlyBucket(ch, WithoutSlot(ch, b, x), b) && |WithoutSlot(ch, b, x)[b]| == |ch[b]| - 1
  {
    ChainLoads(sh, m', WithoutSlot(ch, b, x), b, x);
  }
}
