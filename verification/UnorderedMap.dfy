/** Kokkos::UnorderedMap as host code and single-threaded kernels use it: insert, find, the erase phase, the
    cached size and rehash. The chains are a ghost description of what the arrays spell out. */
module UnorderedMap {
  import opened Bitset
  import opened MapMemory
  import opened InsertProtocol
  import opened ErasePhase
  import opened InsertBooks
  import opened TableModel
  import opened RehashModel
  import opened Counting

  class Table {
    var shape: Shape
    var primes: seq<nat>
    const noKey: Key
    var bounded: bool
    var cachedSize: nat
    var available: BitSet
    var hashLists: array<nat>
    var nextIndex: array<nat>
    var keys: array<Key>
    var values: array<Value>
    var modified: bool
    var erasable: bool
    var failed: bool
    ghost var chains: Chains

    ghost function Repr(): set<object>
      reads this
    {
      {this, available, available.blocks, hashLists, nextIndex, keys, values}
    }

    ghost predicate Separate()
      reads this
    {
      && hashLists != nextIndex
      && (keys as object) != hashLists && (keys as object) != nextIndex && (keys as object) != values
      && (values as object) != hashLists && (values as object) != nextIndex
      && (available.blocks as object) != hashLists && (available.blocks as object) != nextIndex
      && (available.blocks as object) != keys && (available.blocks as object) != values
    }

    ghost function Memory(): Mem
      reads Repr()
    {
      Mem(available.blocks[..], hashLists[..], nextIndex[..], keys[..], values[..], modified, erasable, failed)
    }

    ghost predicate Shaped()
      reads Repr()
    {
      Separate() && Sized(shape, Memory())
    }

    ghost predicate Valid()
      reads Repr()
    {
      && Separate()
      && available.size == shape.capacity && available.Valid()
      && primes != [] && (forall i :: 0 <= i < |primes| ==> primes[i] > 0)
      && TableOk(shape, Memory(), chains)
    }

    // The cached size is the bit count, unless something was modified since. Every operation keeps this but clear().
    ghost predicate CacheExact()
      reads Repr()
    {
      InsertBooks.CacheExact(Memory(), cachedSize)
    }

    // It is at least the bit count; this clear() keeps as well.
    ghost predicate CacheOk()
      reads this, available, available.blocks
    {
      modified || cachedSize >= Count(available.blocks[..])
    }

    // Slots whose bit is set but which no chain reaches, left by a failed insert phase.
    ghost function Stray(): set<nat>
      reads Repr()
    {
      Strays(Memory(), chains)
    }

    ghost function Live(): map<Key, (nat, Value)>
      requires Valid()
      reads Repr()
    {
      LiveOf(shape, Memory(), chains)
    }

    constructor (capacityHint: nat, hash: Key -> nat, primes: seq<nat>, noKey: Key)
      requires capacityHint < UINT32 && CalculateCapacity(capacityHint) > 0
      requires primes != [] && forall i :: 0 <= i < |primes| ==> primes[i] > 0
      ensures Valid() && fresh(Repr()) && Live() == map[] && !erasable && !failed && !modified && bounded
      ensures shape.capacity == CalculateCapacity(capacityHint) && shape.hash == hash && this.primes == primes && this.noKey == noKey
      ensures shape.buckets == FindHashSize(primes, shape.capacity)
      ensures cachedSize == 0 && CacheExact() && Stray() == {}
    {
      var capacity := CalculateCapacity(capacityHint);
      var buckets := FindHashSize(primes, capacity);
      shape := Shape(capacity, buckets, hash);
      this.primes := primes;
      this.noKey := noKey;
      bounded := true;
      cachedSize := 0;
      available := new BitSet(capacity);
      hashLists := new nat[buckets](_ => INVALID);
      nextIndex := new nat[capacity + 1](_ => INVALID);
      keys := new Key[capacity + 1](_ => noKey);
      values := new Value[capacity + 1];
      modified, erasable, failed := false, false, false;
      chains := NoChains(buckets);
      new;
      StartsBlank(capacityHint);
      assert fresh(available) && fresh(available.blocks) && fresh(hashLists) && fresh(nextIndex) && fresh(keys) && fresh(values);
    }

    // What the constructor filled is a blank table.
    lemma StartsBlank(capacityHint: nat)
      requires capacityHint < UINT32 && shape.capacity == CalculateCapacity(capacityHint) > 0 && shape.buckets > 0
      requires available.size == shape.capacity && available.Valid()
      requires forall i: nat :: i < BLOCK * available.blocks.Length ==> !Bit(available.blocks[..], i)
      requires hashLists.Length == shape.buckets && keys.Length == values.Length == nextIndex.Length == shape.capacity + 1
      requires (forall i :: 0 <= i < hashLists.Length ==> hashLists[i] == INVALID) && (forall i :: 0 <= i < nextIndex.Length ==> nextIndex[i] == INVALID)
      ensures var m, ch := Memory(), NoChains(shape.buckets);
              Sized(shape, m) && TableOk(shape, m, ch) && LiveOf(shape, m, ch) == map[] && Strays(m, ch) == {} && InsertBooks.CacheExact(m, 0)
    {
      CapacityCovers(capacityHint);
      BlankTableOk(shape, Memory());
    }

    // curr_ptr dereferenced, and the compare-and-swap's store.
    function LoadPtr(p: Ptr): (i: nat)
      requires Shaped() && ValidPtr(shape, p)
      reads Repr()
      ensures i == Load(shape, Memory(), p)
    {
      match p
      case Head(b) => hashLists[b]
      case Next(s) => nextIndex[s]
    }

    method StorePtr(p: Ptr, i: nat)
      requires Shaped() && ValidPtr(shape, p)
      modifies hashLists, nextIndex
      ensures Memory() == Store(shape, old(Memory()), p, i)
    {
      match p
      case Head(b) => hashLists[b] := i;
      case Next(s) => nextIndex[s] := i;
    }

    /* ----- find, exists ----- */

    method Find(k: Key) returns (index: nat)
      requires Valid()
      ensures var all := Contents(shape, Memory(), chains);
              index == if k in all then all[k].0 else INVALID
    {
      ghost var m := Memory();
      ghost var b := Bucket(shape, k);
      ghost var c := chains[b];
      ghost var p := 0;
      LoadAlongChain(shape, m, chains, b, 0);
      ChainLoads(shape, m, chains, b, 0);
      index := hashLists[Bucket(shape, k)];
      while index != INVALID && keys[index] != k
        invariant Passed(shape, m, chains, k, p) && index == Target(c, p)
        invariant index != INVALID <==> p < |c|
        invariant index != INVALID ==> index < shape.capacity
        decreases |c| - p
      {
        LoadAlongChain(shape, m, chains, b, p + 1);
        ChainLoads(shape, m, chains, b, p + 1);
        index := nextIndex[index];
        p := p + 1;
      }
      WalkEnd(shape, m, chains, k, p, index);
    }

    method Exists(k: Key) returns (found: bool)
      requires Valid()
      ensures found <==> k in Live()
    {
      var i := Find(k);
      FoundIsLive(shape, Memory(), chains, k, i);
      found := available.TestBit(i);
    }
  
    /* ----- insert ----- */

    // The inner loop: follow the chain until the key or its end.
    method Walk(k: Key, from: Ptr, hint0: nat, position0: nat, ghost p0: nat)
      returns (curr: nat, ptr: Ptr, hint: nat, position: nat, ghost p: nat)
      requires Valid() && WalkState(shape, Memory(), chains, k, p0, hint0, p0, from, hint0, position0)
      ensures WalkState(shape, Memory(), chains, k, p0, hint0, p, ptr, hint, position)
      ensures AtSlot(shape, chains, k, p, curr) && (curr != INVALID ==> Memory().keys[curr] == k)
    {
      ptr, hint, position, p := from, hint0, position0, p0;
      WalkReads(shape, Memory(), chains, k, p0, hint0, p, ptr, hint, position);
      curr := LoadPtr(ptr);
      while curr != INVALID && keys[curr] != k
        invariant WalkState(shape, Memory(), chains, k, p0, hint0, p, ptr, hint, position)
        invariant AtSlot(shape, chains, k, p, curr)
        decreases ToWalk(shape, chains, k, p)
      {
        WalkAdvances(shape, Memory(), chains, k, p0, hint0, p, ptr, hint, position, curr);
        position := Increment(position);
        hint := curr;
        ptr := Next(curr);
        p := p + 1;
        curr := LoadPtr(ptr);
      }
    }

    method WriteEntry(i: nat, k: Key, v: Value)
      requires Shaped() && i < shape.capacity
      modifies keys, values
      ensures Memory() == old(Memory()).(keys := old(keys[..])[i := k], values := old(values[..])[i := v])
    {
      keys[i] := k;
      values[i] := v;
    }

    method SetAvailable(i: nat) returns (changed: bool)
      requires Shaped() && available.size == shape.capacity && available.Valid()
      modifies available.blocks
      ensures available.Valid()
      ensures changed <==> i < shape.capacity && !old(Bit(available.blocks[..], i))
      ensures Memory() == if changed then old(Memory()).(avail := Update(old(available.blocks[..]), i, true)) else old(Memory())
    {
      ghost var bits := available.blocks[..];
      changed := available.Set(i);
      if i < shape.capacity && !changed {
        assert bits[i / BLOCK][i % BLOCK := true] == bits[i / BLOCK];
      }
    }

    // Claim the hinted slot if it is free, write the pair and append it at the tail.
    method ClaimAndAppend(k: Key, v: Value, hint: nat, tail: Ptr) returns (claimed: bool)
      requires Valid() && !erasable && modified && !ChainHas(shape, Memory(), chains, k)
      requires tail == PtrAt(Bucket(shape, k), chains[Bucket(shape, k)], |chains[Bucket(shape, k)]|)
      modifies Repr()
      ensures Valid() && Repr() == old(Repr()) && shape == old(shape)
      ensures bounded == old(bounded) && cachedSize == old(cachedSize) && primes == old(primes)
      ensures claimed <==> hint < shape.capacity && !old(Bit(available.blocks[..], hint))
      ensures !claimed ==> Memory() == old(Memory()) && chains == old(chains)
      ensures claimed ==> Memory() == old(WithEntry(shape, Memory(), chains, k, v, hint))
                          && chains == old(Appended(chains, Bucket(shape, k), hint))
    {
      ghost var m0, ch, b := Memory(), chains, Bucket(shape, k);
      LoadAlongChain(shape, m0, ch, b, |ch[b]|);
      claimed := SetAvailable(hint);
      if claimed {
        EntryKeepsTable(shape, m0, ch, k, v, hint);
        WriteEntry(hint, k, v);
        StorePtr(tail, hint);
        chains := Appended(chains, b, hint);
        assert Memory() == WithEntry(shape, m0, ch, k, v, hint);
      }
    }
  
    method SetFailed()
      requires Valid()
      modifies this`failed
      ensures Valid() && Memory() == old(Memory()).(failed := true)
    {
      ghost var m := Memory();
      failed := true;
      SameChains(shape, m, Memory(), chains);
    }

    // find_any_unset_near, counting the attempt when it misses.
    method SearchFree(k: Key, tail: Ptr, hint0: nat, attempts0: nat, position: nat) returns (hint: nat, attempts: nat)
      requires Valid()
      requires AtTailReady(shape, Memory(), chains, bounded, k, tail, hint0, attempts0, position)
      ensures attempts == attempts0 ==> FreeBit(shape.capacity, available.blocks[..], hint)
      ensures attempts == attempts0 || attempts == attempts0 + 1
      ensures var start := StartHint(shape, Bucket(shape, k), chains[Bucket(shape, k)]);
              && start / BLOCK < available.blocks.Length
              && WindowFull(shape.capacity, available.blocks[..], start, Bucket(shape, k), attempts)
              && hint / BLOCK == MissBlock(available.blocks.Length, start / BLOCK, Bucket(shape, k), attempts)
              && (attempts > attempts0 ==> hint % BLOCK == start % BLOCK)
              && (FreeBit(shape.capacity, available.blocks[..], hint) ==>
                    TakenAt(shape.capacity, available.blocks[..], start, Bucket(shape, k), attempts, hint))
    {
      var b := Bucket(shape, k);
      ghost var m := Memory();
      StartHintInRange(shape, m, chains, b);
      var found;
      found, hint := available.FindUnsetNear(hint0, b);
      attempts := attempts0;
      if !found {
        MissAdvances(shape.capacity, m.avail, StartHint(shape, b, chains[b]), b, attempts0, hint0, hint);
        attempts := attempts + 1;
      } else {
        HitTakes(shape.capacity, m.avail, StartHint(shape, b, chains[b]), b, attempts0, hint0, hint);
      }
    }

    // The second half of a turn, at the tail of the chain: search a free slot near the hint and claim it.
    method Probe(k: Key, v: Value, tail: Ptr, hint0: nat, attempts0: nat, position: nat)
      returns (done: bool, result: Result, hint: nat, attempts: nat)
      requires Valid() && !erasable && modified
      requires AtTailReady(shape, Memory(), chains, bounded, k, tail, hint0, attempts0, position)
      modifies Repr()
      ensures Valid() && Repr() == old(Repr()) && shape == old(shape) && bounded == old(bounded)
      ensures cachedSize == old(cachedSize) && primes == old(primes)
      ensures done ==> InsertOutcome(shape, old(Memory()), old(chains), bounded, k, v, result, Memory(), chains)
      ensures !done ==> Memory() == old(Memory()) && chains == old(chains) && attempts > attempts0
      ensures !done ==> AtTailReady(shape, Memory(), chains, bounded, k, tail, hint, attempts, position)
    {
      ghost var m, ch := Memory(), chains;
      hint, attempts := SearchFree(k, tail, hint0, attempts0, position);
      if attempts >= Attempts(shape, bounded) {
        SetFailed();
        done, result := true, Result(INVALID, Failed, position);
        return;
      }
      done := ClaimAndAppend(k, v, hint, tail);
      result := Result(hint, Success, position);
      if done {
        ClaimedMeansRoom(shape, m, ch, bounded, k, attempts, hint);
      }
    }

    // One turn of the outer loop. Alone, a call never starts a turn with a slot it claimed in an earlier one:
    // that branch belongs to concurrent runs and is modelled in InsertProtocol.
    method Turn(k: Key, v: Value, ptr0: Ptr, hint0: nat, attempts0: nat, position0: nat, ghost p0: nat)
      returns (done: bool, result: Result, ptr: Ptr, hint: nat, attempts: nat, position: nat, ghost p: nat)
      requires Valid() && !erasable && modified
      requires TurnReady(shape, Memory(), chains, bounded, k, ptr0, hint0, attempts0, position0, p0)
      modifies Repr()
      ensures Valid() && Repr() == old(Repr()) && shape == old(shape) && bounded == old(bounded)
      ensures cachedSize == old(cachedSize) && primes == old(primes)
      ensures done ==> InsertOutcome(shape, old(Memory()), old(chains), bounded, k, v, result, Memory(), chains)
      ensures !done ==> Memory() == old(Memory()) && chains == old(chains) && attempts > attempts0
      ensures !done ==> TurnReady(shape, Memory(), chains, bounded, k, ptr, hint, attempts, position, p)
    {
      attempts := attempts0;
      var curr;
      curr, ptr, hint, position, p := Walk(k, ptr0, hint0, position0, p0);
      if curr != INVALID {
        done, result := true, Result(curr, Existing(false), position);
      } else {
        TailReached(shape, Memory(), chains, bounded, k, ptr0, hint0, attempts0, position0, p0, ptr, hint, position, p);
        done, result, hint, attempts := Probe(k, v, ptr, hint, attempts, position);
      }
    }

    method Insert(k: Key, v: Value) returns (result: Result)
      requires Valid()
      modifies Repr()
      ensures Valid() && Repr() == old(Repr()) && shape == old(shape) && bounded == old(bounded)
      ensures cachedSize == old(cachedSize) && primes == old(primes)
      ensures old(erasable) ==> result == Result(INVALID, Failed, 0) && Memory() == old(Memory()) && chains == old(chains)
      ensures !old(erasable) ==>
                InsertOutcome(shape, old(Memory()), old(chains), bounded, k, v, result, Memory(), chains)
      ensures erasable == old(erasable) && (!erasable ==> modified) && Stray() == old(Stray())
      ensures (old(CacheExact()) ==> CacheExact()) && (old(CacheOk()) ==> CacheOk())
    {
      result := Result(INVALID, Failed, 0);
      if erasable {
        return;
      }
      ghost var m0, ch := Memory(), chains;
      if !modified {
        modified := true;
      }
      ghost var m1 := Memory();
      SameChains(shape, m0, m1, ch);
      var hashList := Bucket(shape, k);
      FirstHintInRange(shape, hashList);
      HintOfSlot(shape.capacity, FirstHint(shape, hashList));
      var ptr, indexHint, findAttempts, position := Head(hashList), FirstHint(shape, hashList), 0, 0;
      ghost var p := 0;
      var done := false;
      while !done
        invariant Valid() && Repr() == old(Repr()) && shape == old(shape) && bounded == old(bounded)
        invariant cachedSize == old(cachedSize) && primes == old(primes)
        invariant done ==> InsertOutcome(shape, m1, ch, bounded, k, v, result, Memory(), chains)
        invariant !done ==> Memory() == m1 && chains == ch
        invariant !done ==> TurnReady(shape, m1, ch, bounded, k, ptr, indexHint, findAttempts, position, p)
        decreases !done, Attempts(shape, bounded) - findAttempts
      {
        done, result, ptr, indexHint, findAttempts, position, p := Turn(k, v, ptr, indexHint, findAttempts, position, p);
      }
      OutcomeIgnoresModified(shape, m0, ch, bounded, k, v, result, Memory(), chains);
      OutcomeModifies(shape, m0, ch, bounded, k, v, result, Memory(), chains);
      OutcomeKeepsStrays(shape, m0, ch, bounded, k, v, result, Memory(), chains);
    }
  
    /* ----- size, clear ----- */

    /** While the cached size is exact, size() is the number of entries and strays. */
    method Size() returns (n: nat)
      requires Valid()
      modifies this`cachedSize, this`modified
      ensures Valid() && Memory() == old(Memory()).(modified := false) && Live() == old(Live()) && Stray() == old(Stray())
      ensures old(CacheExact()) ==> n == |Live()| + |Stray()| && CacheExact()
      ensures n == cachedSize == ReportedSize(old(Memory()), old(cachedSize))
    {
      ghost var m, cached := Memory(), cachedSize;
      n := Recount();
      SizeMeaning(shape, m, chains, cached, Memory());
    }

    method Recount() returns (n: nat)
      requires Valid()
      modifies this`cachedSize, this`modified
      ensures Valid() && Memory() == old(Memory()).(modified := false)
      ensures n == cachedSize == ReportedSize(old(Memory()), old(cachedSize))
    {
      ghost var m := Memory();
      if modified {
        cachedSize := available.CountBits();
        CountIsCardinality(available.blocks[..]);
        modified := false;
        SameChains(shape, m, Memory(), chains);
      }
      n := cachedSize;
    }

    // clear() lowers the modified flag but leaves the cached size as it was.
    method Clear()
      requires Valid()
      modifies Repr()
      ensures Valid() && Repr() == old(Repr()) && shape == old(shape) && primes == old(primes)
      ensures Live() == map[] && !modified && !erasable && !failed && bounded
      ensures cachedSize == old(cachedSize) && Stray() == {} && CacheOk() && (CacheExact() <==> old(cachedSize) == 0)
    {
      bounded := true;
      WipeArrays();
      StartEmpty();
    }

    method StartEmpty()
      requires Separate() && available.size == shape.capacity && available.Valid()
      requires primes != [] && forall i :: 0 <= i < |primes| ==> primes[i] > 0
      requires Blank(shape, Memory()) && forall i: nat :: i < BLOCK * available.blocks.Length ==> !Bit(available.blocks[..], i)
      modifies this`modified, this`erasable, this`failed, this`chains
      ensures Valid() && Live() == map[] && Stray() == {} && !modified && !erasable && !failed
      ensures Count(available.blocks[..]) == 0
    {
      modified, erasable, failed := false, false, false;
      chains := NoChains(shape.buckets);
      BlankTableOk(shape, Memory());
    }

    method WipeArrays()
      requires Shaped() && available.size == shape.capacity && available.Valid()
      modifies available.blocks, hashLists, nextIndex, keys
      ensures Blank(shape, Memory()) && available.Valid()
      ensures forall i: nat :: i < BLOCK * available.blocks.Length ==> !Bit(available.blocks[..], i)
    {
      available.ResetAll();
      ghost var bits := available.blocks[..];
      forall i | 0 <= i < keys.Length { keys[i] := noKey; }
      WipeLinks();
      assert available.blocks[..] == bits;
    }

    method WipeLinks()
      requires Separate()
      modifies hashLists, nextIndex
      ensures forall b :: 0 <= b < hashLists.Length ==> hashLists[b] == INVALID
      ensures forall i :: 0 <= i < nextIndex.Length ==> nextIndex[i] == INVALID
    {
      forall b | 0 <= b < hashLists.Length { hashLists[b] := INVALID; }
      forall i | 0 <= i < nextIndex.Length { nextIndex[i] := INVALID; }
    }

    // After clear() the reported size is right exactly when the cached size already was zero.
    method SizeAfterClear() returns (n: nat)
      requires Valid()
      modifies Repr()
      ensures Valid() && Live() == map[]
      ensures n == old(cachedSize)
      ensures n == |Live()| <==> old(cachedSize) == 0
    {
      Clear();
      n := Size();
    }

    /* ----- the erase phase ----- */

    method BeginErase() returns (started: bool)
      requires Valid()
      modifies this`erasable
      ensures Valid() && Live() == old(Live()) && Stray() == old(Stray()) && started == !old(erasable) && erasable
      ensures (old(CacheExact()) ==> CacheExact()) && (old(CacheOk()) ==> CacheOk())
    {
      ghost var m := Memory();
      started := !erasable;
      if started {
        erasable := true;
      }
      SameChains(shape, m, Memory(), chains);
      FlagsKeepLive(shape, m, Memory(), chains);
    }

    method Erase(k: Key) returns (erased: bool)
      requires Valid()
      modifies this`modified, available.blocks
      ensures Valid() && chains == old(chains)
      ensures !old(erasable) ==> !erased && Memory() == old(Memory())
      ensures old(erasable) ==> (erased <==> k in old(Live())) && Live() == old(Live()) - {k} && modified
      ensures Stray() == old(Stray())
      ensures (old(CacheExact()) ==> CacheExact()) && (old(CacheOk()) ==> CacheOk())
    {
      erased := false;
      if erasable {
        MarkModified();
        erased := EraseKey(k);
      }
    }

    method MarkModified()
      requires Valid()
      modifies this`modified
      ensures Valid() && Memory() == old(Memory()).(modified := true) && Live() == old(Live()) && Stray() == old(Stray())
    {
      ghost var m := Memory();
      if !modified {
        modified := true;
      }
      SameChains(shape, m, Memory(), chains);
      FlagsKeepLive(shape, m, Memory(), chains);
    }

    method EraseKey(k: Key) returns (erased: bool)
      requires Valid() && erasable
      modifies available.blocks
      ensures Valid() && (erased <==> k in old(Live())) && Live() == old(Live()) - {k} && Stray() == old(Stray())
    {
      var index := Find(k);
      erased := EraseSlot(k, index);
    }

    method EraseSlot(k: Key, index: nat) returns (erased: bool)
      requires Valid() && erasable
      requires var all := Contents(shape, Memory(), chains); index == if k in all then all[k].0 else INVALID
      modifies available.blocks
      ensures Valid() && (erased <==> k in old(Live())) && Live() == old(Live()) - {k} && Stray() == old(Stray())
    {
      FoundIsLive(shape, Memory(), chains, k, index);
      erased := available.TestBit(index);
      if erased {
        ClearEntry(k, index);
      }
    }

    method ClearEntry(k: Key, index: nat)
      requires Valid() && erasable
      requires var all := Contents(shape, Memory(), chains); k in all && index == all[k].0
      modifies available.blocks
      ensures Valid() && Live() == old(Live()) - {k} && Stray() == old(Stray())
    {
      ClearBitRemoves(shape, Memory(), chains, k, modified);
      ClearAvailable(index);
    }

    method ClearAvailable(i: nat)
      requires Shaped() && available.size == shape.capacity && available.Valid() && i < shape.capacity
      modifies available.blocks
      ensures available.Valid()
      ensures Memory() == old(Memory()).(avail := Update(old(available.blocks[..]), i, false), modified := modified)
    {
      var wasSet := available.Reset(i);
    }
  
    // One step of a bucket's removal: the link to curr skips it, curr's own link and key are blanked.
    method DropSlot(b: nat, link: Ptr, curr: nat, next: nat, ghost x: nat)
      requires Valid() && erasable && b < shape.buckets && x < |chains[b]|
      requires link == PtrAt(b, chains[b], x) && curr == chains[b][x] && next == Target(chains[b], x + 1)
      requires !Test(shape.capacity, available.blocks[..], curr)
      modifies this`chains, hashLists, nextIndex, keys
      ensures Valid() && Live() == old(Live()) && Stray() == old(Stray())
      ensures chains == WithoutSlot(old(chains), b, x) && available.blocks[..] == old(available.blocks[..])
    {
      ghost var m, ch := Memory(), chains;
      LoadAlongChain(shape, m, ch, b, x);
      assert InRange(shape, ch[b]);
      UnlinkKeepsLive(shape, m, ch, b, x, noKey);
      StorePtr(link, next);
      BlankSlot(curr);
      chains := WithoutSlot(chains, b, x);
      assert Memory() == Unlinked(shape, m, ch, b, x, noKey);
    }

    method BlankSlot(i: nat)
      requires Shaped() && i < shape.capacity
      modifies nextIndex, keys
      ensures Memory() == old(Memory()).(next := old(nextIndex[..])[i := INVALID], keys := old(keys[..])[i := noKey])
    {
      nextIndex[i] := INVALID;
      keys[i] := noKey;
    }

    // The functor of end_erase for one bucket: first drop erased slots at the head, then unlink the others.
    method EraseBucket(b: nat)
      requires Valid() && erasable && b < shape.buckets
      modifies this`chains, hashLists, nextIndex, keys
      ensures Valid() && Live() == old(Live()) && Stray() == old(Stray()) && available.blocks[..] == old(available.blocks[..])
      ensures OnlyBucket(old(chains), chains, b) && ChainSet(shape, Memory(), chains, b, |chains[b]|)
    {
      var curr := DropHead(b);
      if curr != INVALID {
        DropInner(b, curr);
      }
    }

    method DropHead(b: nat) returns (curr: nat)
      requires Valid() && erasable && b < shape.buckets
      modifies this`chains, hashLists, nextIndex, keys
      ensures Valid() && Live() == old(Live()) && Stray() == old(Stray()) && available.blocks[..] == old(available.blocks[..])
      ensures OnlyBucket(old(chains), chains, b)
      ensures curr == Target(chains[b], 0) && (curr != INVALID <==> 0 < |chains[b]|)
      ensures 0 < |chains[b]| ==> ChainSet(shape, Memory(), chains, b, 1)
    {
      ChainReads(shape, Memory(), chains, b, 0);
      curr := hashLists[b];
      while curr != INVALID && !available.TestBit(curr)
        invariant Valid() && Live() == old(Live()) && Stray() == old(Stray()) && available.blocks[..] == old(available.blocks[..])
        invariant OnlyBucket(old(chains), chains, b)
        invariant curr == Target(chains[b], 0) && (curr != INVALID <==> 0 < |chains[b]|)
        decreases |chains[b]|
      {
        ChainReads(shape, Memory(), chains, b, 1);
        var next := nextIndex[curr];
        DropSlot(b, Head(b), curr, next, 0);
        ChainReads(shape, Memory(), chains, b, 0);
        curr := next;
      }
    }

    method DropInner(b: nat, head: nat)
      requires Valid() && erasable && b < shape.buckets
      requires 0 < |chains[b]| && head == chains[b][0] && ChainSet(shape, Memory(), chains, b, 1)
      modifies this`chains, hashLists, nextIndex, keys
      ensures Valid() && Live() == old(Live()) && Stray() == old(Stray()) && available.blocks[..] == old(available.blocks[..])
      ensures OnlyBucket(old(chains), chains, b) && ChainSet(shape, Memory(), chains, b, |chains[b]|)
    {
      ChainReads(shape, Memory(), chains, b, 1);
      var prev := head;
      var curr := nextIndex[prev];
      ghost var x := 1;
      while curr != INVALID
        invariant Valid() && Live() == old(Live()) && Stray() == old(Stray()) && available.blocks[..] == old(available.blocks[..])
        invariant OnlyBucket(old(chains), chains, b) && InnerState(shape, Memory(), chains, b, x, prev, curr)
        decreases |chains[b]| - x
      {
        prev, curr, x := InnerTurn(b, prev, curr, x);
      }
    }

    method InnerTurn(b: nat, prev: nat, curr: nat, ghost x: nat) returns (prev': nat, next: nat, ghost x': nat)
      requires Valid() && erasable && b < shape.buckets
      requires InnerState(shape, Memory(), chains, b, x, prev, curr) && curr != INVALID
      modifies this`chains, hashLists, nextIndex, keys
      ensures Valid() && Live() == old(Live()) && Stray() == old(Stray()) && available.blocks[..] == old(available.blocks[..])
      ensures OnlyBucket(old(chains), chains, b) && InnerState(shape, Memory(), chains, b, x', prev', next)
      ensures |chains[b]| - x' < |old(chains)[b]| - x
    {
      ChainReads(shape, Memory(), chains, b, x + 1);
      next := nextIndex[curr];
      if available.TestBit(curr) {
        prev', x' := curr, x + 1;
      } else {
        ghost var ch := chains;
        DropSlot(b, Next(prev), curr, next, x);
        prev', x' := prev, x;
        DropTurn(shape, ch, b, x, prev, next, Memory());
      }
    }

    // The parallel loop of end_erase: every bucket, in some order.
    method EndErase(order: seq<nat>) returns (ended: bool)
      requires Valid() && VisitsAll(order, shape.buckets)
      modifies this`chains, this`erasable, hashLists, nextIndex, keys
      ensures Valid() && Live() == old(Live()) && Stray() == old(Stray()) && ended == old(erasable) && !erasable
      ensures available.blocks[..] == old(available.blocks[..])
      ensures (old(CacheExact()) ==> CacheExact()) && (old(CacheOk()) ==> CacheOk())
    {
      ended := erasable;
      if ended {
        EraseBuckets(order);
        SettleErased();
      }
    }

    method EraseBuckets(order: seq<nat>)
      requires Valid() && erasable && VisitsAll(order, shape.buckets)
      modifies this`chains, hashLists, nextIndex, keys
      ensures Valid() && Live() == old(Live()) && Stray() == old(Stray()) && AllSet(shape, Memory(), chains)
      ensures available.blocks[..] == old(available.blocks[..])
    {
      for j := 0 to |order|
        invariant Valid() && Live() == old(Live()) && Stray() == old(Stray())
        invariant available.blocks[..] == old(available.blocks[..])
        invariant forall d: nat :: d in order[..j] ==> ChainSet(shape, Memory(), chains, d, |chains[d]|)
      {
        EraseBucket(order[j]);
        assert order[..j + 1] == order[..j] + [order[j]];
      }
      assert order[..|order|] == order;
      ChainsSet(shape, Memory(), chains);
    }

    method SettleErased()
      requires Valid() && AllSet(shape, Memory(), chains)
      modifies this`erasable
      ensures Valid() && Live() == old(Live()) && Stray() == old(Stray()) && !erasable
    {
      ghost var m := Memory();
      erasable := false;
      SameChains(shape, m, Memory(), chains);
      FlagsKeepLive(shape, m, Memory(), chains);
    }
  
    /* ----- rehash ----- */

    // Insert a pair into an unbounded table with a free slot: the first pair of a key stays.
    method InsertPair(k: Key, v: Value)
      requires Valid() && !erasable && !bounded && (k in Live() || |Live()| + |Stray()| < shape.capacity)
      modifies Repr()
      ensures Valid() && !erasable && !bounded && Repr() == old(Repr()) && shape == old(shape) && primes == old(primes)
      ensures modified && Stray() == old(Stray())
      ensures Pairs(Live()) == if k in old(Live()) then old(Pairs(Live())) else old(Pairs(Live()))[k := v]
    {
      ghost var m, ch := Memory(), chains;
      var r := Insert(k, v);
      PairInserted(shape, m, ch, k, v, r, Memory(), chains);
    }

    // The receiving side of one body of the rehash functor: the pair of slot order[j], if its bit is set.
    method Absorb(present: bool, k: Key, v: Value, ghost bits: seq<Word>, ghost ks: seq<Key>, ghost vs: seq<Value>,
                  ghost order: seq<nat>, ghost j: nat)
      requires Valid() && !erasable && !bounded && Stray() == {} && CacheExact() && Count(bits) <= shape.capacity
      requires j < |order| && forall a, b :: 0 <= a < b < |order| ==> order[a] != order[b]
      requires order[j] < BLOCK * |bits| && order[j] < |ks| && order[j] < |vs|
      requires present == Bit(bits, order[j]) && k == ks[order[j]] && v == vs[order[j]]
      requires Pairs(Live()) == FirstPairs(bits, ks, vs, order[..j])
      modifies Repr()
      ensures Valid() && Repr() == old(Repr()) && !erasable && !bounded && Stray() == {} && shape == old(shape)
      ensures CacheExact() && Pairs(Live()) == FirstPairs(bits, ks, vs, order[..j + 1])
    {
      FirstPairsStep(bits, ks, vs, order, j);
      if present {
        RoomForNext(bits, ks, vs, order, j);
        PairsSize(Live());
        InsertPair(k, v);
      }
    }

    method AbsorbSlot(bits: array<Word>, srcKeys: array<Key>, srcValues: array<Value>, order: seq<nat>, j: nat)
      requires Valid() && !erasable && !bounded && Stray() == {} && CacheExact() && Count(bits[..]) <= shape.capacity
      requires j < |order| && forall a, b :: 0 <= a < b < |order| ==> order[a] != order[b]
      requires order[j] < BLOCK * bits.Length && order[j] < srcKeys.Length && order[j] < srcValues.Length
      requires Pairs(Live()) == FirstPairs(bits[..], srcKeys[..], srcValues[..], order[..j])
      modifies Repr()
      ensures Valid() && Repr() == old(Repr()) && !erasable && !bounded && Stray() == {} && shape == old(shape) && CacheExact()
      ensures Pairs(Live()) == old(FirstPairs(bits[..], srcKeys[..], srcValues[..], order[..j + 1]))
    {
      var i := order[j];
      Absorb(bits[i / BLOCK][i % BLOCK], srcKeys[i], srcValues[i], bits[..], srcKeys[..], srcValues[..], order, j);
    }

    // The parallel loop of rehash: every slot of the source's arrays, in some order.
    method FillFrom(bits: array<Word>, srcKeys: array<Key>, srcValues: array<Value>, order: seq<nat>, ghost n: nat)
      requires Valid() && !erasable && Live() == map[] && Stray() == {} && CacheExact()
      requires (bits as object) !in Repr() && (srcKeys as object) !in Repr() && (srcValues as object) !in Repr()
      requires VisitsAll(order, n) && n <= BLOCK * bits.Length && n <= srcKeys.Length && n <= srcValues.Length
      requires Count(bits[..]) <= shape.capacity
      modifies Repr()
      ensures Valid() && Repr() == old(Repr()) && !erasable && shape == old(shape) && Stray() == {} && CacheExact()
      ensures Pairs(Live()) == FirstPairs(bits[..], srcKeys[..], srcValues[..], order)
    {
      ghost var b0, k0, v0 := bits[..], srcKeys[..], srcValues[..];
      SetBounded(false);
      var j := 0;
      while j < |order|
        invariant j <= |order| && bits[..] == b0 && srcKeys[..] == k0 && srcValues[..] == v0
        invariant Valid() && Repr() == old(Repr()) && !erasable && !bounded && shape == old(shape)
        invariant Stray() == {} && CacheExact() && Pairs(Live()) == FirstPairs(b0, k0, v0, order[..j])
      {
        AbsorbSlot(bits, srcKeys, srcValues, order, j);
        j := j + 1;
      }
      assert order[..j] == order;
    }

    // The size that rehash works with is never below the number of set bits.
    method SizeForRehash() returns (n: nat)
      requires Valid() && CacheOk()
      modifies this`cachedSize, this`modified
      ensures Valid() && Memory() == old(Memory()).(modified := false) && n >= Count(available.blocks[..])
      ensures n == ReportedSize(old(Memory()), old(cachedSize))
    {
      n := Recount();
    }

    method SetBounded(b: bool)
      requires Valid()
      modifies this`bounded
      ensures Valid() && bounded == b && Live() == old(Live()) && Stray() == old(Stray())
      ensures CacheExact() == old(CacheExact())
    {
      bounded := b;
    }

    // The temporary table of rehash: new, filled from the arrays of this one, and bounded as requested.
    method Rebuilt(wanted: nat, currSize: nat, boundedInsert: bool, order: seq<nat>) returns (tmp: Table)
      requires Valid() && VisitsAll(order, shape.capacity)
      requires Count(available.blocks[..]) <= currSize <= wanted < UINT32 && NoCapacityOverflow(wanted)
      ensures tmp.Valid() && fresh(tmp.Repr()) && tmp.bounded == boundedInsert && !tmp.erasable
      ensures tmp.Stray() == {} && tmp.CacheExact() && tmp.shape.capacity == CalculateCapacity(wanted)
      ensures Pairs(tmp.Live()) == FirstPairs(available.blocks[..], keys[..], values[..], order)
    {
      CapacityCovers(wanted);
      tmp := new Table(wanted, shape.hash, primes, noKey);
      tmp.FillAndBound(currSize, boundedInsert, available.blocks, keys, values, order, shape.capacity);
    }

    method FillAndBound(currSize: nat, boundedInsert: bool, bits: array<Word>, srcKeys: array<Key>, srcValues: array<Value>,
                        order: seq<nat>, ghost n: nat)
      requires Valid() && !erasable && Live() == map[] && Stray() == {} && CacheExact()
      requires (bits as object) !in Repr() && (srcKeys as object) !in Repr() && (srcValues as object) !in Repr()
      requires VisitsAll(order, n) && n <= BLOCK * bits.Length && n <= srcKeys.Length && n <= srcValues.Length
      requires Count(bits[..]) <= currSize <= shape.capacity
      modifies Repr()
      ensures Valid() && Repr() == old(Repr()) && bounded == boundedInsert && !erasable && shape == old(shape)
      ensures Stray() == {} && CacheExact() && Pairs(Live()) == FirstPairs(bits[..], srcKeys[..], srcValues[..], order)
    {
      if currSize != 0 {
        FillFrom(bits, srcKeys, srcValues, order, n);
      } else {
        NothingToCopy(bits[..], srcKeys[..], srcValues[..], order);
      }
      SetBounded(boundedInsert);
    }

    /** rehash inserts the pair of every set bit into a new table, the first one visited for each key, provided the
        capacity arithmetic does not overflow for the size it works with. `EntriesKeptIff` says when that keeps the
        entries. */
    method Rehash(requested: nat, boundedInsert: bool, order: seq<nat>)
      requires Valid() && VisitsAll(order, shape.capacity) && requested < UINT32 && CacheOk()
      requires NoCapacityOverflow(requested) && NoCapacityOverflow(ReportedSize(Memory(), cachedSize))
      modifies this
      ensures Valid() && bounded == boundedInsert && !erasable && CacheExact() && Stray() == {}
      ensures Pairs(Live()) == old(FirstPairs(available.blocks[..], keys[..], values[..], order))
      ensures old(StraysAgree(shape, Memory(), chains)) ==> Pairs(Live()) == old(Pairs(Live()))
      ensures shape.capacity >= requested
      ensures var reported := old(ReportedSize(Memory(), cachedSize));
              shape.capacity == CalculateCapacity(if requested < reported then reported else requested)
    {
      RehashKeeps(shape, Memory(), chains, order);
      var currSize := SizeForRehash();
      var wanted := if requested < currSize then currSize else requested;
      CapacityCovers(wanted);
      var tmp := Rebuilt(wanted, currSize, boundedInsert, order);
      Assign(tmp);
    }

    method TakeViews(src: Table)
      modifies this`available, this`hashLists, this`nextIndex, this`keys, this`values
      ensures available == old(src.available) && hashLists == old(src.hashLists) && nextIndex == old(src.nextIndex)
      ensures keys == old(src.keys) && values == old(src.values)
    {
      available, hashLists, nextIndex, keys, values := src.available, src.hashLists, src.nextIndex, src.keys, src.values;
    }

    method TakeSettings(src: Table)
      modifies this`shape, this`primes, this`bounded, this`cachedSize, this`modified, this`erasable, this`failed, this`chains
      ensures shape == old(src.shape) && primes == old(src.primes) && bounded == old(src.bounded)
      ensures modified == old(src.modified) && erasable == old(src.erasable) && failed == old(src.failed)
      ensures cachedSize == old(src.cachedSize) && chains == old(src.chains)
    {
      shape, primes, bounded, cachedSize := src.shape, src.primes, src.bounded, src.cachedSize;
      modified, erasable, failed, chains := src.modified, src.erasable, src.failed, src.chains;
    }

    // *this = tmp: both share the same arrays afterwards.
    method Assign(src: Table)
      requires src.Valid() && this !in src.Repr()
      modifies this
      ensures Valid() && Memory() == old(src.Memory()) && chains == old(src.chains)
      ensures shape == old(src.shape) && bounded == old(src.bounded) && erasable == old(src.erasable)
      ensures CacheExact() == old(src.CacheExact())
    {
      TakeViews(src);
      TakeSettings(src);
      assert Memory() == old(src.Memory());
    }
  }
}
