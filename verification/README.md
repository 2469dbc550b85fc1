# Verified models of the Kokkos containers and the stencil drivers

Dafny models of the parts of this repository where parallel code must get a protocol, an
index computation or a flag right, with proofs over every input, every schedule and every
reachable state. `dafny verify dfyconfig.toml` checks them all.

**Hash map** (`MapMemory`, `InsertProtocol`, `InsertHistory`, `InsertBooks`, `InsertProgress`,
`InsertRoom`, `InsertHints`, `InsertLosses`, `TableModel`, `ErasePhase`, `RehashModel`,
`UnorderedMap`). Concurrent `UnorderedMap::insert` is a step system on a sequentially
consistent memory: a step is one shared access of one call, a schedule is any sequence of
call numbers. One inductive invariant gives safety of every run, and from it follow
linearizability, first-writer-wins, the exact bookkeeping of availability bits with what
`size()` makes of it, a bound on the steps of unfinished calls, and when a call may fail. A
phase may start on a table that an earlier failed phase left with stray bits. The class
`Table` is the sequential form over the same arrays: insert, find, the erase phase, size,
clear and rehash.

**Bitset** (`Bitset`, `BitsetClaims`). Words are their 32 bits. The searches are proved for
every hint and direction, and the claiming loop of the bitset unit test for every
interleaving.

**Bin sort** (`BubbleBin`, `BinOrder`, `BinSort`). Keys are exact reals. Each parallel pass
takes the order in which its bodies take effect as an argument. `Kokkos::sort` over a range
is proved down to the loops.

**Stencils** (`Jacobi`, `Stencil`). Red/black and anti-diagonal passes over two padded images
are proved equal to one Jacobi sweep, and iterating the sweep is proved to reach black.

**DualView, vector** (`DualView`, `Vector`). Two arrays in two memory spaces and two 32-bit
counters. `Vector` owns its dual view where the source inherits from it.

**Smaller cores** (`ScatterView`, `ScatterOps`, `Random`, `DynamicView`). `Counting` and
`Arithmetic` hold shared sums, set sizes, powers of two and division lemmas.

Methods over arrays and fields are proved equal to functions on values; the laws are lemmas
about those functions.

## What the proofs brought out

Each of these is stated as a lemma or contract below, with the exact condition.

- `UnorderedMap::clear()` lowers the modified flag but keeps the cached size, so `size()`
  right after it is right only if the cached size was zero (`Table.SizeAfterClear`).
- An insert that holds a claimed slot and then sees the failed flag tries its
  compare-and-swap once more and may leave without appending or releasing the slot. Without
  the flag nothing leaks (`RunBookkeeping`); a run from a new table that ends with a leaked
  slot, whose value is not the one of its key's entry, is `LeavesStaleSlot`.
- `size()` after an insert phase is the number of keys plus the leaked and stray bits, so it is
  the number of keys when there are none (`RunBookkeeping`, `RunSize`).
- `rehash` copies the pair of every set bit, chained or not. It keeps the entries, whatever the
  order of the copies, if and only if every stray bit repeats an entry (`EntriesKeptIff`). The
  comment at Kokkos_UnorderedMap.hpp line 360 restricts rehash to maps without failed inserts;
  the code does not.
- `calculate_capacity(h) >= h` fails exactly where the 32-bit rounding overflows
  (`CapacityCovers`).
- "An unbounded insert fails only on a full table" holds for inserts that run alone
  (`InsertMeaning`) and, under every schedule, for concurrent inserts of different keys whose
  bucket no other call uses (`RefusedMeansFull`). It fails when another call for the same
  bucket appends between two searches: the walk over the new slot puts the hint back, the
  attempts are spent on blocks already searched, and the call fails with bits left over
  (`FailsWithRoomLeft`). How many other keys and filled blocks that takes is `RefusedNeeds`; a
  phase that stays below that is served completely (`NoneRefused`).
- A map is bounded unless it is told otherwise, and above 1024 slots a bounded insert fails as
  soon as the 32 blocks from its start hint on are full (`BoundedInsertFails`): 1024 set bits
  in a row, however large the capacity (`BoundedFailureBits`).
- So `rehash` can lose an entry: 98 entries are copied in parallel into a new table of capacity
  128 with 193 buckets, two keys share a bucket, and one pair is dropped while 31 slots are free
  (`LosesAPair`). The entries are kept, copies in parallel, when no bucket gets two keys and
  there is a slot for each copy, or when the bound of `NoneRefused` is kept
  (`ParallelRehash`), and always when the copies run one at a time (`Table.Rehash`).
- `BinSort::create_permute_vector` may not be called again on keys that fill more than one
  bin: the counts it left are added in, and it writes past the permutation vector
  (`LeftoverCounts`, `CalledAgain`). The comment at Kokkos_Sort.hpp line 240 says it may.
- `BinSort::sort` copies back to `range_begin`, so it permutes its values range in place only
  if both ranges start together (`CopyBackRight`), and it writes past a view that ends before
  `range_end`. The overload without bounds, on a view of as many rows as the range, stays
  inside it only for `range_begin == 0` (`WholeViewFits`).
- `vector::insert` of a range into an empty vector reads the size after it has resized, moves
  the new places up by their own number, and so writes past the allocation unless there is
  room for the range twice (`RangeMoveFitsIff`). With the default factor 1.1 it does so
  whenever the vector has to grow, and for every nonempty range on a default-constructed
  vector (`DefaultRangeOverruns`, `RangeIntoCleared`).
- A default-constructed `vector` loses its first `push_back` (`UntrackedPushBack`), and
  `reserve` below the size leaves the size above span (`ReserveMeaning`).
- `vector::lower_bound` over a range that reaches the end of the elements never returns the
  end, except for an empty or one-element range (`LowerBound`).
- The chunk table of `DynamicView` is too short exactly when the 32-bit sum of its size wraps
  (`ChunkTableCovers`). `resize_serial` aborts beyond the table unless its own sum wraps, as for
  a 32-bit extent of 2^32 - 1: then it frees every chunk and records that extent
  (`AskedIsNeeded`, `ResizeSerial`). No extent that fits the table wraps (`TableNeverWraps`).
- The lock loop of the random pool on Cuda and HIP wraps to the number of the thread in its
  block, so it stays inside the lock array if and only if the pool has a state for each thread
  of a block (`BlockProbesInsideIff`).

## Model

| member | source | states |
|---|---|---|
| InsertProtocol.StepKeepsInv | kokkos/dep/Kokkos/containers/src/Kokkos_UnorderedMap.hpp:512-594 | One step of any one of any number of concurrent inserts keeps the inductive invariant: chains finite, acyclic and disjoint, no key twice, every chained slot with its bit set and a key hashing to its bucket; every caller has compared unequal exactly the nodes before its pointer, and a claimed slot is unchained, set, invalid in its link and held by one caller |
| InsertProtocol.EveryRunWellChained | kokkos/dep/Kokkos/containers/src/Kokkos_UnorderedMap.hpp:473-597 | After any schedule of steps of any number of insert calls the table is still well chained, every chained bit is set and no call is ever about to leave the bounds of an array |
| InsertProtocol.ReleaseStep | kokkos/dep/Kokkos/containers/src/Kokkos_UnorderedMap.hpp:535-547 | The release on the EXISTING path always finds its bit set, so the "Unable to free existing" branch is dead, and it keeps the invariant |
| InsertProtocol.AppendStep | kokkos/dep/Kokkos/containers/src/Kokkos_UnorderedMap.hpp:582-592 | A compare-and-swap on an invalid tail link appends the caller's slot to its own bucket and keeps the invariant |
| InsertProtocol.ClaimStep | kokkos/dep/Kokkos/containers/src/Kokkos_UnorderedMap.hpp:554-577 | A claimed bit belongs to nobody else; a lost claim leaves everything as it was |
| InsertHistory.StepIsAtomic | kokkos/dep/Kokkos/containers/src/Kokkos_UnorderedMap.hpp:512-594 | Every step is invisible to a dictionary that inserts atomically, or is the one instant at which its own call happens there |
| InsertHistory.RunIsLinearizable | kokkos/dep/Kokkos/containers/src/Kokkos_UnorderedMap.hpp:473-597 | Linearizability: for every schedule there is a history of the atomic dictionary with one state per step, from the initial contents to the final contents and outcomes, in which each call happens at one of its own steps |
| InsertHistory.RunFirstWriterWins | kokkos/dep/Kokkos/containers/src/Kokkos_UnorderedMap.hpp:473-639 | First writer wins: at most one SUCCESS per key, the stored index and value are the winner's, every EXISTING result for the key reports that index, initial entries are never replaced, and a key is in the table only if it was there or some call won it |
| InsertBooks.RunBookkeeping | kokkos/dep/Kokkos/containers/src/Kokkos_UnorderedMap.hpp:399-406 | When all inserts have returned, size() is the number of distinct keys plus the slots leaked by this phase plus the stray bits it began with; nothing leaks unless the failed flag was raised; every call that was let in has raised the modified flag, and the cached size stays exact |
| InsertBooks.RunSize | kokkos/dep/Kokkos/containers/src/Kokkos_UnorderedMap.hpp:399-406 | On a table without strays, after a phase whose failed flag stays down, size() is the number of distinct keys |
| InsertBooks.RestingBits | kokkos/dep/Kokkos/containers/src/Kokkos_UnorderedMap.hpp:535-592 | In every state the set bits are exactly the chained slots, the claimed ones and the strays of the start, without overlap |
| InsertHistory.RunPositions | kokkos/dep/Kokkos/containers/src/Kokkos_UnorderedMap.hpp:112-139 | The reported list position is the place of the reported slot in its chain, up to 2^29 - 1, and an EXISTING result says whether a claimed slot was given back |
| InsertHistory.ErasableRefuses | kokkos/dep/Kokkos/containers/src/Kokkos_UnorderedMap.hpp:478-481 | Inside an erase phase no schedule of inserts writes anything, and every call that takes a step is refused |
| InsertProgress.ActiveStepsBounded | kokkos/dep/Kokkos/containers/src/Kokkos_UnorderedMap.hpp:512-594 | Under any schedule the unfinished calls take no more steps in total than a bound fixed by the number of calls and the table size: the retry loop cannot spin for ever |
| InsertProgress.FairRunsFinish | kokkos/dep/Kokkos/containers/src/Kokkos_UnorderedMap.hpp:507-596 | If every call gets a turn in each round, all inserts have returned after a bounded number of rounds |
| InsertHints.FailsWithRoomLeft | kokkos/dep/Kokkos/containers/src/Kokkos_UnorderedMap.hpp:498-581 | Two concurrent inserts of different keys into one bucket, unbounded, with a free bit from beginning to end: for every such table there is a schedule in which one call fails and raises the failed flag |
| InsertRoom.RefusedMeansFull | kokkos/dep/Kokkos/containers/src/Kokkos_UnorderedMap.hpp:498-564 | Under every schedule of inserts of different keys, bounded or not, a call whose bucket no other call uses is refused only if every block it may search is full: all of them, or, bounded above 1024 slots, the 32 that follow each other from its start hint |
| InsertRoom.RefusedNeeds | kokkos/dep/Kokkos/containers/src/Kokkos_UnorderedMap.hpp:498-592 | Under every schedule of inserts of any keys: a call refused before it held a slot needs (other keys of its bucket + 1) times the blocks that ever filled up to reach the number of blocks, or of 32 if it is bounded and there are more; a call refused with a slot in hand has another key in its bucket and has seen the failed flag |
| InsertRoom.RoomForAll | kokkos/dep/Kokkos/containers/src/Kokkos_UnorderedMap.hpp:498-564 | With as many free bits as calls, a call that may search every block and whose bucket gets no other key is not refused; calls of one key may share the bucket |
| InsertRoom.RefusalBound | kokkos/dep/Kokkos/containers/src/Kokkos_UnorderedMap.hpp:498-564 | The same bound in numbers known before the calls: the blocks that the bits of the start and one bit for each other call can fill |
| InsertRoom.NoneRefused | kokkos/dep/Kokkos/containers/src/Kokkos_UnorderedMap.hpp:473-597 | If the failed flag is down and every call stays below that bound, no call of the phase is refused |
| InsertRoom.BoundedFailureBits | kokkos/dep/Kokkos/containers/src/Kokkos_UnorderedMap.hpp:500-564 | A bounded insert that fails alone on a capacity above 1024 finds at least 993 bits set, and 1024 where the capacity is a multiple of 32, as calculate_capacity makes it |
| InsertLosses.LosesAPair | kokkos/dep/Kokkos/containers/src/impl/Kokkos_UnorderedMap_impl.hpp:71-82 | From a new table of capacity 128 with 193 buckets, as the constructor makes it for 98 entries: 98 parallel inserts, all keys but two in buckets of their own; under some schedule one of those two fails and its pair is missing while 31 bits are free |
| InsertLosses.LeavesStaleSlot | kokkos/dep/Kokkos/containers/src/Kokkos_UnorderedMap.hpp:562-592 | Three more calls for one bucket end with all calls returned and a leaked slot that holds another value than the entry of its key |
| InsertHints.WalkPastNewSlot | kokkos/dep/Kokkos/containers/src/Kokkos_UnorderedMap.hpp:523-531 | A walk over a slot that was appended meanwhile puts the search hint back to that slot |
| InsertHints.MissTurn | kokkos/dep/Kokkos/containers/src/Kokkos_UnorderedMap.hpp:554-564 | A miss in a full block, with the bit of the next hint set, costs one attempt and moves the hint on by one block |
| MapMemory.ChainsUnique | kokkos/dep/Kokkos/containers/src/Kokkos_UnorderedMap.hpp:512-531 | The memory determines its chains: two descriptions of one memory are equal |
| MapMemory.KeysDistinct | kokkos/dep/Kokkos/containers/src/Kokkos_UnorderedMap.hpp:85-145 | Two chained slots never hold the same key |
| MapMemory.ContentsSize | kokkos/dep/Kokkos/containers/src/Kokkos_UnorderedMap.hpp:399-406 | There are as many dictionary entries as chained slots |
| MapMemory.AppendKeepsWellChained | kokkos/dep/Kokkos/containers/src/Kokkos_UnorderedMap.hpp:582-592 | Appending an unchained slot whose key is absent keeps the table well chained |
| MapMemory.AppendContents | kokkos/dep/Kokkos/containers/src/Kokkos_UnorderedMap.hpp:582-592 | Appending adds exactly that slot's key with its index and value to the dictionary |
| TableModel.CapacityCovers | kokkos/dep/Kokkos/containers/src/Kokkos_UnorderedMap.hpp:795-802 | calculate_capacity is at least its argument if and only if 7*hint/6 + 127 stays below 2^32, and then it is the multiple of 128 next above 7*hint/6; it is zero only for the arguments whose rounding wraps to zero |
| TableModel.FirstLargeEnough | kokkos/dep/Kokkos/containers/src/impl/Kokkos_UnorderedMap_impl.cpp:50-103 | find_hash_size gives the first listed prime that reaches the size |
| TableModel.LastPrimeOtherwise | kokkos/dep/Kokkos/containers/src/impl/Kokkos_UnorderedMap_impl.cpp:50-103 | It gives the last one when none reaches it |
| TableModel.FirstHintIs | kokkos/dep/Kokkos/containers/src/Kokkos_UnorderedMap.hpp:494-496 | The first search hint is h exactly when the bucket times the capacity lies between h and h + 1 times the number of buckets |
| TableModel.FullWindowIsFullSet | kokkos/dep/Kokkos/containers/src/Kokkos_UnorderedMap.hpp:498-505 | max_hint() misses in a row, from any start and in either direction, mean that every bit is set |
| TableModel.InsertMeaning | kokkos/dep/Kokkos/containers/src/Kokkos_UnorderedMap.hpp:473-597 | insert on entries: EXISTING exactly for a present key, with its index and no change; a failure changes no entry; a success adds exactly the new pair at an unused slot; strays stay; unbounded, it fails if and only if the key is new and entries and strays fill the capacity |
| TableModel.BoundedInsertFails | kokkos/dep/Kokkos/containers/src/Kokkos_UnorderedMap.hpp:498-564 | A bounded insert alone: on a capacity of at most 1024 it fails exactly for a new key in a table without a free slot; above that exactly for a new key when the 32 consecutive blocks, around the end, from the block of its start hint are full |
| TableModel.InsertPlaces | kokkos/dep/Kokkos/containers/src/Kokkos_UnorderedMap.hpp:507-596 | A new pair goes to the first block with a free slot, in the direction of the bucket number, of the at most 32 or all blocks searched: to the bit named by the hint if a miss led there and it is free, else to the free bit that the scan reaches first; the reported position is the place in the chain, up to 2^29 - 1 |
| TableModel.UnboundedRoom | kokkos/dep/Kokkos/containers/src/Kokkos_UnorderedMap.hpp:500-505 | Without the bound, there is no room for a key exactly when every bit is set |
| TableModel.LiveSize | kokkos/dep/Kokkos/containers/src/Kokkos_UnorderedMap.hpp:399-406 | The bit count is the number of entries plus the strays |
| TableModel.FullTable | kokkos/dep/Kokkos/containers/src/Kokkos_UnorderedMap.hpp:441-446 | All bits are set exactly when there are as many entries and strays as slots |
| TableModel.UnlinkKeepsLive | kokkos/dep/Kokkos/containers/src/impl/Kokkos_UnorderedMap_impl.hpp:102-138 | Unlinking a slot whose bit is clear drops no entry and keeps the table well formed |
| TableModel.ClearBitRemoves | kokkos/dep/Kokkos/containers/src/Kokkos_UnorderedMap.hpp:599-616 | Clearing the bit of a present key removes that key alone |
| ErasePhase.UnlinkContents | kokkos/dep/Kokkos/containers/src/impl/Kokkos_UnorderedMap_impl.hpp:102-138 | Taking a slot out of its chain removes exactly its key from the dictionary |
| UnorderedMap.Table.constructor | kokkos/dep/Kokkos/containers/src/Kokkos_UnorderedMap.hpp:300-324 | A new table is valid, bounded and empty, with the capacity calculate_capacity gives and the buckets find_hash_size gives for that |
| UnorderedMap.Table.Find | kokkos/dep/Kokkos/containers/src/Kokkos_UnorderedMap.hpp:618-639 | Returns the slot the dictionary has for the key, or the invalid index exactly when the key was never appended |
| UnorderedMap.Table.Exists | kokkos/dep/Kokkos/containers/src/Kokkos_UnorderedMap.hpp:641-646 | True exactly for the keys that are entries, also inside an erase phase |
| UnorderedMap.Table.Walk | kokkos/dep/Kokkos/containers/src/Kokkos_UnorderedMap.hpp:523-531 | The inner loop stops at the key or at the end of its chain, with the tail pointer, hint and position that belong there |
| UnorderedMap.Table.Insert | kokkos/dep/Kokkos/containers/src/Kokkos_UnorderedMap.hpp:473-597 | The whole new memory: unchanged inside an erase phase; otherwise the outcome that InsertMeaning, InsertPlaces and, for bounded tables, BoundedInsertFails read off; strays stay and the cached size stays exact |
| UnorderedMap.Table.Size | kokkos/dep/Kokkos/containers/src/Kokkos_UnorderedMap.hpp:399-406 | Returns the number of entries plus strays whenever the cached size is exact, which every operation but clear() keeps; lowers the flag and changes nothing else |
| UnorderedMap.Table.Clear | kokkos/dep/Kokkos/containers/src/Kokkos_UnorderedMap.hpp:331-349 | Empties the table, strays included, and lowers the flags; the cached size stays, so it is exact afterwards if and only if it was zero |
| UnorderedMap.Table.SizeAfterClear | kokkos/dep/Kokkos/containers/src/Kokkos_UnorderedMap.hpp:331-406 | size() right after clear() is right if and only if the cached size was already zero |
| UnorderedMap.Table.BeginErase | kokkos/dep/Kokkos/containers/src/Kokkos_UnorderedMap.hpp:419-427 | Raises the erasable flag once and changes no entry |
| UnorderedMap.Table.Erase | kokkos/dep/Kokkos/containers/src/Kokkos_UnorderedMap.hpp:599-616 | Outside an erase phase nothing happens; inside, the key and only the key is removed, and the result says whether it was there |
| UnorderedMap.Table.EraseBucket | kokkos/dep/Kokkos/containers/src/impl/Kokkos_UnorderedMap_impl.hpp:102-138 | One bucket of end_erase: afterwards its chain holds no erased slot, other chains are untouched, no entry is lost |
| UnorderedMap.Table.EndErase | kokkos/dep/Kokkos/containers/src/Kokkos_UnorderedMap.hpp:429-439 | For every order of the buckets: ends the phase with the same entries, every chained slot with its bit set again |
| UnorderedMap.Table.FillFrom | kokkos/dep/Kokkos/containers/src/impl/Kokkos_UnorderedMap_impl.hpp:79-82 | Inserting the pair of every set bit, in any order, leaves exactly those pairs, the first one visited for each key |
| UnorderedMap.Table.Rehash | kokkos/dep/Kokkos/containers/src/Kokkos_UnorderedMap.hpp:371-390 | The new table holds the first visited pair of each key with a set bit, hence every entry with its value when the strays agree; its capacity is calculate_capacity of the request or of the size, whichever is larger, and its cached size is exact, for every order of the copies, when the capacity arithmetic does not overflow |
| RehashModel.EntriesKeptIff | kokkos/dep/Kokkos/containers/src/impl/Kokkos_UnorderedMap_impl.hpp:71-82 | The pairs that rehash copies are the entries for every order of the slots if and only if every stray holds a live key with its live value |
| RehashModel.CleanPhaseKeepsEntries | kokkos/dep/Kokkos/containers/src/Kokkos_UnorderedMap.hpp:360-390 | After an insert phase without failure on a table without strays, under any schedule, rehash keeps the entries in any order |
| RehashModel.ParallelCopy | kokkos/dep/Kokkos/containers/src/impl/Kokkos_UnorderedMap_impl.hpp:71-82 | The copies in parallel: when the new table has room for them, by RoomForAll or NoneRefused, every schedule ends with exactly their keys, each with the value of one of its copies |
| RehashModel.ParallelRehash | kokkos/dep/Kokkos/containers/src/Kokkos_UnorderedMap.hpp:371-390 | rehash with parallel copies keeps the entries under every schedule, when the strays of the source repeat entries and the new table has that room |
| Bitset.RotateRightAt | kokkos/dep/Kokkos/containers/src/impl/Kokkos_Bitset_impl.hpp:66-76 | Rotation only renames bit positions |
| Bitset.ScanBlockFinds | kokkos/dep/Kokkos/containers/src/Kokkos_Bitset.hpp:257-270 | The scan of a nonzero word returns one of its set bits, the nearest in scan order from the offset, forward or in reverse |
| Bitset.ScanOrder | kokkos/dep/Kokkos/containers/src/Kokkos_Bitset.hpp:257-270 | That order in numbers: up from the offset, or down from two below it |
| Bitset.FindAnyUnsetNearOutcome | kokkos/dep/Kokkos/containers/src/Kokkos_Bitset.hpp:223-235 | For every hint in range and every direction: a hit is below the size, in the hinted block, clear in the word read and nearest in scan order; a miss means the block had none, and the new hint keeps the offset and moves one block |
| Bitset.FindAnySetNearOutcome | kokkos/dep/Kokkos/containers/src/Kokkos_Bitset.hpp:204-217 | The same for set bits, with the clamp of a hint beyond the last block |
| Bitset.MissesCoverEveryBlock | kokkos/dep/Kokkos/containers/src/Kokkos_Bitset.hpp:272-281 | max_hint() misses that follow the returned hints search every block exactly once |
| Bitset.CountIsCardinality | kokkos/dep/Kokkos/containers/src/impl/Kokkos_Bitset_impl.hpp:78-109 | The count over blocks is the number of set bits |
| Bitset.BitSet.constructor | kokkos/dep/Kokkos/containers/src/Kokkos_Bitset.hpp:97-104 | No bit is set, and the unused bits of the last block are clear |
| Bitset.BitSet.Set | kokkos/dep/Kokkos/containers/src/Kokkos_Bitset.hpp:156-167 | Changes that one bit and reports whether it did; out of range it does nothing |
| Bitset.BitSet.Reset | kokkos/dep/Kokkos/containers/src/Kokkos_Bitset.hpp:169-180 | Clears that one bit and reports whether it was set |
| Bitset.BitSet.FindUnsetNear | kokkos/dep/Kokkos/containers/src/Kokkos_Bitset.hpp:223-235 | The result of the search on the blocks as they are |
| Bitset.BitSet.FindSetNear | kokkos/dep/Kokkos/containers/src/Kokkos_Bitset.hpp:204-217 | The result of the search for set bits on the blocks as they are |
| Bitset.BitSet.SetAll | kokkos/dep/Kokkos/containers/src/Kokkos_Bitset.hpp:133-146 | Sets every bit below the size and no unused one |
| Bitset.BitSet.CountBits | kokkos/dep/Kokkos/containers/src/Kokkos_Bitset.hpp:126-131 | Returns the number of set bits |
| BitsetClaims.StepKeepsInv | kokkos/dep/Kokkos/containers/unit_tests/TestBitset.hpp:156-178 | Any step of any claiming thread keeps: the set bits are those on record with their holders, and the misses of each thread went through full blocks |
| BitsetClaims.NeverStuck | kokkos/dep/Kokkos/containers/unit_tests/TestBitset.hpp:156-178 | A thread that has not claimed a bit can always go on; none runs out of attempts |
| BitsetClaims.RunIsBounded | kokkos/dep/Kokkos/containers/unit_tests/TestBitset.hpp:156-178 | Every run is finite, with an explicit bound |
| BitsetClaims.AllClaimDistinctBits | kokkos/dep/Kokkos/containers/unit_tests/TestBitset.hpp:143-178 | size() threads or fewer on an empty bitset, under every interleaving, end with distinct set bits |
| BinSort.BinIs | kokkos/dep/Kokkos/algorithms/src/Kokkos_Sort.hpp:410-420 | For min <= key <= max the key is in bin b if and only if b * (max - min) <= bins * (key - min) < (b + 1) * (max - min) |
| BinSort.BinIsOdd | kokkos/dep/Kokkos/algorithms/src/Kokkos_Sort.hpp:419 | Truncation is towards zero: keys at equal distance below and above the minimum get opposite numbers |
| BinSort.ExtremeBins | kokkos/dep/Kokkos/algorithms/src/Kokkos_Sort.hpp:410-423 | The least key has bin 0 and the greatest the last of the bins + 1 |
| BinSort.BinIsMonotone | kokkos/dep/Kokkos/algorithms/src/Kokkos_Sort.hpp:395-430 | BinOp1D puts keys between the extremes into existing bins, and a larger key never into a smaller bin |
| BinOrder.TallyOrderFree | kokkos/dep/Kokkos/algorithms/src/Kokkos_Sort.hpp:343-347 | The size of a bin does not depend on the order of the increments |
| BinOrder.GroupedPermutes | kokkos/dep/Kokkos/algorithms/src/Kokkos_Sort.hpp:357-365 | Binning loses no row and invents none |
| BinOrder.LeftoverCounts | kokkos/dep/Kokkos/algorithms/src/Kokkos_Sort.hpp:239-262 | create_permute_vector does not zero the counts it starts from: its writes stay inside sort_order if and only if no bin before a bin that receives rows still held a count, and then every bin starts where the bins before it end |
| BinOrder.CalledAgain | kokkos/dep/Kokkos/algorithms/src/Kokkos_Sort.hpp:239-262 | A second call on the same keys stays in bounds if and only if all rows share one bin, although the comment allows calling again |
| BinOrder.PlaceOne | kokkos/dep/Kokkos/algorithms/src/Kokkos_Sort.hpp:357-365 | A row's ticket lies inside its own bin and nobody else's |
| BubbleBin.BubblePermutes | kokkos/dep/Kokkos/algorithms/src/Kokkos_Sort.hpp:367-390 | For every comparison result the in-bin sort permutes the rows of its bin |
| BubbleBin.BubbleSorts | kokkos/dep/Kokkos/algorithms/src/Kokkos_Sort.hpp:367-390 | For a strict weak order it leaves the bin ordered |
| BubbleBin.BubbleOfTies | kokkos/dep/Kokkos/algorithms/src/Kokkos_Sort.hpp:367-390 | Equal keys end in the reverse of the order they came in |
| BubbleBin.SortBin | kokkos/dep/Kokkos/algorithms/src/Kokkos_Sort.hpp:367-390 | The loops end for every comparison result, equal keys included, in at most as many passes as the bin has rows, compute that sort, and touch nothing outside the bin |
| BinSort.BinSort.CountRows | kokkos/dep/Kokkos/algorithms/src/Kokkos_Sort.hpp:343-347 | Adds the bin sizes to whatever the counts held |
| BinSort.BinSort.ScanCounts | kokkos/dep/Kokkos/algorithms/src/Kokkos_Sort.hpp:349-355 | Every offset is the sum of the counts before it |
| BinSort.BinSort.BinRows | kokkos/dep/Kokkos/algorithms/src/Kokkos_Sort.hpp:357-365 | For every order of the increments each bin holds its rows in that order, and the counts are the bin sizes again |
| BinSort.BinSort.CreatePermuteVector | kokkos/dep/Kokkos/algorithms/src/Kokkos_Sort.hpp:239-262 | For every order of every pass: counts, offsets and the permutation vector, under exactly the condition of LeftoverCounts |
| BinSort.VectorPermutes | kokkos/dep/Kokkos/algorithms/src/Kokkos_Sort.hpp:241-262 | The vector is a permutation of the range |
| BinSort.VectorBins | kokkos/dep/Kokkos/algorithms/src/Kokkos_Sort.hpp:330-340 | Bin b occupies bin_count(b) places from bin_offsets(b) on, all of them rows of bin b |
| BinSort.VectorSorts | kokkos/dep/Kokkos/algorithms/src/Kokkos_Sort.hpp:241-262 | Gathering the keys along the vector sorts them |
| BinSort.VectorBinsAscend | kokkos/dep/Kokkos/algorithms/src/Kokkos_Sort.hpp:241-262 | With or without the sort inside bins, the gathered keys have ascending bins |
| BinSort.VectorNearlySorts | kokkos/dep/Kokkos/algorithms/src/Kokkos_Sort.hpp:241-262 | With or without it, a gathered key is less than every later one plus the width of a bin, so keys a width apart come out in order |
| BinSort.BinSort.Sort | kokkos/dep/Kokkos/algorithms/src/Kokkos_Sort.hpp:266-323 | For a view of any type the rows read through the vector are stored from range_begin on, and nothing else changes; unequal lengths are the abort, and the copy back leaves the view exactly when it ends before range_end |
| BinSort.CopyBackRight | kokkos/dep/Kokkos/algorithms/src/Kokkos_Sort.hpp:312-320 | The copy back stays inside the view and hits the values range, for every view, if and only if both ranges start together or are empty |
| BinSort.WholeViewFits | kokkos/dep/Kokkos/algorithms/src/Kokkos_Sort.hpp:325-328 | sort(values) on a view of as many rows as the range stays inside it if and only if the range starts at zero or is empty |
| BinSort.FindExtent | kokkos/dep/Kokkos/algorithms/src/Kokkos_Sort.hpp:504-517 | The least and the greatest key of the range, both from it, or the reduction's identity for an empty one |
| BinSort.SortRange | kokkos/dep/Kokkos/algorithms/src/Kokkos_Sort.hpp:541-560 | Kokkos::sort(view, begin, end) leaves the range a non-decreasing permutation of its old contents and everything outside unchanged, for every begin <= end, keys and order of the parallel passes |
| Stencil.Images.constructor | kokkos/parallel/gauss_seidel/parallel_gauss_seidel.cpp:61-142 | Both views have a zero border and the input holds the image inside it |
| Stencil.Images.ColourPass | kokkos/parallel/gauss_seidel/parallel_gauss_seidel.cpp:156-165 | For every order of the bodies a pass gives each cell of its colour a fifth of the five rounded down and leaves the others alone |
| Stencil.Images.RedBlackSweep | kokkos/parallel/gauss_seidel/parallel_gauss_seidel.cpp:155-178 | Red pass then black pass is one Jacobi sweep of the input, and the border stays black |
| Stencil.Images.RedBlackRun | kokkos/parallel/gauss_seidel/parallel_gauss_seidel.cpp:155-182 | After n iterations both images are the n-th iterate of the start, for every image size, n and order |
| Jacobi.IterateKeepsPadding | kokkos/parallel/gauss_seidel/parallel_gauss_seidel.cpp:155-182 | The border of every iterate is zero |
| Jacobi.IterateKeepsMaximum | kokkos/parallel/gauss_seidel/parallel_gauss_seidel.cpp:155-182 | No pixel of any iterate exceeds the initial maximum, so a byte never overflows |
| Jacobi.SweepDescends | kokkos/parallel/gauss_seidel/parallel_gauss_seidel.cpp:149-182 | A sweep of a nonzero image lowers the pixel sum, or keeps it and moves the topmost nonzero row up |
| Jacobi.FadesToBlack | kokkos/parallel/gauss_seidel/parallel_gauss_seidel.cpp:149-182 | Every image is black after at most sum * (rows + 1) + top sweeps, and stays so |
| Jacobi.SweepOfImpulse | kokkos/parallel/gauss_seidel/parallel_gauss_seidel.cpp:155-178 | The sweep of an image whose only nonzero pixel is v at an interior cell holds v / 5 there and at its interior neighbours, and 0 elsewhere |
| Jacobi.SweepKeepsLevel | kokkos/parallel/gauss_seidel/parallel_gauss_seidel.cpp:159-163 | An interior cell whose four neighbours hold its own value keeps it |
| Jacobi.SweepAdds | kokkos/parallel/gauss_seidel/parallel_gauss_seidel.cpp:155-178 | The sweep of a sum is the sum of the sweeps when one image holds multiples of five |
| Jacobi.SweepMirrorsColumns | kokkos/parallel/gauss_seidel/parallel_gauss_seidel.cpp:155-178 | The sweep of the image with its columns mirrored is the mirrored sweep |
| Jacobi.SweepMirrorsRows | kokkos/parallel/gauss_seidel/parallel_gauss_seidel.cpp:155-178 | The same for the rows |
| Jacobi.SweepTransposes | kokkos/parallel/gauss_seidel/parallel_wave_gauss_seidel.cpp:159-171 | The sweep of the transposed image is the transposed sweep |
| Stencil.Images.DiagonalPass | kokkos/parallel/gauss_seidel/parallel_wave_gauss_seidel.cpp:159-171 | Diagonal k gives exactly its cells, in all three channels, their fifth, in any order |
| Stencil.Images.WaveSweep | kokkos/parallel/gauss_seidel/parallel_wave_gauss_seidel.cpp:159-171 | The diagonals 1 .. 2n-1 together are one Jacobi sweep |
| Stencil.Images.WaveRun | kokkos/parallel/gauss_seidel/parallel_wave_gauss_seidel.cpp:157-174 | After t iterations both images are the t-th iterate of the start, hence the same as red/black gives |
| Stencil.VisitedOnce | kokkos/parallel/gauss_seidel/parallel_wave_gauss_seidel.cpp:152-165 | Every interior cell is visited by one body of one diagonal and no other |
| Stencil.VisitsInterior | kokkos/parallel/gauss_seidel/parallel_wave_gauss_seidel.cpp:163-166 | No body leaves the interior |
| Stencil.DiagonalIndependent | kokkos/parallel/gauss_seidel/parallel_wave_gauss_seidel.cpp:159-171 | No two cells of a diagonal are five-point neighbours |
| DualView.StepCoherent | kokkos/dep/Kokkos/containers/src/Kokkos_DualView.hpp:559-936 | Every disciplined operation keeps: equal counters are zero and both copies agree; the latest copy is what the same operation makes of one array |
| DualView.RunCoherent | kokkos/dep/Kokkos/containers/src/Kokkos_DualView.hpp:559-1025 | The same over every run of disciplined writes, modify, sync, resize, realloc and deep_copy, short enough for the counters; in every reachable state the templated and the named sync decide alike |
| DualView.SyncBringsLatest | kokkos/dep/Kokkos/containers/src/Kokkos_DualView.hpp:559-717 | On a coherent state, a sync of either side and of either kind leaves that side holding the latest copy and needing no sync; if it was behind, both counters become zero, and otherwise nothing changes |
| DualView.RunSynced | kokkos/dep/Kokkos/containers/src/Kokkos_DualView.hpp:559-1025 | Right after a sync of a side at the end of any disciplined run, that side holds what the same run makes of one array |
| DualView.SyncsAgree | kokkos/dep/Kokkos/containers/src/Kokkos_DualView.hpp:559-753 | sync<Device> does what sync_host and sync_device do if and only if the counters are not equal and nonzero, which no coherent state is |
| DualView.ModifyMarks | kokkos/dep/Kokkos/containers/src/Kokkos_DualView.hpp:780-853 | modify makes its side the latest if and only if the larger counter has not reached the end of 32 bits |
| DualView.ModifyKeepsCurrent | kokkos/dep/Kokkos/containers/src/Kokkos_DualView.hpp:814-853 | Marking a side loses nothing if and only if that side is not behind, or does not differ |
| DualView.View.SyncHost | kokkos/dep/Kokkos/containers/src/Kokkos_DualView.hpp:667-690 | The arrays and counters are those of the specification |
| DualView.View.SyncOf | kokkos/dep/Kokkos/containers/src/Kokkos_DualView.hpp:559-607 | The same for sync<Device> of either side |
| DualView.View.Modify | kokkos/dep/Kokkos/containers/src/Kokkos_DualView.hpp:780-853 | The same for modify of either side |
| DualView.View.Resize | kokkos/dep/Kokkos/containers/src/Kokkos_DualView.hpp:892-936 | The same for resize: the current copy keeps its common prefix, the other is new |
| DualView.View.Realloc | kokkos/dep/Kokkos/containers/src/Kokkos_DualView.hpp:870-887 | The same for realloc: contents and counters start afresh |
| DualView.View.CopyFrom | kokkos/dep/Kokkos/containers/src/Kokkos_DualView.hpp:1013-1025 | The same for deep_copy, which is refused for unequal extents |
| Vector.PushBackMeaning | kokkos/dep/Kokkos/containers/src/Kokkos_Vector.hpp:134-145 | With counters, push_back appends, across reallocation and whichever copy is current |
| Vector.UntrackedPushBack | kokkos/dep/Kokkos/containers/src/Kokkos_Vector.hpp:90-145 | On a default-constructed vector two push_backs keep both elements if and only if the first equals the default value |
| Vector.AssignMeaning | kokkos/dep/Kokkos/containers/src/Kokkos_Vector.hpp:111-130 | assign leaves n copies of the value, written where the current copy is |
| Vector.InsertMeaning | kokkos/dep/Kokkos/containers/src/Kokkos_Vector.hpp:151-177 | insert(it, count, value) puts the copies between the elements before and from the iterator |
| Vector.InsertRangeMeaning | kokkos/dep/Kokkos/containers/src/Kokkos_Vector.hpp:185-213 | insert(it, b, e), with counters and where its move stays inside the allocation, puts the range between the elements before and from the iterator |
| Vector.RangeMoveFitsIff | kokkos/dep/Kokkos/containers/src/Kokkos_Vector.hpp:197-209 | That move stays inside if and only if the vector has elements, the range is empty, or the span holds the range twice, or, when the vector must grow, the factor is at least two |
| Vector.DefaultRangeOverruns | kokkos/dep/Kokkos/containers/src/Kokkos_Vector.hpp:90-209 | With a factor below two every nonempty range overruns a default-constructed vector |
| Vector.RangeIntoCleared | kokkos/dep/Kokkos/containers/src/Kokkos_Vector.hpp:95-209 | vector(1, x), clear() and the insertion of ten elements: 11 places, and the move leaves them |
| Vector.ResizeKeepsPrefix | kokkos/dep/Kokkos/containers/src/Kokkos_Vector.hpp:104-107 | resize(n) keeps the common prefix and the size within span |
| Vector.ReserveMeaning | kokkos/dep/Kokkos/containers/src/Kokkos_Vector.hpp:132 | reserve keeps the elements if and only if it asks for room for them; asked for less, it leaves size above span |
| Vector.GrownCovers | kokkos/dep/Kokkos/containers/src/Kokkos_Vector.hpp:312 | The overallocation factor reserves enough for every size if and only if it is at least one |
| Vector.RunRefines | kokkos/dep/Kokkos/containers/src/Kokkos_Vector.hpp:95-213 | Every run of push_back, pop_back, clear, assign, resize, reserve and both inserts, with range inserts into an empty vector under the condition of RangeMoveFitsIff, refines the same run on a sequence |
| Vector.RunStaysValid | kokkos/dep/Kokkos/containers/src/Kokkos_Vector.hpp:95-213 | In every state of such a run the size is at most span and every move has stayed inside |
| Vector.Vector.PushBack | kokkos/dep/Kokkos/containers/src/Kokkos_Vector.hpp:134-145 | The fields become those of the specification |
| Vector.Vector.Insert | kokkos/dep/Kokkos/containers/src/Kokkos_Vector.hpp:155-177 | The same, and the abort exactly for an iterator outside begin() .. end() |
| Vector.Vector.InsertRange | kokkos/dep/Kokkos/containers/src/Kokkos_Vector.hpp:188-213 | The same; nothing happens for an empty range, an iterator outside aborts, and the overrun happens exactly where the move does not fit |
| Vector.Find | kokkos/dep/Kokkos/containers/src/Kokkos_Vector.hpp:280-302 | On sorted elements: the first position of the value, or end() exactly when it is absent |
| Vector.LowerBound | kokkos/dep/Kokkos/containers/src/Kokkos_Vector.hpp:243-270 | On sorted elements, for every start and end: the lower bound of a range if and only if the range stops before the last element, is empty at the end, or that element decides the search; an end beyond the elements is clamped, except that an empty range returns it |
| ScatterOps.OperationsGather | kokkos/dep/Kokkos/containers/src/Kokkos_ScatterView.hpp:229-490 | Sum, product, minimum and maximum on exact values allow swapping and gathering updates, and a reset cell changes nothing |
| ScatterOps.ContributionWorth | kokkos/dep/Kokkos/containers/src/Kokkos_ScatterView.hpp:229-680 | After a contribution a cell holds its old value and all updates of that cell added, multiplied, or the least or the greatest of them: a value that occurs and bounds the rest |
| ScatterView.ContributeIsDirect | kokkos/dep/Kokkos/containers/src/Kokkos_ScatterView.hpp:667-680 | Any distribution of updates over the copies followed by a contribution equals the updates applied directly |
| ScatterView.ContributeIntoCopyZero | kokkos/dep/Kokkos/containers/src/Kokkos_ScatterView.hpp:1057-1073 | The same when the destination is copy 0 itself, with its contents |
| ScatterView.ReducedIdentity | kokkos/dep/Kokkos/containers/src/Kokkos_ScatterView.hpp:1083-1098 | Reset copies contribute nothing, so a second contribution after reset_except changes nothing |
| ScatterView.ScatterView.Update | kokkos/dep/Kokkos/containers/src/Kokkos_ScatterView.hpp:255-267 | An update changes one cell of the caller's copy and no other |
| ScatterView.ScatterView.ContributeInto | kokkos/dep/Kokkos/containers/src/Kokkos_ScatterView.hpp:1057-1073 | The destination becomes the reduction of the copies that are read, which leave out copy 0 when that is the destination; those copies are unchanged |
| ScatterView.ScatterView.ResetExcept | kokkos/dep/Kokkos/containers/src/Kokkos_ScatterView.hpp:1083-1098 | All copies are reset, except copy 0 when that is the view |
| Random.NextIsBijective | kokkos/dep/Kokkos/algorithms/src/Kokkos_Random.hpp:733-736 | The state step is a bijection on words |
| Random.NextIsLinear | kokkos/dep/Kokkos/algorithms/src/Kokkos_Random.hpp:733-736 | The step of the exclusive or of two words is the exclusive or of their steps |
| Random.NextOfSingle | kokkos/dep/Kokkos/algorithms/src/Kokkos_Random.hpp:733-736 | The exact bits of the step of the word with the single bit i, for every i |
| Random.FirstOutputs | kokkos/dep/Kokkos/algorithms/src/Kokkos_Random.hpp:733-749 | State 1 steps to 0x2000001, and the numbers drawn there are 3461056876 and 5180492295206395164 |
| Random.SeededMeaning | kokkos/dep/Kokkos/algorithms/src/Kokkos_Random.hpp:728-730 | A generator starts at the given state, and at 1318319 for zero |
| Random.NextKeepsNonzero | kokkos/dep/Kokkos/algorithms/src/Kokkos_Random.hpp:733-736 | Only zero steps to zero |
| Random.OutputsDiffer | kokkos/dep/Kokkos/algorithms/src/Kokkos_Random.hpp:744-749 | urand64 gives different numbers for different states and the largest 64-bit number for none but zero |
| Random.AcceptedDraws | kokkos/dep/Kokkos/algorithms/src/Kokkos_Random.hpp:752-757 | Each result below the range comes from exactly MAX_URAND / range of the accepted draws |
| Random.MaxValIsLargest | kokkos/dep/Kokkos/algorithms/src/Kokkos_Random.hpp:751-755 | The limit below which a draw is accepted is the largest multiple of the range that 32 bits hold |
| Random.Generator.Urand | kokkos/dep/Kokkos/algorithms/src/Kokkos_Random.hpp:733-741 | Advances the state by one step and returns 32 of its scrambled bits, a number that StatesPerNumber shows to be balanced |
| Random.StatesPerNumber | kokkos/dep/Kokkos/algorithms/src/Kokkos_Random.hpp:733-741 | Each 32-bit number is the output of exactly one state for each choice of the 16 scrambled bits above and the 16 below it |
| Random.Generator.UrandBelow | kokkos/dep/Kokkos/algorithms/src/Kokkos_Random.hpp:752-757 | Ends at the first accepted draw, wherever that is, and returns it modulo the range, so a number below it |
| Random.StepKeepsInv | kokkos/dep/Kokkos/algorithms/src/Kokkos_Random.hpp:673-686 | Any step of any thread keeps: a lock is taken exactly while one thread owns the slot, live generators are nonzero, every slot's stream has advanced by its draws |
| Random.LiveGenerators | kokkos/dep/Kokkos/algorithms/src/Kokkos_Random.hpp:920-936 | In every run no two live generators share a slot, none holds zero, and each continues its slot's stream unbroken across free_state and the next get_state |
| Random.ProbesInsideIff | kokkos/dep/Kokkos/algorithms/src/Kokkos_Random.hpp:619-640 | On Cuda and HIP the index of the lock loop stays inside the lock array for every number of rounds if and only if there are more locks than the number of the thread in its block |
| Random.BlockProbesInsideIff | kokkos/dep/Kokkos/algorithms/src/Kokkos_Random.hpp:619-640 | For all threads of all blocks: if and only if there are at least as many locks as threads in a block |
| Random.RoundsAreSteps | kokkos/dep/Kokkos/algorithms/src/Kokkos_Random.hpp:619-640 | Under exactly that condition every round is a step of the pool |
| Random.Generator.Urand64 | kokkos/dep/Kokkos/algorithms/src/Kokkos_Random.hpp:744-749 | Advances the state by one step and returns the scrambled state less one |
| DynamicView.ChunkSizeIsLeast | kokkos/dep/Kokkos/core/src/impl/Kokkos_BitOps.hpp:149-153 | The chunk size is the least power of two that reaches the minimum |
| DynamicView.ChunkTableCovers | kokkos/dep/Kokkos/containers/src/Kokkos_DynamicView.hpp:434-441 | The chunk table reaches the maximum extent if and only if the 32-bit sum does not wrap around |
| DynamicView.PlacesDistinct | kokkos/dep/Kokkos/containers/src/Kokkos_DynamicView.hpp:250-277 | Two indices share a place only if they are equal |
| DynamicView.PlaceInBounds | kokkos/dep/Kokkos/containers/src/Kokkos_DynamicView.hpp:250-277 | Every index below the extent lies in an allocated chunk |
| DynamicView.LastChunkNeeded | kokkos/dep/Kokkos/containers/src/Kokkos_DynamicView.hpp:298-300 | No chunk is allocated that the extent does not need |
| DynamicView.DynamicView.constructor | kokkos/dep/Kokkos/containers/src/Kokkos_DynamicView.hpp:427-466 | The view starts empty with the table and chunk size of the arithmetic above |
| DynamicView.DynamicView.Access | kokkos/dep/Kokkos/containers/src/Kokkos_DynamicView.hpp:243-278 | Returns the element exactly for allocated chunks, and the right one below the extent; otherwise aborts, except that without bounds checking an index past the table is not caught |
| DynamicView.DynamicView.Store | kokkos/dep/Kokkos/containers/src/Kokkos_DynamicView.hpp:243-278 | Writes that element and no other |
| DynamicView.AskedIsNeeded | kokkos/dep/Kokkos/containers/src/Kokkos_DynamicView.hpp:298-300 | The 32- or 64-bit sum asks for the chunks the extent needs if and only if it does not wrap; wrapped, it asks for none |
| DynamicView.LargestExtent | kokkos/dep/Kokkos/containers/src/Kokkos_DynamicView.hpp:298-304 | The 32-bit extent 2^32 - 1 asks for no chunk, so it is not refused |
| DynamicView.TableNeverWraps | kokkos/dep/Kokkos/containers/src/Kokkos_DynamicView.hpp:298-304 | No extent that the chunk table could hold makes the sum wrap |
| DynamicView.DynamicView.ResizeSerial | kokkos/dep/Kokkos/containers/src/Kokkos_DynamicView.hpp:294-328 | Unless the sum wraps: aborts exactly beyond the table, allocates exactly the chunks the new extent needs and keeps the elements below both extents. When it wraps: frees every chunk and records the extent |

## Left out

- UnorderedMap as a set (`Value = void`), const maps, tables of capacity zero, the histogram and printing.
- Hash table primes: find_hash_size takes its list of primes as an argument, any nonempty list of positive numbers.
- The insert hint is computed in exact arithmetic where the source goes through a double.
- UnorderedMap.Table.constructor: capacity hints whose rounded capacity wraps to zero are excluded; CapacityCovers says which they are.
- UnorderedMap.Table.FillFrom: the class makes the copies one at a time, in any order; in parallel they are runs of InsertProtocol (RehashModel.ParallelRehash, InsertLosses.LosesAPair).
- UnorderedMap.Table.Rehash: as for FillFrom. Shallow copies of a map share their arrays in the source; here only the map that is rehashed is described afterwards.
- UnorderedMap.Table.EndErase: the buckets are finished one after the other, in any order; steps of different buckets do not interleave.
- BitsetClaims: the clearing half of the claim loop (find_any_set_near and reset), which mirrors the setting half.
- Concurrent erase, and insert or erase running beside the host's flag changes.
- Memory orders weaker than sequential consistency, prefetch hints, profiling callbacks, allocation tracking.
- BinOp3D, whose comparison orders keys downward inside upward bins, and views of rank above one: a row is one element of any type.
- The rounding of bin numbers in doubles, and NaN keys.
- Kokkos::sort(view): its std::sort shortcut, and its other branch, which does the steps of SortRange over the whole view.
- The parallel scan is its sequential meaning; how a backend splits it is not modelled.
- Reading, padding and writing images with OpenCV, the noise, and the flat pixel buffer: the constructor takes the image as a function of row, column and channel.
- The side `n` is undeclared in the wavefront file; here it is the side of a square interior.
- `* 0.2` stored in a byte is the quotient by 5.
- BinSort.BinSort.Sort: says that the copy back leaves the view, not what the view then holds.
- DualView on one memory space, const data types, clear_sync_state, and DualView copies that share counters.
- DualView.RunCoherent: runs whose length could wrap a counter are excluded; ModifyMarks says what happens there.
- Vector.RunRefines: runs of vectors with counters that stop before a range insert would leave the allocation; RangeMoveFitsIff says when that is, UntrackedPushBack and DefaultRangeOverruns what vectors without counters do.
- vector insert of a reference into its own storage, and sizes beyond the int arithmetic of find and lower_bound.
- The overallocation factor is a real, where the source has a float.
- ScatterView.ScatterView.ContributeInto: LayoutRight duplicated views only; the loop is the same for LayoutLeft. Non-duplicated views and the atomic product, minimum and maximum loops are not modelled.
- Random.Generator.UrandBelow: asks for a stream that has an accepted number; without one the loop of the source does not end. That every nonzero state has one is not proved.
- Random: the first index of the lock loop on OpenMPTarget, which is not reduced by the number of locks; seeding of the pool (any initial states are allowed), XorShift1024, floating-point draws, and host spaces, which use the thread number without locks.
- DynamicView: concurrent access while a chunk is being allocated; contents of new chunks are arbitrary; resize_serial with a negative argument.
- DynamicView.DynamicView.constructor: a minimum chunk size below 2 or above 2^30 makes the source shift by an undefined amount and is excluded.
- StaticCrsGraph, DynRankView, OffsetView and ErrorReporter: not part of this model.
