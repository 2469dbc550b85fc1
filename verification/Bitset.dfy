/** The 32-bit blocks of Kokkos::Bitset and the searches made on one block.

    A machine word is the sequence of its bits, bit i at index i. Every function below reads one word,
    as one volatile load of the original does, so the same functions serve the sequential class at the
    end of this file and the concurrent protocols of the other files. */
module Bitset {

  const BLOCK: nat := 32

  type Word = w: seq<bool> | |w| == BLOCK witness seq(BLOCK, _ => false)

  const ZERO_WORD: Word := seq(BLOCK, _ => false)

  /* ---------- Word operations ---------- */

  function ShiftRight(w: Word, r: nat): Word {
    seq(BLOCK, k requires 0 <= k < BLOCK => k + r < BLOCK && w[k + r])
  }

  function ShiftLeft(w: Word, r: nat): Word {
    seq(BLOCK, k requires 0 <= k < BLOCK => r <= k && w[k - r])
  }

  function Or(v: Word, w: Word): Word {
    seq(BLOCK, k requires 0 <= k < BLOCK => v[k] || w[k])
  }

  function And(v: Word, w: Word): Word {
    seq(BLOCK, k requires 0 <= k < BLOCK => v[k] && w[k])
  }

  function Not(w: Word): Word {
    seq(BLOCK, k requires 0 <= k < BLOCK => !w[k])
  }

  function RotateRight(w: Word, r: nat): Word
    requires r < BLOCK
  {
    if r != 0 then Or(ShiftRight(w, r), ShiftLeft(w, BLOCK - r)) else w
  }

  // Rotation only renames bit positions.
  lemma RotateRightAt(w: Word, r: nat, k: nat)
    requires r < BLOCK && k < BLOCK
    ensures RotateRight(w, r)[k] == w[Masked(k + r)]
  {
  }

  ghost predicate IsZero(w: Word) {
    forall k :: 0 <= k < BLOCK ==> !w[k]
  }

  // The loop of the portable bit_scan_forward: lowest set bit at or after `from`, or -1.
  function ScanUp(w: Word, from: nat): (r: int)
    requires from <= BLOCK
    ensures r == -1 || (from <= r < BLOCK && w[r])
    ensures forall k :: from <= k < (if r == -1 then BLOCK else r) ==> !w[k]
    decreases BLOCK - from
  {
    if from == BLOCK then -1 else if w[from] then from else ScanUp(w, from + 1)
  }

  function BitScanForward(w: Word): int {
    ScanUp(w, 0)
  }

  // The loop of the portable log2: highest set bit at or below `from`, or 0.
  function ScanDown(w: Word, from: nat): (r: nat)
    requires from < BLOCK
    ensures r <= from
    ensures w[r] || forall k :: 0 <= k <= from ==> !w[k]
    ensures forall k :: r < k <= from ==> !w[k]
  {
    if w[from] || from == 0 then from else ScanDown(w, from - 1)
  }

  function Log2(w: Word): nat {
    ScanDown(w, BLOCK - 1)
  }

  /* ---------- Layout ---------- */

  function BlockCount(size: nat): nat {
    (size + (BLOCK - 1)) / BLOCK
  }

  // m_last_block_mask: zero when the size fills its last block.
  function LastBlockMask(size: nat): Word {
    seq(BLOCK, k requires 0 <= k < BLOCK => k < size % BLOCK)
  }

  predicate HasLastBlockMask(size: nat) {
    size % BLOCK != 0
  }

  predicate Fits(size: nat, blocks: seq<Word>) {
    |blocks| == BlockCount(size)
  }

  predicate Bit(blocks: seq<Word>, i: nat)
    requires i < BLOCK * |blocks|
  {
    blocks[i / BLOCK][i % BLOCK]
  }

  // Test, as Bitset::test does it: out of range reads as unset.
  predicate Test(size: nat, blocks: seq<Word>, i: nat)
    requires Fits(size, blocks)
  {
    i < size && Bit(blocks, i)
  }

  function Update(blocks: seq<Word>, i: nat, b: bool): (r: seq<Word>)
    requires i < BLOCK * |blocks|
  {
    blocks[i / BLOCK := blocks[i / BLOCK][i % BLOCK := b]]
  }

  lemma UpdateAt(blocks: seq<Word>, i: nat, b: bool, j: nat)
    requires i < BLOCK * |blocks| && j < BLOCK * |blocks|
    ensures |Update(blocks, i, b)| == |blocks|
    ensures Bit(Update(blocks, i, b), j) == if i == j then b else Bit(blocks, j)
  {
    if i / BLOCK == j / BLOCK && i % BLOCK == j % BLOCK {
      assert i == j;
    }
  }

  /* ---------- The searches ---------- */

  // Bits 0 and 1 of the scan direction argument.
  predicate ScansInReverse(direction: nat) { direction % 2 == 1 }
  predicate MovesBackward(direction: nat) { direction / 2 % 2 == 1 }

  function ScanOffset(offset: nat, direction: nat): (r: nat)
    requires offset < BLOCK
    ensures r < BLOCK
  {
    if !ScansInReverse(direction) then offset else Masked(offset + (BLOCK - 1))
  }

  function ScanBlock(blockStart: nat, offset: nat, block: Word, direction: nat): int
    requires offset < BLOCK
  {
    var o := ScanOffset(offset, direction);
    var rotated := RotateRight(block, o);
    var position := if !ScansInReverse(direction) then BitScanForward(rotated) else Log2(rotated);
    Masked(position + o) + blockStart
  }

  function NextBlock(nblocks: nat, b: nat, direction: nat): (r: nat)
    requires b < nblocks
    ensures r < nblocks
  {
    var moved := if MovesBackward(direction) then b as int - 1 else b + 1;
    var low := if moved >= 0 then moved else nblocks - 1;
    if low < nblocks then low else 0
  }

  function UpdateHint(nblocks: nat, b: nat, offset: nat, direction: nat): nat
    requires b < nblocks && offset < BLOCK
  {
    NextBlock(nblocks, b, direction) * BLOCK + offset
  }

  // The bits of block b that a search may return: set bits, or unset bits, below the size.
  function Candidates(size: nat, nblocks: nat, b: nat, word: Word, wanted: bool): Word {
    var flipped := if wanted then word else Not(word);
    if !HasLastBlockMask(size) || b < nblocks - 1 then flipped else And(flipped, LastBlockMask(size))
  }

  function FindAnyHelper(nblocks: nat, b: nat, offset: nat, block: Word, direction: nat): (bool, int)
    requires b < nblocks && offset < BLOCK
  {
    var found := exists k :: 0 <= k < BLOCK && block[k];
    if !found then (false, UpdateHint(nblocks, b, offset, direction))
    else (true, ScanBlock(b * BLOCK, offset, block, direction))
  }

  function FindAnyUnsetNear(size: nat, blocks: seq<Word>, hint: nat, direction: nat): (bool, int)
    requires Fits(size, blocks) && hint / BLOCK < |blocks|
  {
    var b := hint / BLOCK;
    FindAnyHelper(|blocks|, b, hint % BLOCK, Candidates(size, |blocks|, b, blocks[b], false), direction)
  }

  // The set search alone clamps a hint beyond the last block to block 0.
  function FindAnySetNear(size: nat, blocks: seq<Word>, hint: nat, direction: nat): (bool, int)
    requires Fits(size, blocks) && size > 0
  {
    var b := if hint / BLOCK < |blocks| then hint / BLOCK else 0;
    FindAnyHelper(|blocks|, b, hint % BLOCK, Candidates(size, |blocks|, b, blocks[b], true), direction)
  }

  lemma CandidatesAt(size: nat, blocks: seq<Word>, b: nat, wanted: bool, k: nat)
    requires Fits(size, blocks) && b < |blocks| && k < BLOCK
    ensures Candidates(size, |blocks|, b, blocks[b], wanted)[k]
            <==> b * BLOCK + k < size && Bit(blocks, b * BLOCK + k) == wanted
  {
    assert (b * BLOCK + k) / BLOCK == b && (b * BLOCK + k) % BLOCK == k;
    if HasLastBlockMask(size) {
      assert size == (|blocks| - 1) * BLOCK + size % BLOCK;
    } else {
      assert size == |blocks| * BLOCK;
    }
  }

  // Cyclic distance, within one block, from `from` up to bit k.
  function Ahead(from: nat, k: nat): nat
    requires from < BLOCK && k < BLOCK
  {
    if from <= k then k - from else k + BLOCK - from
  }

  // Masking a sum of two offsets with block_mask.
  function Masked(n: int): (r: nat)
    ensures r < BLOCK
    ensures 0 <= n < BLOCK ==> r == n
    ensures BLOCK <= n < 2 * BLOCK ==> r == n - BLOCK
  {
    n % BLOCK
  }

  // In scan order, bit r is reached no later than bit k.
  predicate NearerOrSame(offset: nat, direction: nat, r: nat, k: nat)
    requires offset < BLOCK && r < BLOCK && k < BLOCK
  {
    var o := ScanOffset(offset, direction);
    if ScansInReverse(direction) then Ahead(o, k) <= Ahead(o, r) else Ahead(o, r) <= Ahead(o, k)
  }

  // The scan order in numbers: upward from the offset, or downward from two below it.
  lemma ScanOrder(offset: nat, direction: nat, r: nat, k: nat)
    requires offset < 32 && r < 32 && k < 32
    ensures direction % 2 == 0 ==>
              (NearerOrSame(offset, direction, r, k) <==> (r + 32 - offset) % 32 <= (k + 32 - offset) % 32)
    ensures direction % 2 == 1 ==>
              (NearerOrSame(offset, direction, r, k) <==> (offset + 62 - r) % 32 <= (offset + 62 - k) % 32)
  {
  }

  lemma RotationRenames(w: Word, o: nat)
    requires o < BLOCK
    ensures forall k :: 0 <= k < BLOCK ==> RotateRight(w, o)[Ahead(o, k)] == w[k]
    ensures forall s: nat :: s < BLOCK ==> RotateRight(w, o)[s] == w[Masked(s + o)] && Ahead(o, Masked(s + o)) == s
  {
    forall k | 0 <= k < BLOCK
      ensures RotateRight(w, o)[Ahead(o, k)] == w[k]
    {
      RotateRightAt(w, o, Ahead(o, k));
    }
    forall s: nat | s < BLOCK
      ensures RotateRight(w, o)[s] == w[Masked(s + o)] && Ahead(o, Masked(s + o)) == s
    {
      RotateRightAt(w, o, s);
    }
  }

  lemma ScanForwardFinds(o: nat, block: Word)
    requires o < BLOCK && !IsZero(block)
    ensures var s := BitScanForward(RotateRight(block, o));
            && 0 <= s < BLOCK && block[Masked(s + o)]
            && forall k :: 0 <= k < BLOCK && block[k] ==> Ahead(o, Masked(s + o)) <= Ahead(o, k)
  {
    var rotated := RotateRight(block, o);
    RotationRenames(block, o);
    assert ScanUp(rotated, 0) == BitScanForward(rotated);
    var k :| 0 <= k < BLOCK && block[k];
    assert rotated[Ahead(o, k)];
  }

  lemma ScanReverseFinds(o: nat, block: Word)
    requires o < BLOCK && !IsZero(block)
    ensures var s := Log2(RotateRight(block, o));
            && 0 <= s < BLOCK && block[Masked(s + o)]
            && forall k :: 0 <= k < BLOCK && block[k] ==> Ahead(o, k) <= Ahead(o, Masked(s + o))
  {
    var rotated := RotateRight(block, o);
    RotationRenames(block, o);
    assert ScanDown(rotated, BLOCK - 1) == Log2(rotated);
    var k :| 0 <= k < BLOCK && block[k];
    assert rotated[Ahead(o, k)];
  }

  // A successful scan of a nonzero word returns a set bit of that word: the first one going cyclically up
  // from the offset, or, in reverse, the first one going cyclically down from two below the offset.
  lemma ScanBlockFinds(b: nat, offset: nat, block: Word, direction: nat)
    requires offset < BLOCK && !IsZero(block)
    ensures var r := ScanBlock(b * BLOCK, offset, block, direction) - b * BLOCK;
            && 0 <= r < BLOCK && block[r]
            && forall k :: 0 <= k < BLOCK && block[k] ==> NearerOrSame(offset, direction, r, k)
  {
    var o := ScanOffset(offset, direction);
    var rotated := RotateRight(block, o);
    var s := if ScansInReverse(direction) then Log2(rotated) else BitScanForward(rotated);
    if ScansInReverse(direction) {
      ScanReverseFinds(o, block);
    } else {
      ScanForwardFinds(o, block);
    }
    assert ScanBlock(b * BLOCK, offset, block, direction) == Masked(s + o) + b * BLOCK;
  }

  /** What one search step promises, for either kind of search: a hit is an index below the size, in the
      block of the hint, holding the wanted value in the word that was read, and nearest in scan order; a
      miss means that the whole block was without a candidate, and the new hint keeps the offset and
      moves on by one block. */
  ghost predicate SearchOutcome(size: nat, blocks: seq<Word>, b: nat, offset: nat, direction: nat,
                                wanted: bool, r: (bool, int))
    requires Fits(size, blocks) && b < |blocks| && offset < BLOCK
  {
    if r.0 then
      && b * BLOCK <= r.1 < (b + 1) * BLOCK && r.1 < size && Bit(blocks, r.1) == wanted
      && forall i: nat {:trigger Bit(blocks, i)} :: b * BLOCK <= i < (b + 1) * BLOCK && i < size && Bit(blocks, i) == wanted ==>
           NearerOrSame(offset, direction, r.1 % BLOCK, i % BLOCK)
    else
      && r.1 == NextBlock(|blocks|, b, direction) * BLOCK + offset
      && forall i: nat {:trigger Bit(blocks, i)} :: b * BLOCK <= i < (b + 1) * BLOCK && i < size ==> Bit(blocks, i) != wanted
  }

  // The candidates of a block are the flat indices a search may return.
  lemma CandidateBits(size: nat, blocks: seq<Word>, b: nat, wanted: bool, i: nat)
    requires Fits(size, blocks) && b < |blocks| && b * BLOCK <= i < (b + 1) * BLOCK
    ensures Candidates(size, |blocks|, b, blocks[b], wanted)[i % BLOCK] <==> i < size && Bit(blocks, i) == wanted
    ensures i % BLOCK == i - b * BLOCK
  {
    CandidatesAt(size, blocks, b, wanted, i - b * BLOCK);
  }

  // A hit comes before every other candidate of its block.
  lemma HitIsNearest(size: nat, blocks: seq<Word>, b: nat, offset: nat, direction: nat, wanted: bool, i: nat)
    requires Fits(size, blocks) && b < |blocks| && offset < BLOCK
    requires b * BLOCK <= i < (b + 1) * BLOCK && i < size && Bit(blocks, i) == wanted
    ensures var r := ScanBlock(b * BLOCK, offset, Candidates(size, |blocks|, b, blocks[b], wanted), direction) - b * BLOCK;
            0 <= r < BLOCK && NearerOrSame(offset, direction, r, i % BLOCK)
  {
    var c := Candidates(size, |blocks|, b, blocks[b], wanted);
    CandidateBits(size, blocks, b, wanted, i);
    ScanBlockFinds(b, offset, c, direction);
  }

  lemma SearchHitOutcome(size: nat, blocks: seq<Word>, b: nat, offset: nat, direction: nat, wanted: bool)
    requires Fits(size, blocks) && b < |blocks| && offset < BLOCK
    requires !IsZero(Candidates(size, |blocks|, b, blocks[b], wanted))
    ensures SearchOutcome(size, blocks, b, offset, direction, wanted,
                          (true, ScanBlock(b * BLOCK, offset, Candidates(size, |blocks|, b, blocks[b], wanted), direction)))
  {
    var c := Candidates(size, |blocks|, b, blocks[b], wanted);
    var r := ScanBlock(b * BLOCK, offset, c, direction);
    ScanBlockFinds(b, offset, c, direction);
    CandidateBits(size, blocks, b, wanted, r);
    forall i: nat | b * BLOCK <= i < (b + 1) * BLOCK && i < size && Bit(blocks, i) == wanted
      ensures NearerOrSame(offset, direction, r % BLOCK, i % BLOCK)
    {
      HitIsNearest(size, blocks, b, offset, direction, wanted, i);
    }
  }

  lemma SearchHelperOutcome(size: nat, blocks: seq<Word>, b: nat, offset: nat, direction: nat, wanted: bool)
    requires Fits(size, blocks) && b < |blocks| && offset < BLOCK
    ensures SearchOutcome(size, blocks, b, offset, direction, wanted,
                          FindAnyHelper(|blocks|, b, offset, Candidates(size, |blocks|, b, blocks[b], wanted), direction))
  {
    var c := Candidates(size, |blocks|, b, blocks[b], wanted);
    if IsZero(c) {
      forall i: nat | b * BLOCK <= i < (b + 1) * BLOCK && i < size
        ensures Bit(blocks, i) != wanted
      {
        CandidateBits(size, blocks, b, wanted, i);
      }
    } else {
      SearchHitOutcome(size, blocks, b, offset, direction, wanted);
    }
  }

  lemma FindAnyUnsetNearOutcome(size: nat, blocks: seq<Word>, hint: nat, direction: nat)
    requires Fits(size, blocks) && hint / BLOCK < |blocks|
    ensures SearchOutcome(size, blocks, hint / BLOCK, hint % BLOCK, direction, false,
                          FindAnyUnsetNear(size, blocks, hint, direction))
  {
    SearchHelperOutcome(size, blocks, hint / BLOCK, hint % BLOCK, direction, false);
  }

  lemma FindAnySetNearOutcome(size: nat, blocks: seq<Word>, hint: nat, direction: nat)
    requires Fits(size, blocks) && size > 0
    ensures SearchOutcome(size, blocks, if hint / BLOCK < |blocks| then hint / BLOCK else 0, hint % BLOCK, direction, true,
                          FindAnySetNear(size, blocks, hint, direction))
  {
    SearchHelperOutcome(size, blocks, if hint / BLOCK < |blocks| then hint / BLOCK else 0, hint % BLOCK, direction, true);
  }

  /* ---------- Following the returned hints ---------- */

  // The block searched by the k-th of a row of misses that started in block b.
  function MissBlock(nblocks: nat, b: nat, direction: nat, k: nat): (r: nat)
    requires b < nblocks
    ensures r < nblocks
  {
    if k == 0 then b else NextBlock(nblocks, MissBlock(nblocks, b, direction, k - 1), direction)
  }

  lemma {:induction false} MissBlockClosedForm(nblocks: nat, b: nat, direction: nat, k: nat)
    requires b < nblocks && k < nblocks
    ensures MissBlock(nblocks, b, direction, k)
         == if MovesBackward(direction) then (if k <= b then b - k else b + nblocks - k)
            else (if b + k < nblocks then b + k else b + k - nblocks)
  {
    if k > 0 {
      MissBlockClosedForm(nblocks, b, direction, k - 1);
    }
  }

  // max_hint() misses in a row, following the returned hints, search every block exactly once.
  lemma MissesCoverEveryBlock(nblocks: nat, b: nat, direction: nat, target: nat)
    requires b < nblocks && target < nblocks
    ensures exists k: nat :: k < nblocks && MissBlock(nblocks, b, direction, k) == target
    ensures forall j: nat, k: nat :: j < k < nblocks ==>
              MissBlock(nblocks, b, direction, j) != MissBlock(nblocks, b, direction, k)
  {
    forall k: nat | k < nblocks
      ensures MissBlock(nblocks, b, direction, k)
           == if MovesBackward(direction) then (if k <= b then b - k else b + nblocks - k)
              else (if b + k < nblocks then b + k else b + k - nblocks)
    {
      MissBlockClosedForm(nblocks, b, direction, k);
    }
    var k := if MovesBackward(direction) then (if target <= b then b - target else b + nblocks - target)
             else (if b <= target then target - b else target + nblocks - b);
    assert MissBlock(nblocks, b, direction, k) == target;
  }

  /* ---------- Counting ---------- */

  function BitCountFrom(w: Word, from: nat): nat
    requires from <= BLOCK
    decreases BLOCK - from
  {
    if from == BLOCK then 0 else (if w[from] then 1 else 0) + BitCountFrom(w, from + 1)
  }

  function Count(blocks: seq<Word>): nat {
    if blocks == [] then 0 else Count(blocks[..|blocks| - 1]) + BitCountFrom(blocks[|blocks| - 1], 0)
  }

  ghost function SetBits(blocks: seq<Word>): set<nat> {
    set i: nat | i < BLOCK * |blocks| && Bit(blocks, i)
  }

  // Flat index i is a set bit of the word that starts at flat index `base`.
  ghost predicate SetAt(w: Word, base: nat, i: nat) {
    base <= i < base + BLOCK && w[i - base]
  }

  ghost function SetBitsOf(w: Word, from: nat, base: nat): set<nat> {
    set i: nat | base + from <= i < base + BLOCK && SetAt(w, base, i)
  }

  lemma {:induction false} BitCountIsCardinality(w: Word, from: nat, base: nat)
    requires from <= BLOCK
    ensures |SetBitsOf(w, from, base)| == BitCountFrom(w, from)
    decreases BLOCK - from
  {
    if from == BLOCK {
      assert SetBitsOf(w, from, base) == {};
    } else {
      BitCountIsCardinality(w, from + 1, base);
      var t := SetBitsOf(w, from + 1, base);
      assert SetBitsOf(w, from, base) == if w[from] then t + {base + from} else t;
    }
  }

  lemma SetBitsSplit(blocks: seq<Word>)
    requires blocks != []
    ensures var n := |blocks| - 1;
            && SetBits(blocks) == SetBits(blocks[..n]) + SetBitsOf(blocks[n], 0, BLOCK * n)
            && SetBits(blocks[..n]) !! SetBitsOf(blocks[n], 0, BLOCK * n)
  {
    var n := |blocks| - 1;
    forall i: nat | i < BLOCK * |blocks|
      ensures Bit(blocks, i) == if i < BLOCK * n then Bit(blocks[..n], i) else SetAt(blocks[n], BLOCK * n, i)
    {
      if i >= BLOCK * n {
        assert i / BLOCK == n && i % BLOCK == i - BLOCK * n;
      }
    }
  }

  // The reduction over blocks counts exactly the set bits.
  lemma {:induction false} CountIsCardinality(blocks: seq<Word>)
    ensures Count(blocks) == |SetBits(blocks)|
  {
    if blocks == [] {
      assert SetBits(blocks) == {};
    } else {
      var n := |blocks| - 1;
      CountIsCardinality(blocks[..n]);
      BitCountIsCardinality(blocks[n], 0, BLOCK * n);
      SetBitsSplit(blocks);
    }
  }

  /* ---------- The class ---------- */

  // Unused bits of the last block stay clear.
  ghost predicate NoStray(size: nat, blocks: seq<Word>) {
    forall i: nat {:trigger Bit(blocks, i)} :: size <= i < BLOCK * |blocks| ==> !Bit(blocks, i)
  }

  lemma UpdateNoStray(size: nat, blocks: seq<Word>, i: nat, b: bool)
    requires Fits(size, blocks) && NoStray(size, blocks) && i < size
    ensures Fits(size, Update(blocks, i, b)) && NoStray(size, Update(blocks, i, b))
  {
    forall j: nat | size <= j < BLOCK * |blocks|
      ensures !Bit(Update(blocks, i, b), j)
    {
      UpdateAt(blocks, i, b, j);
    }
  }

  class BitSet {
    const size: nat
    const blocks: array<Word>

    ghost predicate Valid()
      reads this, blocks
    {
      Fits(size, blocks[..]) && NoStray(size, blocks[..])
    }

    constructor (n: nat)
      ensures Valid() && size == n && fresh(blocks)
      ensures forall i: nat :: i < BLOCK * blocks.Length ==> !Bit(blocks[..], i)
    {
      size := n;
      blocks := new Word[BlockCount(n)](_ => ZERO_WORD);
    }

    // set(i): true if this call changed the bit.
    method Set(i: nat) returns (changed: bool)
      requires Valid()
      modifies blocks
      ensures Valid()
      ensures changed <==> i < size && !old(Bit(blocks[..], i))
      ensures blocks[..] == if i < size then Update(old(blocks[..]), i, true) else old(blocks[..])
    {
      if i < size {
        UpdateNoStray(size, blocks[..], i, true);
        var word := blocks[i / BLOCK];
        blocks[i / BLOCK] := word[i % BLOCK := true];
        assert blocks[..] == Update(old(blocks[..]), i, true);
        return !word[i % BLOCK];
      }
      return false;
    }

    // reset(i): true if the bit was set.
    method Reset(i: nat) returns (changed: bool)
      requires Valid()
      modifies blocks
      ensures Valid()
      ensures changed <==> i < size && old(Bit(blocks[..], i))
      ensures blocks[..] == if i < size then Update(old(blocks[..]), i, false) else old(blocks[..])
    {
      if i < size {
        UpdateNoStray(size, blocks[..], i, false);
        var word := blocks[i / BLOCK];
        blocks[i / BLOCK] := word[i % BLOCK := false];
        assert blocks[..] == Update(old(blocks[..]), i, false);
        return word[i % BLOCK];
      }
      return false;
    }

    predicate TestBit(i: nat)
      requires Valid()
      reads this, blocks
      ensures TestBit(i) <==> Test(size, blocks[..], i)
    {
      i < size && blocks[i / BLOCK][i % BLOCK]
    }

    // set(): every bit below the size, and none of the unused bits of the last block.
    method SetAll()
      requires Valid()
      modifies blocks
      ensures Valid()
      ensures forall i: nat :: i < size ==> Bit(blocks[..], i)
    {
      forall b | 0 <= b < blocks.Length {
        blocks[b] := Not(ZERO_WORD);
      }
      if HasLastBlockMask(size) {
        blocks[blocks.Length - 1] := LastBlockMask(size);
      }
    }

    // reset() and clear().
    method ResetAll()
      requires Valid()
      modifies blocks
      ensures Valid()
      ensures forall i: nat :: i < BLOCK * blocks.Length ==> !Bit(blocks[..], i)
    {
      forall b | 0 <= b < blocks.Length {
        blocks[b] := ZERO_WORD;
      }
    }

    method CountBits() returns (n: nat)
      requires Valid()
      ensures n == |SetBits(blocks[..])|
    {
      n := 0;
      for b := 0 to blocks.Length
        invariant n == Count(blocks[..b])
      {
        assert blocks[..b + 1][..b] == blocks[..b];
        n := n + BitCountFrom(blocks[b], 0);
      }
      assert blocks[..] == blocks[..blocks.Length];
      CountIsCardinality(blocks[..]);
    }

    method FindUnsetNear(hint: nat, direction: nat) returns (found: bool, index: nat)
      requires Valid() && hint / BLOCK < blocks.Length
      ensures (found, index) == FindAnyUnsetNear(size, blocks[..], hint, direction)
      ensures SearchOutcome(size, blocks[..], hint / BLOCK, hint % BLOCK, direction, false, (found, index))
    {
      var b, offset := hint / BLOCK, hint % BLOCK;
      var block := blocks[b];
      var r := FindAnyHelper(blocks.Length, b, offset, Candidates(size, blocks.Length, b, block, false), direction);
      FindAnyUnsetNearOutcome(size, blocks[..], hint, direction);
      found, index := r.0, r.1;
    }

    method FindSetNear(hint: nat, direction: nat) returns (found: bool, index: nat)
      requires Valid() && size > 0
      ensures (found, index) == FindAnySetNear(size, blocks[..], hint, direction)
      ensures SearchOutcome(size, blocks[..], if hint / BLOCK < blocks.Length then hint / BLOCK else 0, hint % BLOCK,
                            direction, true, (found, index))
    {
      var b, offset := if hint / BLOCK < blocks.Length then hint / BLOCK else 0, hint % BLOCK;
      var block := blocks[b];
      var r := FindAnyHelper(blocks.Length, b, offset, Candidates(size, blocks.Length, b, block, true), direction);
      FindAnySetNearOutcome(size, blocks[..], hint, direction);
      found, index := r.0, r.1;
    }
  }
}
