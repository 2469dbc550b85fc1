/**
 * Kokkos::Experimental::DynamicView: an array in chunks of a power of two, grown and shrunk
 * on the host.  `>> shift` and `& mask` of unsigned numbers are the quotient and the
 * remainder by the chunk size.
 */
module DynamicView {
  import opened Arithmetic
  import opened Counting

  // ------------------------------------------------------------------ constructor arithmetic

  /** Kokkos::log2: the position of the highest set bit, 0 for 0. */
  function Log2(n: nat): nat {
    if n <= 1 then 0 else 1 + Log2(n / 2)
  }

  function PowerThatContains(n: nat): nat {
    var i := Log2(n);
    if Pow2(i) < n then i + 1 else i
  }

  lemma {:induction false} Log2Meaning(n: nat)
    requires n > 0
    ensures Pow2(Log2(n)) <= n < Pow2(Log2(n) + 1)
  {
    if n > 1 {
      Log2Meaning(n / 2);
    }
  }

  /** The chunk size is the least power of two that reaches the requested minimum. */
  lemma ChunkSizeIsLeast(n: nat)
    requires n > 0
    ensures Pow2(PowerThatContains(n)) >= n
    ensures PowerThatContains(n) > 0 ==> Pow2(PowerThatContains(n) - 1) < n
  {
    Log2Meaning(n);
  }

  /** How many chunks hold n elements: (n + mask) >> shift. */
  function ChunksFor(n: nat, size: nat): nat
    requires size > 0
  {
    Quotient(n + size - 1, size)
  }

  /** The entries of the chunk table, in 32-bit arithmetic. */
  function ChunkTable(maxExtent: nat, size: nat): nat
    requires size > 0
  {
    Quotient((maxExtent + size - 1) % UINT32, size)
  }

  lemma Rounded(n: nat, size: nat)
    requires size > 0
    ensures n <= ChunksFor(n, size) * size < n + size
  {
    QuotientIsDivision(n + size - 1, size);
    assert n + size - 1 == (n + size - 1) / size * size + (n + size - 1) % size;
  }

  /** The table reaches the requested maximum exactly when the sum does not wrap around. */
  lemma ChunkTableCovers(maxExtent: nat, size: nat)
    requires 0 < size < UINT32 && maxExtent < UINT32
    ensures ChunkTable(maxExtent, size) * size >= maxExtent <==> maxExtent + size - 1 < UINT32
  {
    Rounded(maxExtent, size);
    var wrapped := (maxExtent + size - 1) % UINT32;
    QuotientIsDivision(wrapped, size);
    assert wrapped / size * size <= wrapped;
  }

  // ------------------------------------------------------------------ the sum of resize_serial

  /** The chunks resize_serial(n) asks for, when n + mask is computed modulo `range`: 2^32 for an n of 32 bits, else 2^64. */
  function ChunksAsked(n: nat, size: nat, range: nat): nat
    requires size > 0 && range > 0
  {
    Quotient((n + size - 1) % range, size)
  }

  /** It asks for the chunks that n elements need exactly when the sum does not wrap, and otherwise for none at all. */
  lemma AskedIsNeeded(n: nat, size: nat, range: nat)
    requires 0 < size <= range && n < range
    ensures n + size - 1 < range ==> ChunksAsked(n, size, range) == ChunksFor(n, size)
    ensures n + size - 1 >= range ==> ChunksAsked(n, size, range) == 0 < ChunksFor(n, size)
  {
    if n + size - 1 >= range {
      DivMod(n + size - 1, range, 1, n + size - 1 - range);
    } else {
      DivMod(n + size - 1, range, 0, n + size - 1);
    }
  }

  /** The largest 32-bit extent is not refused, whatever the table: it asks for no chunk. */
  lemma LargestExtent(size: nat)
    requires 2 <= size <= UINT32
    ensures ChunksAsked(UINT32 - 1, size, UINT32) == 0 && ChunksAsked(UINT32 - 1, size, UINT64) == ChunksFor(UINT32 - 1, size)
  {
    AskedIsNeeded(UINT32 - 1, size, UINT32);
    AskedIsNeeded(UINT32 - 1, size, UINT64);
  }

  /** No extent that the chunk table could hold wraps. */
  lemma TableNeverWraps(n: nat, maxExtent: nat, shift: nat, range: nat)
    requires Pow2(shift) <= UINT32 <= range && n <= ChunkTable(maxExtent, Pow2(shift)) * Pow2(shift)
    ensures n + Pow2(shift) - 1 < range
  {
    var size := Pow2(shift);
    var wrapped := (maxExtent + size - 1) % UINT32;
    QuotientIsDivision(wrapped, size);
    var k := Pow2DividesWord(shift);
    NextMultiple(wrapped / size, k, size);
  }

  // ------------------------------------------------------------------ index mapping

  /** The chunk of an index and its place there. */
  function ChunkOf(i: nat, size: nat): nat
    requires size > 0
  {
    Quotient(i, size)
  }

  function PlaceOf(i: nat, size: nat): (k: nat)
    requires size > 0
    ensures k < size
  {
    Remainder(i, size)
  }

  /** Distinct indices have distinct places. */
  lemma PlacesDistinct(i: nat, j: nat, size: nat)
    requires size > 0
    ensures ChunkOf(i, size) == ChunkOf(j, size) && PlaceOf(i, size) == PlaceOf(j, size) <==> i == j
  {
    if ChunkOf(i, size) == ChunkOf(j, size) && PlaceOf(i, size) == PlaceOf(j, size) {
      PairDetermines(i, j, size);
    }
  }

  /** The chunks an extent needs are exactly those of the indices below it. */
  lemma PlaceInBounds(i: nat, n: nat, size: nat)
    requires size > 0 && i < n
    ensures ChunkOf(i, size) < ChunksFor(n, size)
  {
    assert Quotient(i + size, size) == 1 + Quotient(i, size);
    QuotientMonotone(i + size, n + size - 1, size);
  }

  /** The last chunk is needed. */
  lemma LastChunkNeeded(n: nat, size: nat)
    requires size > 0 && n > 0
    ensures ChunkOf(n - 1, size) == ChunksFor(n, size) - 1
  {
    assert Quotient(n - 1 + size, size) == 1 + Quotient(n - 1, size);
  }

  // ------------------------------------------------------------------ the class

  /** What operator() does with an index: read an element, abort, or read past the chunk table. */
  datatype Fetch<T> = Fetched(x: T) | Aborts | PastTable

  class DynamicView<T(0)> {
    const chunkShift: nat
    const chunkSize: nat
    const chunks: array<array?<T>>
    var numChunks: nat
    var extent: nat

    /** Exactly the chunks the extent needs are allocated, each one apart from the others. */
    ghost predicate Valid()
      reads this, chunks
    {
      && chunkSize == Pow2(chunkShift) < UINT32
      && numChunks == ChunksFor(extent, chunkSize) <= chunks.Length
      && ChunksUsed()
    }

    ghost predicate ChunksUsed()
      reads this, chunks
    {
      && numChunks <= chunks.Length
      && (forall c {:trigger chunks[c]} :: 0 <= c < numChunks ==> chunks[c] != null && chunks[c].Length == chunkSize && chunks != chunks[c] as object)
      && (forall c :: numChunks <= c < chunks.Length ==> chunks[c] == null)
      && (forall c, d :: 0 <= c < d < numChunks ==> chunks[c] != chunks[d])
    }

    constructor (minChunkSize: nat, maxExtent: nat)
      requires 2 <= minChunkSize <= 0x4000_0000
      ensures Valid() && extent == 0 && fresh(chunks)
      ensures chunkShift == PowerThatContains(minChunkSize)
      ensures chunks.Length == ChunkTable(maxExtent, chunkSize)
    {
      ChunkSizeIsLeast(minChunkSize);
      chunkShift := PowerThatContains(minChunkSize);
      chunkSize := Pow2(PowerThatContains(minChunkSize));
      chunks := new array?<T>[ChunkTable(maxExtent, Pow2(PowerThatContains(minChunkSize)))](i => null);
      numChunks, extent := 0, 0;
    }

    ghost function ChunkAt(c: nat): set<object?>
      reads chunks
    {
      if c < chunks.Length then {chunks[c]} else {}
    }

    /** Place k of chunk c. */
    function Cell(c: nat, k: nat): T
      requires ChunksUsed() && c < numChunks && k < chunkSize
      reads this, chunks, ChunkAt(c)
    {
      chunks[c][k]
    }

    /** The element at an index below the extent. */
    function Element(i: nat): T
      requires Valid() && i < extent
      reads this, chunks, ChunkAt(ChunkOf(i, Pow2(chunkShift)))
    {
      PlaceInBounds(i, extent, chunkSize);
      Cell(ChunkOf(i, chunkSize), PlaceOf(i, chunkSize))
    }

    /** operator(), in a build with or without KOKKOS_ENABLE_DEBUG_BOUNDS_CHECK. Without it an index beyond the chunk
        table is not caught. */
    method Access(i: nat, boundsCheck: bool) returns (r: Fetch<T>)
      requires ChunksUsed() && chunkSize > 0
      ensures r.Fetched? <==> ChunkOf(i, chunkSize) < numChunks
      ensures r.PastTable? <==> !boundsCheck && chunks.Length <= ChunkOf(i, chunkSize)
      ensures r.Fetched? ==> r.x == Cell(ChunkOf(i, chunkSize), PlaceOf(i, chunkSize))
      ensures Valid() && i < extent ==> r == Fetched(Element(i))
    {
      var ic := ChunkOf(i, chunkSize);
      if i < extent { PlaceInBounds(i, extent, chunkSize); }
      if !boundsCheck && chunks.Length <= ic { return PastTable; }
      if boundsCheck || chunks[ic] == null {
        if numChunks <= ic { return Aborts; }
      }
      r := Fetched(chunks[ic][PlaceOf(i, chunkSize)]);
    }

    /** Assignment through the reference operator() returns. */
    method Store(i: nat, x: T)
      requires Valid() && i < extent
      modifies ChunkAt(ChunkOf(i, chunkSize))
      ensures Valid() && Element(i) == x
      ensures forall j :: 0 <= j < extent && j != i ==> Element(j) == old(Element(j))
    {
      PlaceInBounds(i, extent, chunkSize);
      var c, k := ChunkOf(i, chunkSize), PlaceOf(i, chunkSize);
      chunks[c][k] := x;
      forall j | 0 <= j < extent && j != i ensures Element(j) == old(Element(j)) {
        PlaceInBounds(j, extent, chunkSize);
        PlacesDistinct(i, j, chunkSize);
      }
    }

    method Grow(target: nat)
      requires ChunksUsed() && numChunks <= target <= chunks.Length
      modifies this`numChunks, chunks
      ensures ChunksUsed() && numChunks == target
      ensures chunks[..old(numChunks)] == old(chunks[..numChunks])
    {
      while numChunks < target
        invariant ChunksUsed() && old(numChunks) <= numChunks <= target
        invariant chunks[..old(numChunks)] == old(chunks[..numChunks])
      {
        chunks[numChunks] := new T[chunkSize];
        numChunks := numChunks + 1;
      }
    }

    method Shrink(target: nat)
      requires ChunksUsed() && target <= numChunks
      modifies this`numChunks, chunks
      ensures ChunksUsed() && numChunks == target
      ensures chunks[..target] == old(chunks[..target])
    {
      while target + 1 <= numChunks
        invariant ChunksUsed() && target <= numChunks
        invariant chunks[..target] == old(chunks[..target])
      {
        numChunks := numChunks - 1;
        chunks[numChunks] := null;
      }
    }

    method Rechunk(count: nat)
      requires ChunksUsed() && count <= chunks.Length
      modifies this`numChunks, chunks
      ensures ChunksUsed() && numChunks == count
      ensures forall c :: 0 <= c < count && c < old(numChunks) ==> chunks[c] == old(chunks[c])
    {
      if numChunks < count {
        Grow(count);
        assert forall c :: 0 <= c < old(numChunks) ==> chunks[c] == chunks[..old(numChunks)][c];
      } else {
        Shrink(count);
        assert forall c :: 0 <= c < count ==> chunks[c] == chunks[..count][c];
      }
    }

    /** resize_serial(n), its sum computed modulo `range`; `ok` is false where it aborts. Unless the sum wraps it aborts
        exactly beyond the table; when it wraps, every chunk is freed and the huge extent is recorded. */
    method ResizeSerial(n: nat, range: nat) returns (ok: bool)
      requires Valid() && n < range && (range == UINT32 || range == UINT64)
      modifies this`numChunks, this`extent, chunks
      ensures n + chunkSize - 1 < range ==> Valid() && (ok <==> ChunksFor(n, chunkSize) <= chunks.Length)
      ensures n + chunkSize - 1 < range ==> forall i :: 0 <= i < extent && i < old(extent) ==> Element(i) == old(Element(i))
      ensures n + chunkSize - 1 >= range ==> ok && numChunks == 0 && ChunksUsed() && !Valid()
      ensures extent == if ok then n else old(extent)
    {
      AskedIsNeeded(n, chunkSize, range);
      var count := ChunksAsked(n, chunkSize, range);
      ok := chunks.Length >= count;
      if !ok { return; }
      Rechunk(count);
      extent := n;
      forall i | n + chunkSize - 1 < range && 0 <= i < n && i < old(extent) ensures Element(i) == old(Element(i)) {
        PlaceInBounds(i, n, chunkSize);
        PlaceInBounds(i, old(extent), chunkSize);
      }
    }
  }
}
