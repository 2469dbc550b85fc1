/**
 * Kokkos::Random_XorShift64 and its pool on the execution spaces that lock their states.
 *
 * A state is a 64-bit word given as its bits, the lowest first.
 */
module Random {
  import opened Arithmetic
  import opened Counting

  type Bits = seq<bool>

  const Width: nat := 64
  const Modulus: nat := 0x1_0000_0000_0000_0000

  // ------------------------------------------------------------------ xor with a shift

  /** x ^ (x >> k). */
  function ShakeRight(x: Bits, k: nat): (y: Bits)
    ensures |y| == |x|
    ensures forall i :: 0 <= i < |x| ==> y[i] == (x[i] != (i + k < |x| && x[i + k]))
  {
    seq(|x|, i requires 0 <= i < |x| => x[i] != (i + k < |x| && x[i + k]))
  }

  /** x ^ (x << k). */
  function ShakeLeft(x: Bits, k: nat): (y: Bits)
    ensures |y| == |x|
    ensures forall i :: 0 <= i < |x| ==> y[i] == (x[i] != (i >= k && x[i - k]))
  {
    seq(|x|, i requires 0 <= i < |x| => x[i] != (i >= k && x[i - k]))
  }

  /** Solves y == ShakeRight(x, k) for x, from the highest bit down. */
  ghost function UnshakeRight(y: Bits, k: nat): (x: Bits)
    requires k > 0
    ensures |x| == |y|
  {
    if y == [] then []
    else
      var rest := UnshakeRight(y[1..], k);
      [y[0] != (k - 1 < |rest| && rest[k - 1])] + rest
  }

  /** Solves y == ShakeLeft(x, k) for x, from the lowest bit up. */
  ghost function UnshakeLeft(y: Bits, k: nat): (x: Bits)
    requires k > 0
    ensures |x| == |y|
  {
    if y == [] then []
    else
      var n := |y| - 1;
      var rest := UnshakeLeft(y[..n], k);
      rest + [y[n] != (n >= k && rest[n - k])]
  }

  lemma {:induction false} UnshakeRightAt(y: Bits, k: nat, i: nat)
    requires k > 0 && i < |y|
    ensures ShakeRight(UnshakeRight(y, k), k)[i] == y[i]
  {
    if i > 0 {
      UnshakeRightAt(y[1..], k, i - 1);
    }
  }

  lemma {:induction false} UnshakeLeftAt(y: Bits, k: nat, i: nat)
    requires k > 0 && i < |y|
    ensures ShakeLeft(UnshakeLeft(y, k), k)[i] == y[i]
  {
    if i < |y| - 1 {
      UnshakeLeftAt(y[..|y| - 1], k, i);
    }
  }

  /** Both equations have one solution only. */
  lemma {:induction false} RightSolutionUnique(x: Bits, y: Bits, k: nat, i: nat)
    requires k > 0 && |x| == |y| && ShakeRight(x, k) == ShakeRight(y, k) && i < |x|
    ensures x[i] == y[i]
    decreases |x| - i
  {
    assert ShakeRight(x, k)[i] == ShakeRight(y, k)[i];
    if i + k < |x| {
      RightSolutionUnique(x, y, k, i + k);
    }
  }

  lemma {:induction false} LeftSolutionUnique(x: Bits, y: Bits, k: nat, i: nat)
    requires k > 0 && |x| == |y| && ShakeLeft(x, k) == ShakeLeft(y, k) && i < |x|
    ensures x[i] == y[i]
    decreases i
  {
    assert ShakeLeft(x, k)[i] == ShakeLeft(y, k)[i];
    if i >= k {
      LeftSolutionUnique(x, y, k, i - k);
    }
  }

  lemma UnshakeRightSolves(y: Bits, k: nat)
    requires k > 0
    ensures ShakeRight(UnshakeRight(y, k), k) == y
  {
    forall i | 0 <= i < |y| ensures ShakeRight(UnshakeRight(y, k), k)[i] == y[i] {
      UnshakeRightAt(y, k, i);
    }
  }

  lemma ShakeRightInverts(x: Bits, k: nat)
    requires k > 0
    ensures ShakeRight(UnshakeRight(x, k), k) == x
    ensures UnshakeRight(ShakeRight(x, k), k) == x
  {
    UnshakeRightSolves(x, k);
    UnshakeRightSolves(ShakeRight(x, k), k);
    var z := UnshakeRight(ShakeRight(x, k), k);
    forall i | 0 <= i < |x| ensures z[i] == x[i] {
      RightSolutionUnique(z, x, k, i);
    }
  }

  lemma UnshakeLeftSolves(y: Bits, k: nat)
    requires k > 0
    ensures ShakeLeft(UnshakeLeft(y, k), k) == y
  {
    forall i | 0 <= i < |y| ensures ShakeLeft(UnshakeLeft(y, k), k)[i] == y[i] {
      UnshakeLeftAt(y, k, i);
    }
  }

  lemma ShakeLeftInverts(x: Bits, k: nat)
    requires k > 0
    ensures ShakeLeft(UnshakeLeft(x, k), k) == x
    ensures UnshakeLeft(ShakeLeft(x, k), k) == x
  {
    UnshakeLeftSolves(x, k);
    UnshakeLeftSolves(ShakeLeft(x, k), k);
    var z := UnshakeLeft(ShakeLeft(x, k), k);
    forall i | 0 <= i < |x| ensures z[i] == x[i] {
      LeftSolutionUnique(z, x, k, i);
    }
  }

  // ------------------------------------------------------------------ the generator

  /** The state update of urand() and urand64(). */
  function Next(state: Bits): (next: Bits)
    ensures |next| == |state|
  {
    ShakeRight(ShakeLeft(ShakeRight(state, 12), 25), 27)
  }

  ghost function Previous(state: Bits): (previous: Bits)
    ensures |previous| == |state|
  {
    UnshakeRight(UnshakeLeft(UnshakeRight(state, 27), 25), 12)
  }

  /** The state update is a bijection on words. */
  lemma NextIsBijective(x: Bits)
    ensures Previous(Next(x)) == x && Next(Previous(x)) == x
  {
    ShakeRightInverts(x, 12);
    ShakeLeftInverts(ShakeRight(x, 12), 25);
    ShakeRightInverts(ShakeLeft(ShakeRight(x, 12), 25), 27);
    ShakeRightInverts(x, 27);
    ShakeLeftInverts(UnshakeRight(x, 27), 25);
    ShakeRightInverts(UnshakeLeft(UnshakeRight(x, 27), 25), 12);
  }

  /** x ^ y. */
  function Xor(x: Bits, y: Bits): (z: Bits)
    requires |x| == |y|
    ensures |z| == |x|
    ensures forall i :: 0 <= i < |x| ==> z[i] == (x[i] != y[i])
  {
    seq(|x|, i requires 0 <= i < |x| => x[i] != y[i])
  }

  lemma ShakesAreLinear(x: Bits, y: Bits, k: nat)
    requires |x| == |y|
    ensures ShakeRight(Xor(x, y), k) == Xor(ShakeRight(x, k), ShakeRight(y, k))
    ensures ShakeLeft(Xor(x, y), k) == Xor(ShakeLeft(x, k), ShakeLeft(y, k))
  {
  }

  /** The state update is linear over the bits: it follows from what it makes of single bits. */
  lemma NextIsLinear(x: Bits, y: Bits)
    requires |x| == |y|
    ensures Next(Xor(x, y)) == Xor(Next(x), Next(y))
  {
    ShakesAreLinear(x, y, 12);
    ShakesAreLinear(ShakeRight(x, 12), ShakeRight(y, 12), 25);
    ShakesAreLinear(ShakeLeft(ShakeRight(x, 12), 25), ShakeLeft(ShakeRight(y, 12), 25), 27);
  }

  /** The word of n bits in which bit i alone is set. */
  function Single(n: nat, i: nat): (x: Bits)
    ensures |x| == n && forall k :: 0 <= k < n ==> x[k] == (k == i)
  {
    seq(n, k => k == i)
  }

  /** What the state update makes of a single bit: itself, and up to seven more. */
  lemma NextOfSingle(i: nat, k: nat)
    requires i < 64 && k < 64
    ensures Next(Single(64, i))[k] <==>
              || k == i || k == i - 12 || k == i + 25 || (k == i + 13 && i >= 12)
              || k == i - 27 || k == i - 39 || (k == i - 2 && i < 39) || (k == i - 14 && i < 51)
  {
    var y := ShakeRight(Single(64, i), 12);
    assert forall j :: 0 <= j < 64 ==> (y[j] <==> j == i || j == i - 12);
    var z := ShakeLeft(y, 25);
    assert forall j :: 0 <= j < 64 ==> (z[j] <==> j == i || j == i - 12 || j == i + 25 || (j == i + 13 && i >= 12));
  }

  ghost predicate Zero(x: Bits) {
    forall i :: 0 <= i < |x| ==> !x[i]
  }

  /** It fixes zero, so a nonzero state stays nonzero. */
  lemma NextKeepsNonzero(x: Bits)
    ensures Zero(Next(x)) <==> Zero(x)
  {
    var zero := seq(|x|, i => false);
    assert Zero(ShakeRight(zero, 12)) && Zero(ShakeLeft(ShakeRight(zero, 12), 25)) && Zero(Next(zero));
    assert Zero(x) ==> x == zero;
    assert Zero(Next(x)) ==> Next(x) == Next(zero);
    NextIsBijective(x);
    NextIsBijective(zero);
  }

  ghost function Stream(state: Bits, n: nat): (s: Bits)
    ensures |s| == |state|
  {
    if n == 0 then state else Next(Stream(state, n - 1))
  }

  lemma {:induction false} StreamNonzero(state: Bits, n: nat)
    requires !Zero(state)
    ensures !Zero(Stream(state, n))
  {
    if n > 0 {
      StreamNonzero(state, n - 1);
      NextKeepsNonzero(Stream(state, n - 1));
    }
  }

  // ------------------------------------------------------------------ outputs

  /** The number a word stands for. */
  function Value(x: Bits): nat {
    if x == [] then 0 else (if x[0] then 1 else 0) + 2 * Value(x[1..])
  }

  lemma {:induction false} ValueFits(x: Bits)
    ensures Value(x) < Pow2(|x|)
  {
    if x != [] {
      ValueFits(x[1..]);
    }
  }

  lemma {:induction false} ValueInjective(x: Bits, y: Bits)
    requires |x| == |y| && Value(x) == Value(y)
    ensures x == y
  {
    if x != [] {
      ValueInjective(x[1..], y[1..]);
      assert x == [x[0]] + x[1..] && y == [y[0]] + y[1..];
    }
  }

  lemma {:induction false} ValueOfSingle(n: nat, i: nat)
    requires i < n
    ensures Value(Single(n, i)) == Pow2(i)
  {
    if i == 0 {
      assert Single(n, 0)[1..] == seq(n - 1, k => false);
      ValueOfNone(n - 1);
    } else {
      ValueOfSingle(n - 1, i - 1);
      assert Single(n, i)[1..] == Single(n - 1, i - 1);
    }
  }

  lemma {:induction false} ValueOfNone(n: nat)
    ensures Value(seq(n, k => false)) == 0
  {
    if n > 0 {
      ValueOfNone(n - 1);
      assert seq(n, k => false)[1..] == seq(n - 1, k => false);
    }
  }

  /** Words without a common bit add up. */
  lemma {:induction false} ValueOfXor(x: Bits, y: Bits)
    requires |x| == |y| && forall i :: 0 <= i < |x| ==> !(x[i] && y[i])
    ensures Value(Xor(x, y)) == Value(x) + Value(y)
  {
    if x != [] {
      assert Xor(x, y)[1..] == Xor(x[1..], y[1..]);
      ValueOfXor(x[1..], y[1..]);
    }
  }

  lemma WordModulus()
    ensures Pow2(Width) == Modulus
  {
    Pow2Byte(0);
    Pow2Byte(8);
    Pow2Byte(16);
    Pow2Byte(24);
    Pow2Byte(32);
    Pow2Byte(40);
    Pow2Byte(48);
    Pow2Byte(56);
  }

  const Multiplier: nat := 2685821657736338717

  /** The inverse of the multiplier modulo 2^64. */
  const Inverse: nat := 6415128727920758069

  /** The scrambled state; the product wraps around. */
  function Scrambled(value: nat): nat {
    value * Multiplier % Modulus
  }

  /** urand64(), for the state already advanced. */
  function Output64(value: nat): nat {
    (Scrambled(value) + Modulus - 1) % Modulus
  }

  /** urand(): 32 of the scrambled bits. */
  function Output32(value: nat): nat {
    Scrambled(value) / 0x1_0000 % UINT32
  }

  lemma ScrambleReveals(value: nat)
    requires value < Modulus
    ensures Scrambled(value) * Inverse % Modulus == value
  {
    var q := value * Multiplier / Modulus;
    var c := Multiplier * Inverse / Modulus;
    assert Multiplier * Inverse == c * Modulus + 1;
    assert Scrambled(value) == value * Multiplier - q * Modulus;
    assert Scrambled(value) * Inverse == value + (c * value - q * Inverse) * Modulus;
    Remainder(Scrambled(value) * Inverse, c * value - q * Inverse, value);
  }

  lemma ScrambleReaches(target: nat)
    requires target < Modulus
    ensures Scrambled(target * Inverse % Modulus) == target
  {
    var v, q := target * Inverse % Modulus, target * Inverse / Modulus;
    var c := Multiplier * Inverse / Modulus;
    assert Multiplier * Inverse == c * Modulus + 1;
    assert v == target * Inverse - q * Modulus;
    assert v * Multiplier == target + (c * target - q * Multiplier) * Modulus;
    Remainder(v * Multiplier, c * target - q * Multiplier, target);
  }

  lemma MiddleBits(number: nat, high: nat, low: nat)
    requires number < UINT32 && high < 0x1_0000 && low < 0x1_0000
    ensures var target := (high * UINT32 + number) * 0x1_0000 + low;
            target < Modulus && target / 0x1_0000 % UINT32 == number
  {
  }

  /**
   * Every 32-bit number is the output of equally many states: of one state for each choice of
   * the 16 scrambled bits above it and the 16 below it.
   */
  lemma StatesPerNumber(number: nat, high: nat, low: nat) returns (value: nat)
    requires number < UINT32 && high < 0x1_0000 && low < 0x1_0000
    ensures value < Modulus && Output32(value) == number
    ensures forall v: nat :: v < Modulus ==> (Scrambled(v) == (high * UINT32 + number) * 0x1_0000 + low <==> v == value)
  {
    var target := (high * UINT32 + number) * 0x1_0000 + low;
    MiddleBits(number, high, low);
    ScrambleReaches(target);
    value := target * Inverse % Modulus;
    forall v: nat | v < Modulus && Scrambled(v) == target
      ensures v == value
    {
      ScrambleReveals(v);
      ScrambleReveals(value);
    }
  }

  lemma Remainder(x: int, q: int, r: nat)
    requires r < Modulus && x == r + q * Modulus
    ensures x % Modulus == r
  {
  }

  /** Different states give different 64-bit numbers, and only state zero gives the largest. */
  lemma Output64Injective(x: nat, y: nat)
    requires x < Modulus && y < Modulus
    ensures Output64(x) == Output64(y) <==> x == y
    ensures Output64(x) == Modulus - 1 <==> x == 0
  {
    if Output64(x) == Output64(y) {
      assert Scrambled(x) == Scrambled(y);
      ScrambleReveals(x);
      ScrambleReveals(y);
    }
    if Output64(x) == Modulus - 1 {
      assert Scrambled(x) == 0;
      ScrambleReveals(x);
    }
  }

  lemma NextOfOne()
    ensures Next(Single(64, 0)) == Xor(Single(64, 0), Single(64, 25))
  {
    forall k | 0 <= k < 64 ensures Next(Single(64, 0))[k] == Xor(Single(64, 0), Single(64, 25))[k] {
      NextOfSingle(0, k);
    }
  }

  lemma Pow25()
    ensures Pow2(25) == 0x200_0000
  {
    Pow2Byte(17);
    Pow2Byte(9);
    Pow2Byte(1);
    assert Pow2(1) == 2;
  }

  lemma KnownScramble()
    ensures Scrambled(0x200_0001) == 5180492295206395165
  {
    Remainder(0x200_0001 * Multiplier, 4885481, 5180492295206395165);
  }

  lemma KnownOutputs(value: nat)
    requires value == 0x200_0001
    ensures Output32(value) == 3461056876 && Output64(value) == 5180492295206395164
  {
    KnownScramble();
    Remainder(5180492295206395165 + Modulus - 1, 1, 5180492295206395164);
  }

  lemma ValueOfTwo(n: nat, i: nat, j: nat)
    requires i < n && j < n && i != j
    ensures Value(Xor(Single(n, i), Single(n, j))) == Pow2(i) + Pow2(j)
  {
    ValueOfSingle(n, i);
    ValueOfSingle(n, j);
    ValueOfXor(Single(n, i), Single(n, j));
  }

  lemma NextValueOfOne(n: nat)
    requires n == Width
    ensures Value(Single(n, 0)) == 1 && Value(Next(Single(n, 0))) == 0x200_0001
  {
    NextOfOne();
    Pow25();
    ValueOfSingle(n, 0);
    ValueOfTwo(n, 0, 25);
  }

  /** From state 1: the next state, and what urand() and urand64() return there. */
  lemma FirstOutputs()
    ensures Value(Single(64, 0)) == 1 && Value(Next(Single(64, 0))) == 0x200_0001
    ensures Output32(Value(Next(Single(64, 0)))) == 3461056876
    ensures Output64(Value(Next(Single(64, 0)))) == 5180492295206395164
  {
    NextValueOfOne(Width);
    KnownOutputs(Value(Next(Single(64, 0))));
  }

  lemma {:induction false} ValueZero(x: Bits)
    ensures Value(x) == 0 <==> Zero(x)
  {
    if x != [] {
      ValueZero(x[1..]);
      assert Zero(x) <==> !x[0] && Zero(x[1..]) by {
        assert x == [x[0]] + x[1..];
      }
    }
  }

  /** urand64() gives different states different numbers, and gives the largest number for zero alone. */
  lemma OutputsDiffer(x: Bits, y: Bits)
    requires |x| == |y| == Width
    ensures Output64(Value(x)) == Output64(Value(y)) <==> x == y
    ensures Output64(Value(x)) == Modulus - 1 <==> Zero(x)
  {
    WordModulus();
    ValueFits(x);
    ValueFits(y);
    ValueZero(x);
    Output64Injective(Value(x), Value(y));
    if Value(x) == Value(y) {
      ValueInjective(x, y);
    }
  }

  // ------------------------------------------------------------------ numbers below a range

  const MaxUrand: nat := 0xffff_ffff

  /** The bound below which urand(range) accepts a draw. */
  function MaxVal(range: nat): nat
    requires range > 0
  {
    MaxUrand / range * range
  }

  /**
   * Every number below the range is the result of equally many accepted draws: the accepted
   * draws are the pairs of a quotient below MAX_URAND / range and a remainder.
   */
  lemma AcceptedDraws(range: nat, r: nat, q: nat)
    requires 0 < range <= MaxUrand && r < range
    ensures q * range + r < MaxVal(range) <==> q < MaxUrand / range
    ensures (q * range + r) % range == r && (q * range + r) / range == q
  {
    DrawBelowBound(range, r, q, MaxUrand / range);
    DivMod(q * range + r, range, q, r);
  }

  /** The bound is the largest multiple of the range that 32 bits can hold. */
  lemma MaxValIsLargest(range: nat)
    requires 0 < range <= 4294967295
    ensures MaxVal(range) % range == 0 && MaxVal(range) <= 4294967295 < MaxVal(range) + range
  {
    var q := MaxUrand / range;
    assert q * range + MaxUrand % range == MaxUrand;
    DivMod(q * range, range, q, 0);
  }

  lemma DrawBelowBound(range: nat, r: nat, q: nat, bound: nat)
    requires r < range
    ensures q * range + r < bound * range <==> q < bound
  {
    Multiples(q - bound, range);
    assert (q - bound) * range == q * range - bound * range;
  }

  class Generator {
    var state: Bits
    const stateIdx: nat

    /** Replaces a zero state by a fixed one. */
    constructor (state: Bits, stateIdx: nat)
      requires |state| == Width
      ensures this.state == Seeded(state) && this.stateIdx == stateIdx
    {
      this.state := Seeded(state);
      this.stateIdx := stateIdx;
    }

    method Advance()
      modifies this
      ensures state == Next(old(state))
    {
      state := ShakeRight(state, 12);
      state := ShakeLeft(state, 25);
      state := ShakeRight(state, 27);
    }

    method Urand() returns (number: nat)
      modifies this
      ensures state == Next(old(state)) && number == Output32(Value(state)) < UINT32
    {
      Advance();
      number := Output32(Value(state));
    }

    method Urand64() returns (number: nat)
      modifies this
      ensures state == Next(old(state)) && number == Output64(Value(state))
    {
      Advance();
      number := Output64(Value(state));
    }

    /**
     * urand(range): draws until a number is accepted, which is the n-th one. Without an
     * accepted number the loop of the source does not end.
     */
    method UrandBelow(range: nat, ghost n: nat) returns (number: nat)
      requires 0 < range <= MaxUrand && n > 0 && FirstAccepted(state, range, n)
      modifies this
      ensures state == Stream(old(state), n)
      ensures number < range && number == Output32(Value(state)) % range
    {
      ghost var start, drawn := state, 1;
      assert Stream(start, 1) == Next(Stream(start, 0));
      var tmp := Urand();
      while tmp >= MaxVal(range)
        invariant 1 <= drawn <= n && state == Stream(start, drawn) && tmp == Output32(Value(state))
        decreases n - drawn
      {
        tmp := Urand();
        drawn := drawn + 1;
      }
      number := tmp % range;
    }
  }

  ghost predicate RejectedUpTo(start: Bits, range: nat, n: nat)
    requires range > 0
  {
    forall m :: 0 < m <= n ==> Output32(Value(Stream(start, m))) >= MaxVal(range)
  }

  ghost predicate FirstAccepted(start: Bits, range: nat, n: nat)
    requires range > 0 && n > 0
  {
    RejectedUpTo(start, range, n - 1) && Output32(Value(Stream(start, n))) < MaxVal(range)
  }

  const DefaultSeed: nat := 1318319

  /** The low n bits of a number. */
  function BitsOf(v: nat, n: nat): (x: Bits)
    ensures |x| == n
  {
    if n == 0 then [] else [v % 2 == 1] + BitsOf(v / 2, n - 1)
  }

  function IsZero(x: Bits): (zero: bool)
    ensures zero <==> Zero(x)
  {
    x == [] || (!x[0] && IsZero(x[1..]))
  }

  function Seeded(state: Bits): (seeded: Bits)
    ensures |state| == Width ==> |seeded| == Width && !Zero(seeded)
  {
    SeedIsOdd(DefaultSeed, Width);
    if IsZero(state) then BitsOf(DefaultSeed, Width) else state
  }

  lemma {:induction false} ValueOfBits(v: nat, n: nat)
    requires v < Pow2(n)
    ensures Value(BitsOf(v, n)) == v
  {
    if n > 0 {
      ValueOfBits(v / 2, n - 1);
    }
  }

  /** A state of zero is replaced by 1318319, any other one is kept. */
  lemma SeededMeaning(state: Bits)
    requires |state| == 64
    ensures if Value(state) == 0 then Value(Seeded(state)) == 1318319 else Seeded(state) == state
  {
    ValueZero(state);
    WordModulus();
    ValueOfBits(DefaultSeed, 64);
  }

  lemma SeedIsOdd(v: nat, n: nat)
    requires n > 0 && v % 2 == 1
    ensures !Zero(BitsOf(v, n))
  {
    assert BitsOf(v, n)[0];
  }

  // ------------------------------------------------------------------ the pool

  /**
   * What a thread is doing with a state of the pool: it has won the lock, it draws numbers
   * from its generator, or free_state() has stored the state and not yet released the lock.
   */
  datatype Thread =
    | Idle
    | Locked(slot: nat)
    | Drawing(slot: nat, state: Bits)
    | Stored(slot: nat)

  /** Shared memory, the threads, and the history: the owner and the number of draws of each slot. */
  datatype Pool = Pool(
    locks: seq<bool>, states: seq<Bits>, threads: seq<Thread>,
    owners: seq<int>, draws: seq<nat>)

  datatype Action = Probe(slot: nat) | Take | Draw | Store | Unlock

  /**
   * One step of thread t.  Probe is one round of the lock loop; the rule by which the loop
   * picks the next slot differs between the execution spaces, so any slot of the lock array
   * may be probed. `RoundsAreSteps` says when the rule of Cuda and HIP keeps to them.
   */
  ghost predicate Step(p: Pool, t: nat, a: Action, q: Pool) {
    && t < |p.threads|
    && Slots(p)
    && match (a, p.threads[t])
       case (Probe(i), Idle) =>
         && i < |p.locks|
         && q == (if p.locks[i] then p
                  else p.(locks := p.locks[i := true], owners := p.owners[i := t], threads := p.threads[t := Locked(i)]))
       case (Take, Locked(i)) =>
         && i < |p.states|
         && q == p.(threads := p.threads[t := Drawing(i, Seeded(p.states[i]))])
       case (Draw, Drawing(i, s)) =>
         && i < |p.draws|
         && q == p.(threads := p.threads[t := Drawing(i, Next(s))], draws := p.draws[i := p.draws[i] + 1])
       case (Store, Drawing(i, s)) =>
         && i < |p.states|
         && q == p.(states := p.states[i := s], threads := p.threads[t := Stored(i)])
       case (Unlock, Stored(i)) =>
         && i < |p.locks|
         && q == p.(locks := p.locks[i := false], owners := p.owners[i := -1], threads := p.threads[t := Idle])
       case _ => false
  }

  ghost predicate Slots(p: Pool) {
    |p.locks| == |p.states| == |p.owners| == |p.draws|
  }

  ghost predicate Owns(thread: Thread, i: nat) {
    !thread.Idle? && thread.slot == i
  }

  /** The state of slot i's stream: with the thread that draws from it, or in memory. */
  ghost function StreamState(p: Pool, i: nat): Bits
    requires Slots(p) && i < |p.states|
  {
    var t := p.owners[i];
    if 0 <= t < |p.threads| && p.threads[t].Drawing? && p.threads[t].slot == i then p.threads[t].state
    else Seeded(p.states[i])
  }

  /** A lock is taken exactly while the owner on record holds it. */
  ghost predicate SlotInv(p: Pool, i: nat)
    requires Slots(p) && i < |p.locks|
  {
    && (p.locks[i] <==> p.owners[i] >= 0)
    && (p.locks[i] ==> p.owners[i] < |p.threads| && Owns(p.threads[p.owners[i]], i))
    && |p.states[i]| == Width
  }

  ghost predicate ThreadInv(p: Pool, t: nat)
    requires Slots(p) && t < |p.threads|
  {
    match p.threads[t]
    case Idle => true
    case Locked(i) => i < |p.locks| && p.owners[i] == t
    case Drawing(i, s) => i < |p.locks| && p.owners[i] == t && |s| == Width && !Zero(s)
    case Stored(i) => i < |p.locks| && p.owners[i] == t && !Zero(p.states[i])
  }

  /** The i-th stream has advanced by exactly the draws made from it. */
  ghost predicate StreamInv(p: Pool, initial: seq<Bits>, i: nat)
    requires Slots(p) && i < |p.states|
  {
    i < |initial| && |initial[i]| == Width && StreamState(p, i) == Stream(Seeded(initial[i]), p.draws[i])
  }

  ghost predicate Inv(p: Pool, initial: seq<Bits>) {
    && Slots(p)
    && (forall i :: 0 <= i < |p.locks| ==> SlotInv(p, i) && StreamInv(p, initial, i))
    && (forall t :: 0 <= t < |p.threads| ==> ThreadInv(p, t))
  }

  ghost function SlotOf(p: Pool, t: nat, a: Action): nat
    requires t < |p.threads|
  {
    match (a, p.threads[t])
    case (Probe(i), _) => i
    case (_, Idle) => 0
    case (_, thread) => thread.slot
  }

  /** A step leaves the other slots and threads alone. */
  lemma OtherSlots(p: Pool, t: nat, a: Action, q: Pool, initial: seq<Bits>, i: nat)
    requires Inv(p, initial) && Step(p, t, a, q) && i < |p.locks| && i != SlotOf(p, t, a)
    ensures Slots(q) && i < |q.locks| && SlotInv(q, i) && StreamInv(q, initial, i)
  {
    assert SlotInv(p, i) && StreamInv(p, initial, i) && ThreadInv(p, t);
  }

  lemma OwnSlot(p: Pool, t: nat, a: Action, q: Pool, initial: seq<Bits>)
    requires Inv(p, initial) && Step(p, t, a, q)
    ensures var i := SlotOf(p, t, a);
            && Slots(q) && i < |q.locks| && SlotInv(q, i) && StreamInv(q, initial, i)
            && ThreadInv(q, t)
  {
    var i := SlotOf(p, t, a);
    assert ThreadInv(p, t);
    assert SlotInv(p, i) && StreamInv(p, initial, i);
    OwnStream(p, t, a, q, i);
    OwnStreamInv(p, t, a, q, initial, i);
    OwnLock(p, t, a, q, i);
  }

  lemma OwnStreamInv(p: Pool, t: nat, a: Action, q: Pool, initial: seq<Bits>, i: nat)
    requires Slots(p) && Slots(q) && i < |p.locks| == |q.locks| && StreamInv(p, initial, i)
    requires StreamState(q, i) == if a == Draw then Next(StreamState(p, i)) else StreamState(p, i)
    requires q.draws[i] == if a == Draw then p.draws[i] + 1 else p.draws[i]
    ensures StreamInv(q, initial, i)
  {
  }

  lemma OwnLock(p: Pool, t: nat, a: Action, q: Pool, i: nat)
    requires Step(p, t, a, q) && i == SlotOf(p, t, a) && i < |p.locks|
    requires SlotInv(p, i) && ThreadInv(p, t)
    ensures Slots(q) && i < |q.locks| && SlotInv(q, i) && ThreadInv(q, t)
  {
    if a == Draw {
      NextKeepsNonzero(p.threads[t].state);
    }
  }

  /** A draw advances the stream of the slot by one; every other step keeps it. */
  lemma OwnStream(p: Pool, t: nat, a: Action, q: Pool, i: nat)
    requires Step(p, t, a, q) && i == SlotOf(p, t, a) && i < |p.locks|
    requires SlotInv(p, i) && ThreadInv(p, t)
    ensures Slots(q) && |q.locks| == |p.locks|
    ensures StreamState(q, i) == if a == Draw then Next(StreamState(p, i)) else StreamState(p, i)
    ensures q.draws[i] == if a == Draw then p.draws[i] + 1 else p.draws[i]
  {
  }

  lemma SlotsDiffer(p: Pool, t: nat, a: Action, q: Pool, initial: seq<Bits>, u: nat)
    requires Inv(p, initial) && Step(p, t, a, q) && u < |p.threads| && u != t && !p.threads[u].Idle?
    ensures q == p || p.threads[u].slot != SlotOf(p, t, a)
  {
    assert ThreadInv(p, u) && ThreadInv(p, t);
    assert SlotInv(p, p.threads[u].slot);
  }

  lemma OtherThreads(p: Pool, t: nat, a: Action, q: Pool, initial: seq<Bits>, u: nat)
    requires Inv(p, initial) && Step(p, t, a, q) && u < |p.threads| && u != t
    ensures Slots(q) && u < |q.threads| && ThreadInv(q, u)
  {
    assert ThreadInv(p, u);
    if !p.threads[u].Idle? {
      SlotsDiffer(p, t, a, q, initial, u);
    }
  }

  lemma StepKeepsInv(p: Pool, t: nat, a: Action, q: Pool, initial: seq<Bits>)
    requires Inv(p, initial) && Step(p, t, a, q)
    ensures Inv(q, initial)
  {
    OwnSlot(p, t, a, q, initial);
    forall i | 0 <= i < |q.locks| ensures SlotInv(q, i) && StreamInv(q, initial, i) {
      if i != SlotOf(p, t, a) {
        OtherSlots(p, t, a, q, initial, i);
      }
    }
    forall u | 0 <= u < |q.threads| ensures ThreadInv(q, u) {
      if u != t {
        OtherThreads(p, t, a, q, initial, u);
      }
    }
  }

  // ------------------------------------------------------------------ the lock loop on Cuda and HIP

  /** The index of round k, for a thread with this number in its block, in a pool of `extent` locks. */
  function ProbeIndex(block: nat, threads: nat, offset: nat, extent: nat, k: nat): nat
    requires extent > 0
  {
    if k == 0 then (block * threads + offset) % extent
    else
      var i := ProbeIndex(block, threads, offset, extent, k - 1) + threads;
      if i >= extent then offset else i
  }

  /** Some round wraps around to the offset. */
  lemma {:induction false} Wraps(block: nat, threads: nat, offset: nat, extent: nat, k: nat) returns (n: nat)
    requires extent > 0 && threads > 0
    ensures ProbeIndex(block, threads, offset, extent, n) == offset
    decreases extent - ProbeIndex(block, threads, offset, extent, k)
  {
    n := k + 1;
    if ProbeIndex(block, threads, offset, extent, k) + threads < extent {
      n := Wraps(block, threads, offset, extent, k + 1);
    }
  }

  lemma {:induction false} ProbeInside(block: nat, threads: nat, offset: nat, extent: nat, k: nat)
    requires extent > 0 && offset < extent
    ensures ProbeIndex(block, threads, offset, extent, k) < extent
  {
    if k > 0 {
      ProbeInside(block, threads, offset, extent, k - 1);
    }
  }

  /**
   * The loop adds the threads of a block to its index and wraps to the thread's own number,
   * so it stays inside the lock array for every number of rounds if and only if there are
   * more locks than that number.
   */
  lemma ProbesInsideIff(block: nat, threads: nat, offset: nat, extent: nat)
    requires extent > 0 && threads > 0
    ensures (forall k: nat :: ProbeIndex(block, threads, offset, extent, k) < extent) <==> offset < extent
  {
    if offset < extent {
      forall k: nat ensures ProbeIndex(block, threads, offset, extent, k) < extent {
        ProbeInside(block, threads, offset, extent, k);
      }
    } else {
      var n := Wraps(block, threads, offset, extent, 0);
    }
  }

  /** So every thread of every block stays inside if and only if the pool has a state for each thread of a block. */
  lemma BlockProbesInsideIff(threads: nat, extent: nat)
    requires extent > 0 && threads > 0
    ensures (forall block: nat, offset: nat, k: nat :: offset < threads ==> ProbeIndex(block, threads, offset, extent, k) < extent)
       <==> threads <= extent
  {
    if threads <= extent {
      forall block: nat, offset: nat, k: nat | offset < threads
        ensures ProbeIndex(block, threads, offset, extent, k) < extent
      {
        ProbeInside(block, threads, offset, extent, k);
      }
    } else {
      var n := Wraps(0, threads, threads - 1, extent, 0);
    }
  }

  /** Every round of the loop is a step of the pool exactly under that condition. */
  lemma RoundsAreSteps(p: Pool, t: nat, block: nat, threads: nat, offset: nat)
    requires Slots(p) && t < |p.threads| && p.threads[t].Idle? && |p.locks| > 0 && threads > 0
    ensures (forall k: nat :: CanProbe(p, t, ProbeIndex(block, threads, offset, |p.locks|, k))) <==> offset < |p.locks|
  {
    forall i: nat ensures CanProbe(p, t, i) <==> i < |p.locks| {
      ProbePossible(p, t, i);
    }
    ProbesInsideIff(block, threads, offset, |p.locks|);
  }

  ghost predicate CanProbe(p: Pool, t: nat, i: nat) {
    exists q :: Step(p, t, Probe(i), q)
  }

  lemma ProbePossible(p: Pool, t: nat, i: nat)
    requires Slots(p) && t < |p.threads| && p.threads[t].Idle?
    ensures CanProbe(p, t, i) <==> i < |p.locks|
  {
    if i < |p.locks| {
      var q := if p.locks[i] then p
               else p.(locks := p.locks[i := true], owners := p.owners[i := t], threads := p.threads[t := Locked(i)]);
      assert Step(p, t, Probe(i), q);
    }
  }

  // ------------------------------------------------------------------ runs

  ghost predicate Initial(p: Pool) {
    && Slots(p)
    && (forall i :: 0 <= i < |p.locks| ==> !p.locks[i] && |p.states[i]| == Width && p.owners[i] == -1 && p.draws[i] == 0)
    && (forall t :: 0 <= t < |p.threads| ==> p.threads[t].Idle?)
  }

  datatype Move = Move(thread: nat, action: Action)

  ghost predicate Run(pools: seq<Pool>, moves: seq<Move>) {
    && |pools| == |moves| + 1
    && forall n :: 0 <= n < |moves| ==> Step(pools[n], moves[n].thread, moves[n].action, pools[n + 1])
  }

  lemma {:induction false} RunKeepsInv(pools: seq<Pool>, moves: seq<Move>, n: nat)
    requires Run(pools, moves) && Initial(pools[0]) && n <= |moves|
    ensures Inv(pools[n], pools[0].states)
  {
    if n == 0 {
      assert forall i :: 0 <= i < |pools[0].locks| ==> StreamState(pools[0], i) == Seeded(pools[0].states[i]);
    } else {
      RunKeepsInv(pools, moves, n - 1);
      StepKeepsInv(pools[n - 1], moves[n - 1].thread, moves[n - 1].action, pools[n], pools[0].states);
    }
  }

  /**
   * In every run no two live generators share a slot, no generator holds zero, and a
   * generator continues its slot's stream where the last one left it.
   */
  lemma LiveGenerators(pools: seq<Pool>, moves: seq<Move>, n: nat, t: nat, u: nat)
    requires Run(pools, moves) && Initial(pools[0]) && n <= |moves|
    requires t < |pools[n].threads| && u < |pools[n].threads| && t != u
    requires pools[n].threads[t].Drawing? && !pools[n].threads[u].Idle?
    ensures pools[n].threads[t].slot != pools[n].threads[u].slot
    ensures !Zero(pools[n].threads[t].state)
    ensures var i := pools[n].threads[t].slot;
            && i < |pools[0].states| && i < |pools[n].draws|
            && pools[n].threads[t].state == Stream(Seeded(pools[0].states[i]), pools[n].draws[i])
  {
    RunKeepsInv(pools, moves, n);
    assert ThreadInv(pools[n], t) && ThreadInv(pools[n], u);
    assert StreamInv(pools[n], pools[0].states, pools[n].threads[t].slot);
  }
}
