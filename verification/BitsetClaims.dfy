/**
 * Threads that claim bits concurrently, as the TestBitsetAny functor does: find an unset
 * bit near the hint, try to set it, follow the returned hint on a miss.
 */
module BitsetClaims {
  import opened Bitset
  import opened Counting

  datatype Thread =
    | Searching(attempts: nat, hint: nat)
    | Claiming(attempts: nat, index: nat)
    | Claimed(index: nat)
    | GaveUp

  /** The shared blocks, the threads, and for each bit that was claimed the thread that did. */
  datatype Claims = Claims(blocks: seq<Word>, threads: seq<Thread>, owners: map<nat, nat>)

  /** The hint thread t starts with. */
  function FirstHint(t: nat): nat {
    t / 16 * 16
  }

  /** A thread evaluates the loop condition before each search. */
  function Looping(nblocks: nat, attempts: nat, hint: nat): Thread {
    if attempts < nblocks then Searching(attempts, hint) else GaveUp
  }

  ghost predicate SearchStep(size: nat, c: Claims, t: nat, d: Claims)
    requires Fits(size, c.blocks) && t < |c.threads| && c.threads[t].Searching?
  {
    var (attempts, hint) := (c.threads[t].attempts, c.threads[t].hint);
    && hint / BLOCK < |c.blocks|
    && var r := FindAnyUnsetNear(size, c.blocks, hint, t);
       r.1 >= 0 && d == c.(threads := c.threads[t := if r.0 then Claiming(attempts, r.1)
                                                     else Looping(|c.blocks|, attempts + 1, r.1)])
  }

  /** set(hint) is one atomic fetch-or; it succeeds when the bit was clear. */
  ghost predicate ClaimStep(size: nat, c: Claims, t: nat, d: Claims)
    requires Fits(size, c.blocks) && t < |c.threads| && c.threads[t].Claiming?
  {
    var (attempts, i) := (c.threads[t].attempts, c.threads[t].index);
    if i < size && !Bit(c.blocks, i) then
      d == Claims(Update(c.blocks, i, true), c.threads[t := Claimed(i)], c.owners[i := t])
    else
      d == c.(threads := c.threads[t := Looping(|c.blocks|, attempts, i)])
  }

  ghost predicate Step(size: nat, c: Claims, t: nat, d: Claims) {
    && Fits(size, c.blocks) && t < |c.threads|
    && match c.threads[t]
       case Searching(_, _) => SearchStep(size, c, t, d)
       case Claiming(_, _) => ClaimStep(size, c, t, d)
       case _ => false
  }

  // ------------------------------------------------------------------ the invariant

  /** The bits that are set are the ones on record, each with the thread that holds it. */
  ghost predicate BitInv(size: nat, c: Claims, i: nat)
    requires Fits(size, c.blocks)
  {
    && (i < size ==> (Bit(c.blocks, i) <==> i in c.owners))
    && (i in c.owners ==> i < size && c.owners[i] < |c.threads| && c.threads[c.owners[i]] == Claimed(i))
  }

  ghost predicate BlockTaken(size: nat, owners: map<nat, nat>, b: nat) {
    forall i: nat :: b * BLOCK <= i < (b + 1) * BLOCK && i < size ==> i in owners
  }

  /** The misses of thread t so far went through `attempts` blocks that are full, up to block b. */
  ghost predicate Window(size: nat, nblocks: nat, owners: map<nat, nat>, t: nat, attempts: nat, b: nat)
    requires FirstHint(t) / BLOCK < nblocks
  {
    && attempts < nblocks
    && b == MissBlock(nblocks, FirstHint(t) / BLOCK, t, attempts)
    && forall j: nat :: j < attempts ==> BlockTaken(size, owners, MissBlock(nblocks, FirstHint(t) / BLOCK, t, j))
  }

  ghost predicate ThreadInv(size: nat, c: Claims, t: nat)
    requires t < |c.threads|
  {
    && FirstHint(t) / BLOCK < |c.blocks|
    && match c.threads[t]
       case Searching(attempts, hint) => Window(size, |c.blocks|, c.owners, t, attempts, hint / BLOCK)
       case Claiming(attempts, i) => i < size && Window(size, |c.blocks|, c.owners, t, attempts, i / BLOCK)
       case Claimed(i) => i in c.owners && c.owners[i] == t
       case GaveUp => false
  }

  ghost predicate Inv(size: nat, c: Claims) {
    && Fits(size, c.blocks) && |c.threads| <= size
    && (forall i: nat :: BitInv(size, c, i))
    && (forall t: nat :: t < |c.threads| ==> ThreadInv(size, c, t))
  }

  // ------------------------------------------------------------------ a free bit is left

  /** Claimed bits have different holders. */
  lemma {:induction false} HoldersDistinct(owners: map<nat, nat>)
    requires forall i, j :: i in owners && j in owners && owners[i] == owners[j] ==> i == j
    ensures |owners.Values| == |owners|
  {
    if owners == map[] {
      assert owners.Values == {};
    } else {
      var i :| i in owners;
      var rest := owners - {i};
      HoldersDistinct(rest);
      forall v | v in owners.Values ensures v in rest.Values + {owners[i]} {
        var j :| j in owners && owners[j] == v;
        assert j != i ==> j in rest && rest[j] == v;
      }
      assert owners.Values == rest.Values + {owners[i]};
      assert owners[i] !in rest.Values;
      assert owners.Keys == rest.Keys + {i};
      assert |owners| == |owners.Keys| && |rest| == |rest.Keys|;
    }
  }

  /** While some thread has not claimed, some bit is not claimed either. */
  lemma SomeBitFree(size: nat, c: Claims, t: nat)
    requires Inv(size, c) && t < |c.threads| && !c.threads[t].Claimed?
    ensures exists i: nat :: i < size && i !in c.owners
    ensures |c.owners| < size
  {
    forall i, j | i in c.owners && j in c.owners && c.owners[i] == c.owners[j] ensures i == j {
      assert BitInv(size, c, i) && BitInv(size, c, j);
    }
    HoldersDistinct(c.owners);
    var others := Below(|c.threads|);
    BelowIs(|c.threads|);
    forall u | u in c.owners.Values ensures u in others - {t} {
      var i :| i in c.owners && c.owners[i] == u;
      assert BitInv(size, c, i);
    }
    SubsetSize(c.owners.Values, others - {t});
    var bits := Below(size);
    BelowIs(size);
    if forall i: nat :: i < size ==> i in c.owners {
      SubsetSize(bits, c.owners.Keys);
    }
  }

  /** After max_hint() misses every block was seen full. */
  lemma WindowComplete(size: nat, nblocks: nat, owners: map<nat, nat>, t: nat, i: nat)
    requires FirstHint(t) / BLOCK < nblocks == BlockCount(size) && i < size
    requires forall j: nat :: j < nblocks ==> BlockTaken(size, owners, MissBlock(nblocks, FirstHint(t) / BLOCK, t, j))
    ensures i in owners
  {
    MissesCoverEveryBlock(nblocks, FirstHint(t) / BLOCK, t, i / BLOCK);
    var j: nat :| j < nblocks && MissBlock(nblocks, FirstHint(t) / BLOCK, t, j) == i / BLOCK;
    assert BlockTaken(size, owners, i / BLOCK);
  }

  // ------------------------------------------------------------------ preservation

  lemma SearchKeepsInv(size: nat, c: Claims, t: nat, d: Claims)
    requires Inv(size, c) && t < |c.threads| && c.threads[t].Searching? && SearchStep(size, c, t, d)
    ensures Inv(size, d)
  {
    var hint, b := c.threads[t].hint, c.threads[t].hint / BLOCK;
    var r := FindAnyUnsetNear(size, c.blocks, hint, t);
    assert ThreadInv(size, c, t);
    FindAnyUnsetNearOutcome(size, c.blocks, hint, t);
    if !r.0 {
      forall i: nat | b * BLOCK <= i < (b + 1) * BLOCK && i < size ensures i in c.owners {
        assert BitInv(size, c, i);
      }
      assert BlockTaken(size, c.owners, b);
      MissKeepsThread(size, c, t, hint, r.1);
    }
    forall i: nat ensures BitInv(size, d, i) {
      assert BitInv(size, c, i);
    }
    forall u: nat | u < |d.threads| ensures ThreadInv(size, d, u) {
      assert ThreadInv(size, c, u);
    }
  }

  lemma MissKeepsThread(size: nat, c: Claims, t: nat, hint: nat, next: int)
    requires Inv(size, c) && t < |c.threads| && c.threads[t].Searching? && hint == c.threads[t].hint
    requires BlockTaken(size, c.owners, hint / BLOCK) && hint / BLOCK < |c.blocks|
    requires next == NextBlock(|c.blocks|, hint / BLOCK, t) * BLOCK + hint % BLOCK
    ensures c.threads[t].attempts + 1 < |c.blocks|
    ensures Window(size, |c.blocks|, c.owners, t, c.threads[t].attempts + 1, next / BLOCK)
  {
    var n, attempts := |c.blocks|, c.threads[t].attempts;
    assert ThreadInv(size, c, t);
    assert forall j: nat :: j < attempts + 1 ==> BlockTaken(size, c.owners, MissBlock(n, FirstHint(t) / BLOCK, t, j));
    if attempts + 1 == n {
      SomeBitFree(size, c, t);
      var i: nat :| i < size && i !in c.owners;
      WindowComplete(size, n, c.owners, t, i);
    }
  }

  lemma ClaimKeepsInv(size: nat, c: Claims, t: nat, d: Claims)
    requires Inv(size, c) && t < |c.threads| && c.threads[t].Claiming? && ClaimStep(size, c, t, d)
    ensures Inv(size, d)
  {
    var k := c.threads[t].index;
    assert ThreadInv(size, c, t) && BitInv(size, c, k);
    forall i: nat ensures Fits(size, d.blocks) && BitInv(size, d, i) {
      assert BitInv(size, c, i);
      if i < size && !Bit(c.blocks, k) {
        UpdateAt(c.blocks, k, true, i);
      }
    }
    forall u: nat | u < |d.threads| ensures ThreadInv(size, d, u) {
      assert ThreadInv(size, c, u);
    }
  }

  lemma StepKeepsInv(size: nat, c: Claims, t: nat, d: Claims)
    requires Inv(size, c) && Step(size, c, t, d)
    ensures Inv(size, d)
  {
    if c.threads[t].Searching? {
      SearchKeepsInv(size, c, t, d);
    } else {
      ClaimKeepsInv(size, c, t, d);
    }
  }

  // ------------------------------------------------------------------ progress

  /** How many steps a thread can still take while `free` bits are left. */
  ghost function Remaining(size: nat, c: Claims, t: nat): nat
    requires t < |c.threads|
  {
    var free := if |c.owners| <= size then size - |c.owners| else 0;
    match c.threads[t]
    case Searching(attempts, _) => 2 * free + Left(c, attempts) + 1
    case Claiming(attempts, i) => 2 * free + Left(c, attempts) + (if i in c.owners then 2 else 0)
    case _ => 0
  }

  ghost function Left(c: Claims, attempts: nat): nat {
    if attempts < |c.blocks| then |c.blocks| - attempts else 0
  }

  ghost function Total(size: nat, c: Claims, n: nat): nat
    requires n <= |c.threads|
  {
    if n == 0 then 0 else Total(size, c, n - 1) + Remaining(size, c, n - 1)
  }

  lemma StepLowers(size: nat, c: Claims, t: nat, d: Claims)
    requires Inv(size, c) && Step(size, c, t, d)
    ensures Remaining(size, d, t) < Remaining(size, c, t)
    ensures forall u: nat :: u < |c.threads| && u != t ==> Remaining(size, d, u) <= Remaining(size, c, u)
  {
    SomeBitFree(size, c, t);
    assert ThreadInv(size, c, t);
    if c.threads[t].Searching? {
      var r := FindAnyUnsetNear(size, c.blocks, c.threads[t].hint, t);
      FindAnyUnsetNearOutcome(size, c.blocks, c.threads[t].hint, t);
      assert r.0 ==> BitInv(size, c, r.1);
    } else {
      assert BitInv(size, c, c.threads[t].index);
    }
  }

  lemma {:induction false} TotalFalls(size: nat, c: Claims, t: nat, d: Claims, n: nat)
    requires n <= |c.threads| == |d.threads| && t < |c.threads|
    requires Remaining(size, d, t) < Remaining(size, c, t)
    requires forall u: nat :: u < |c.threads| && u != t ==> Remaining(size, d, u) <= Remaining(size, c, u)
    ensures Total(size, d, n) + (if t < n then 1 else 0) <= Total(size, c, n)
  {
    if n > 0 {
      TotalFalls(size, c, t, d, n - 1);
    }
  }

  ghost predicate Start(size: nat, c: Claims) {
    && Fits(size, c.blocks) && c.owners == map[] && |c.threads| <= size
    && (forall i: nat :: i < size ==> !Bit(c.blocks, i))
    && (forall t: nat :: t < |c.threads| ==> c.threads[t] == Looping(|c.blocks|, 0, FirstHint(t)))
  }

  lemma StartInv(size: nat, c: Claims)
    requires Start(size, c)
    ensures Inv(size, c)
  {
    forall t: nat | t < |c.threads| ensures ThreadInv(size, c, t) {
      assert FirstHint(t) <= t < size;
    }
  }

  ghost predicate Run(size: nat, states: seq<Claims>, moves: seq<nat>) {
    && |states| == |moves| + 1
    && forall n :: 0 <= n < |moves| ==> Step(size, states[n], moves[n], states[n + 1])
  }

  /** Every run is finite: its length is bounded by what the start allows. */
  lemma {:induction false} RunIsBounded(size: nat, states: seq<Claims>, moves: seq<nat>, n: nat)
    requires Run(size, states, moves) && Start(size, states[0]) && n <= |moves|
    ensures Inv(size, states[n]) && |states[n].threads| == |states[0].threads|
    ensures Total(size, states[n], |states[n].threads|) + n <= Total(size, states[0], |states[0].threads|)
  {
    if n == 0 {
      StartInv(size, states[0]);
    } else {
      RunIsBounded(size, states, moves, n - 1);
      StepKeepsInv(size, states[n - 1], moves[n - 1], states[n]);
      StepLowers(size, states[n - 1], moves[n - 1], states[n]);
      TotalFalls(size, states[n - 1], moves[n - 1], states[n], |states[n].threads|);
    }
  }


  ghost predicate CanStep(size: nat, c: Claims, t: nat) {
    exists d :: Step(size, c, t, d)
  }

  /** A thread that has not claimed can always go on; none ever gives up. */
  lemma NeverStuck(size: nat, c: Claims, t: nat)
    requires Inv(size, c) && t < |c.threads| && !c.threads[t].Claimed?
    ensures CanStep(size, c, t)
  {
    assert ThreadInv(size, c, t);
    match c.threads[t]
    case Searching(attempts, hint) =>
      var r := FindAnyUnsetNear(size, c.blocks, hint, t);
      FindAnyUnsetNearOutcome(size, c.blocks, hint, t);
      assert Step(size, c, t, c.(threads := c.threads[t := if r.0 then Claiming(attempts, r.1)
                                                           else Looping(|c.blocks|, attempts + 1, r.1)]));
    case Claiming(attempts, i) =>
      assert BitInv(size, c, i);
      assert Step(size, c, t, if !Bit(c.blocks, i) then Claims(Update(c.blocks, i, true), c.threads[t := Claimed(i)], c.owners[i := t])
                              else c.(threads := c.threads[t := Looping(|c.blocks|, attempts, i)]));
  }

  /**
   * size() threads or fewer, on an empty bitset, under every interleaving: when no thread
   * can go on all have claimed a bit below the size that is now set, and no two the same one.
   */
  lemma AllClaimDistinctBits(size: nat, states: seq<Claims>, moves: seq<nat>)
    requires Run(size, states, moves) && Start(size, states[0])
    requires forall t: nat :: !CanStep(size, states[|moves|], t)
    ensures var c := states[|moves|];
            && Fits(size, c.blocks)
            && (forall t: nat :: t < |c.threads| ==>
                  c.threads[t].Claimed? && c.threads[t].index < size && Bit(c.blocks, c.threads[t].index))
            && (forall t: nat, u: nat :: t < u < |c.threads| ==> c.threads[t].index != c.threads[u].index)
  {
    var c := states[|moves|];
    RunIsBounded(size, states, moves, |moves|);
    forall t: nat | t < |c.threads|
      ensures c.threads[t].Claimed? && c.threads[t].index < size && Bit(c.blocks, c.threads[t].index)
      ensures c.threads[t].index in c.owners && c.owners[c.threads[t].index] == t
    {
      if !c.threads[t].Claimed? {
        NeverStuck(size, c, t);
      }
      assert ThreadInv(size, c, t);
      assert BitInv(size, c, c.threads[t].index);
    }
  }
}
