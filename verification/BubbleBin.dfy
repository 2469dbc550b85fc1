/**
 * The bubble sort BinSort runs inside one bin (operator()(bin_sort_bins_tag)), for an
 * arbitrary comparison of rows, and what it computes when the comparison is an order.
 */
module BubbleBin {

  type Comparison = (nat, nat) -> bool

  /** One pass over a bin: the row carried along is swapped past every row it does not precede. */
  ghost function Pass(before: Comparison, r: seq<nat>): (p: seq<nat>)
    ensures |p| == |r|
    decreases |r|
  {
    if |r| <= 1 then r
    else if before(r[0], r[1]) then [r[0]] + Pass(before, r[1..])
    else [r[1]] + Pass(before, [r[0]] + r[2..])
  }

  /** No pair of neighbours is swapped, so the pass leaves `sorted` set. */
  ghost predicate NoSwap(before: Comparison, r: seq<nat>) {
    forall i :: 0 < i < |r| ==> before(r[i - 1], r[i])
  }

  /** Passes over a shrinking prefix until one of them swaps nothing. */
  ghost function Bubble(before: Comparison, r: seq<nat>): (p: seq<nat>)
    ensures |p| == |r|
    decreases |r|
  {
    if NoSwap(before, r) then r
    else
      var p := Pass(before, r);
      Bubble(before, p[..|r| - 1]) + [p[|r| - 1]]
  }

  // ------------------------------------------------------------- what it means

  /** `before` is a strict weak order. */
  ghost predicate WeakOrder(before: Comparison) {
    && (forall x, y :: before(x, y) ==> !before(y, x))
    && (forall x, y, z :: !before(y, x) && !before(z, y) ==> !before(z, x))
  }

  /** No row precedes one that stands to its left. */
  ghost predicate Ordered(before: Comparison, r: seq<nat>) {
    forall i, j :: 0 <= i < j < |r| ==> !before(r[j], r[i])
  }

  ghost predicate AtMost(before: Comparison, r: seq<nat>, top: nat) {
    forall x :: x in r ==> !before(top, x)
  }

  lemma {:induction false} PassPermutes(before: Comparison, r: seq<nat>)
    ensures multiset(Pass(before, r)) == multiset(r)
    decreases |r|
  {
    if |r| > 1 {
      assert r == [r[0]] + r[1..] && r == [r[0], r[1]] + r[2..];
      if before(r[0], r[1]) {
        PassPermutes(before, r[1..]);
      } else {
        PassPermutes(before, [r[0]] + r[2..]);
      }
    }
  }

  ghost function Reversed(r: seq<nat>): (s: seq<nat>)
    ensures |s| == |r|
  {
    if r == [] then [] else Reversed(r[1..]) + [r[0]]
  }

  /** Of these rows none precedes another. */
  ghost predicate AllTied(before: Comparison, r: seq<nat>) {
    forall x, y :: x in r && y in r ==> !before(x, y)
  }

  lemma {:induction false} PassOfTies(before: Comparison, r: seq<nat>)
    requires r != [] && AllTied(before, r)
    ensures Pass(before, r) == r[1..] + [r[0]]
    decreases |r|
  {
    if |r| > 1 {
      assert r[0] in r && r[1] in r;
      PassOfTies(before, [r[0]] + r[2..]);
    }
  }

  /** Rows with equal keys are swapped past each other, so a bin of equal keys is turned around. */
  lemma {:induction false} BubbleOfTies(before: Comparison, r: seq<nat>)
    requires AllTied(before, r)
    ensures Bubble(before, r) == Reversed(r)
    decreases |r|
  {
    if |r| > 1 {
      assert r[0] in r && r[1] in r && !before(r[1 - 1], r[1]);
      PassOfTies(before, r);
      assert (r[1..] + [r[0]])[..|r| - 1] == r[1..];
      BubbleOfTies(before, r[1..]);
    }
  }

  lemma {:induction false} PassCarriesLast(before: Comparison, r: seq<nat>)
    requires r != [] && WeakOrder(before)
    ensures AtMost(before, r, Pass(before, r)[|r| - 1])
    decreases |r|
  {
    var top := Pass(before, r)[|r| - 1];
    if |r| == 1 {
      assert !before(r[0], r[0]);
    } else if before(r[0], r[1]) {
      PassCarriesLast(before, r[1..]);
      assert r[1] in r[1..] && !before(r[1], r[0]);
      assert r == [r[0]] + r[1..];
    } else {
      var rest := [r[0]] + r[2..];
      PassCarriesLast(before, rest);
      assert rest[0] in rest;
      assert forall x :: x in r ==> x in rest || x == r[1];
    }
  }

  lemma {:induction false} BubblePermutes(before: Comparison, r: seq<nat>)
    ensures multiset(Bubble(before, r)) == multiset(r)
    decreases |r|
  {
    if !NoSwap(before, r) {
      var p := Pass(before, r);
      PassPermutes(before, r);
      BubblePermutes(before, p[..|r| - 1]);
      assert p == p[..|r| - 1] + [p[|r| - 1]];
    }
  }

  lemma {:induction false} NoSwapOrdered(before: Comparison, r: seq<nat>, i: nat, j: nat)
    requires WeakOrder(before) && NoSwap(before, r) && i < j < |r|
    ensures !before(r[j], r[i])
    decreases j
  {
    assert before(r[j - 1], r[j]);
    if i < j - 1 {
      NoSwapOrdered(before, r, i, j - 1);
    }
  }

  lemma AtMostPermuted(before: Comparison, r: seq<nat>, s: seq<nat>, top: nat)
    requires multiset(r) == multiset(s) && AtMost(before, r, top)
    ensures AtMost(before, s, top)
  {
    forall x | x in s ensures x in r {
      assert x in multiset(s);
    }
  }

  /** For a strict weak order the bin ends up ordered. */
  lemma {:induction false} BubbleSorts(before: Comparison, r: seq<nat>)
    requires WeakOrder(before)
    ensures Ordered(before, Bubble(before, r))
    decreases |r|
  {
    if NoSwap(before, r) {
      forall i, j | 0 <= i < j < |r| ensures !before(r[j], r[i]) {
        NoSwapOrdered(before, r, i, j);
      }
    } else {
      var p := Pass(before, r);
      var top, front := p[|r| - 1], p[..|r| - 1];
      BubbleSorts(before, front);
      PassCarriesLast(before, r);
      PassPermutes(before, r);
      AtMostPermuted(before, r, p, top);
      assert AtMost(before, front, top);
      BubblePermutes(before, front);
      AtMostPermuted(before, front, Bubble(before, front), top);
    }
  }

  // ------------------------------------------------------------- the loops

  /** Halfway through a pass over a bin that held `start`: the row at k - 1 is being carried. */
  ghost predicate MidPass(before: Comparison, start: seq<nat>, now: seq<nat>, k: nat, sorted: bool) {
    && 1 <= k <= |now| == |start|
    && now[..k - 1] + Pass(before, now[k - 1..]) == Pass(before, start)
    && (sorted ==> now == start && NoSwap(before, start[..k]))
    && (!sorted ==> !NoSwap(before, start))
  }

  lemma StartPass(before: Comparison, start: seq<nat>)
    requires start != []
    ensures MidPass(before, start, start, 1, true)
  {
    assert start[0..] == start;
  }

  lemma KeepStep(before: Comparison, start: seq<nat>, now: seq<nat>, k: nat, sorted: bool)
    requires MidPass(before, start, now, k, sorted) && k < |now|
    requires before(now[k - 1], now[k])
    ensures MidPass(before, start, now, k + 1, sorted)
  {
    var rest := now[k - 1..];
    assert rest[1..] == now[k..];
    PrefixStep(now[..k - 1], now[k - 1], Pass(before, now[k..]));
    assert now[..k] == now[..k - 1] + [now[k - 1]];
    if sorted {
      NoSwapStep(before, start, k);
    }
  }

  lemma PrefixStep(a: seq<nat>, x: nat, b: seq<nat>)
    ensures a + ([x] + b) == (a + [x]) + b
  {
  }

  lemma NoSwapStep(before: Comparison, r: seq<nat>, k: nat)
    requires 1 <= k < |r| && NoSwap(before, r[..k]) && before(r[k - 1], r[k])
    ensures NoSwap(before, r[..k + 1])
  {
    var short, long := r[..k], r[..k + 1];
    forall i | 0 < i < |long| ensures before(long[i - 1], long[i]) {
      if i < k {
        assert before(short[i - 1], short[i]);
      }
    }
  }

  lemma SwapStep(before: Comparison, start: seq<nat>, now: seq<nat>, k: nat, sorted: bool)
    requires MidPass(before, start, now, k, sorted) && k < |now|
    requires !before(now[k - 1], now[k])
    ensures MidPass(before, start, now[k - 1 := now[k]][k := now[k - 1]], k + 1, false)
  {
    var rest, now' := now[k - 1..], now[k - 1 := now[k]][k := now[k - 1]];
    assert now'[k..] == [rest[0]] + rest[2..];
    assert now'[..k] == now[..k - 1] + [now[k]];
  }

  lemma EndPass(before: Comparison, start: seq<nat>, now: seq<nat>, sorted: bool)
    requires MidPass(before, start, now, |now|, sorted)
    ensures now == Pass(before, start)
    ensures sorted <==> NoSwap(before, start)
  {
    var k := |now|;
    assert now == now[..k - 1] + now[k - 1..];
    assert start[..k] == start;
  }

  /** Only the window changed. */
  ghost predicate SameOutside(was: seq<nat>, now: seq<nat>, from: nat, upper: nat) {
    && from <= upper <= |was| == |now|
    && now[..from] == was[..from] && now[upper..] == was[upper..]
  }

  lemma SwapInWindow(s: seq<nat>, from: nat, upper: nat, k: nat)
    requires from < k < upper <= |s|
    ensures var t := s[k - 1 := s[k]][k := s[k - 1]];
            && SameOutside(s, t, from, upper)
            && t[from..upper] == s[from..upper][k - from - 1 := s[k]][k - from := s[k - 1]]
  {
  }

  /** The pass over the window from .. upper, with the row at k - 1 being carried. */
  ghost predicate Passing(before: Comparison, was: seq<nat>, now: seq<nat>, from: nat, upper: nat, k: nat, sorted: bool) {
    && from < k <= upper && SameOutside(was, now, from, upper)
    && MidPass(before, was[from..upper], now[from..upper], k - from, sorted)
  }

  lemma PassingKeeps(before: Comparison, was: seq<nat>, now: seq<nat>, from: nat, upper: nat, k: nat, sorted: bool)
    requires Passing(before, was, now, from, upper, k, sorted) && k < upper && before(now[k - 1], now[k])
    ensures Passing(before, was, now, from, upper, k + 1, sorted)
  {
    KeepStep(before, was[from..upper], now[from..upper], k - from, sorted);
  }

  lemma PassingSwaps(before: Comparison, was: seq<nat>, now: seq<nat>, from: nat, upper: nat, k: nat, sorted: bool)
    requires Passing(before, was, now, from, upper, k, sorted) && k < upper && !before(now[k - 1], now[k])
    ensures Passing(before, was, now[k - 1 := now[k]][k := now[k - 1]], from, upper, k + 1, false)
  {
    var now' := now[k - 1 := now[k]][k := now[k - 1]];
    SwapInWindow(now, from, upper, k);
    OutsideStays(was, now, now', from, upper);
    SwapStep(before, was[from..upper], now[from..upper], k - from, sorted);
  }

  lemma OutsideStays(a: seq<nat>, b: seq<nat>, c: seq<nat>, from: nat, upper: nat)
    requires SameOutside(a, b, from, upper) && SameOutside(b, c, from, upper)
    ensures SameOutside(a, c, from, upper)
  {
  }

  method CompareOne(before: Comparison, slots: array<nat>, from: nat, upper: nat, k: nat, oldIdx: nat, sorted: bool, ghost was: seq<nat>)
    returns (carried: nat, sorted': bool)
    requires k < upper && Passing(before, was, slots[..], from, upper, k, sorted) && oldIdx == slots[k - 1]
    modifies slots
    ensures Passing(before, was, slots[..], from, upper, k + 1, sorted') && carried == slots[k]
  {
    var newIdx := slots[k];
    ghost var now := slots[..];
    if !before(oldIdx, newIdx) {
      PassingSwaps(before, was, now, from, upper, k, sorted);
      slots[k - 1] := newIdx;
      slots[k] := oldIdx;
      assert slots[..] == now[k - 1 := now[k]][k := now[k - 1]];
      carried, sorted' := oldIdx, false;
    } else {
      PassingKeeps(before, was, now, from, upper, k, sorted);
      carried, sorted' := newIdx, sorted;
    }
  }

  method BubbleOnce(before: Comparison, slots: array<nat>, from: nat, upper: nat) returns (sorted: bool)
    requires from < upper <= slots.Length
    modifies slots
    ensures SameOutside(old(slots[..]), slots[..], from, upper)
    ensures slots[..][from..upper] == Pass(before, old(slots[..])[from..upper])
    ensures sorted <==> NoSwap(before, old(slots[..])[from..upper])
  {
    ghost var was := slots[..];
    StartPass(before, was[from..upper]);
    sorted := true;
    var oldIdx := slots[from];
    var k := from + 1;
    while k < upper
      invariant Passing(before, was, slots[..], from, upper, k, sorted) && oldIdx == slots[k - 1]
    {
      oldIdx, sorted := CompareOne(before, slots, from, upper, k, oldIdx, sorted, was);
      k := k + 1;
    }
    EndPass(before, was[from..upper], slots[..][from..upper], sorted);
  }

  /** While passes remain, the part still to be sorted and the part already settled. */
  ghost predicate MidSort(before: Comparison, start: seq<nat>, now: seq<nat>, upper: nat, sorted: bool) {
    && upper <= |now| == |start|
    && (if sorted then now == Bubble(before, start)
        else upper > 0 && Bubble(before, now[..upper]) + now[upper..] == Bubble(before, start))
  }

  lemma SortStep(before: Comparison, start: seq<nat>, now: seq<nat>, upper: nat, next: seq<nat>, sorted: bool)
    requires MidSort(before, start, now, upper, false) && |next| == |now|
    requires next[..upper] == Pass(before, now[..upper]) && next[upper..] == now[upper..]
    requires sorted <==> NoSwap(before, now[..upper])
    ensures MidSort(before, start, next, upper - 1, sorted)
  {
    var front := now[..upper];
    if sorted {
      NoSwapPass(before, front);
      assert next == next[..upper] + next[upper..];
    } else {
      var p := Pass(before, front);
      assert next[..upper - 1] == p[..upper - 1];
      assert next[upper - 1..] == [p[upper - 1]] + now[upper..];
    }
  }

  lemma {:induction false} NoSwapPass(before: Comparison, r: seq<nat>)
    requires NoSwap(before, r)
    ensures Pass(before, r) == r
    decreases |r|
  {
    if |r| > 1 {
      assert before(r[1 - 1], r[1]);
      assert forall i :: 0 < i < |r[1..]| ==> before(r[1..][i - 1], r[1..][i]) by {
        forall i | 0 < i < |r[1..]| ensures before(r[1..][i - 1], r[1..][i]) {
          assert before(r[i + 1 - 1], r[i + 1]);
        }
      }
      NoSwapPass(before, r[1..]);
    }
  }

  /** The window of the bin, after a pass over its front. */
  lemma WindowAfterPass(start: seq<nat>, was: seq<nat>, next: seq<nat>, from: nat, upper: nat, size: nat)
    requires from <= upper <= from + size <= |was|
    requires SameOutside(start, was, from, from + size) && SameOutside(was, next, from, upper)
    ensures SameOutside(start, next, from, from + size)
    ensures was[from..from + size][..upper - from] == was[from..upper]
    ensures next[from..from + size][..upper - from] == next[from..upper]
    ensures next[from..from + size][upper - from..] == was[from..from + size][upper - from..]
  {
    assert next[upper..from + size] == next[upper..][..from + size - upper];
    assert was[upper..from + size] == was[upper..][..from + size - upper];
    assert next[from + size..] == next[upper..][from + size - upper..];
    assert was[from + size..] == was[upper..][from + size - upper..];
  }

  ghost predicate Sorting(before: Comparison, start: seq<nat>, now: seq<nat>, from: nat, size: nat, upper: nat, sorted: bool) {
    && from <= upper <= from + size
    && SameOutside(start, now, from, from + size)
    && MidSort(before, start[from..from + size], now[from..from + size], upper - from, sorted)
  }

  lemma SortingStep(before: Comparison, start: seq<nat>, was: seq<nat>, next: seq<nat>, from: nat, size: nat, upper: nat, sorted: bool)
    requires Sorting(before, start, was, from, size, upper, false)
    requires SameOutside(was, next, from, upper)
    requires next[from..upper] == Pass(before, was[from..upper])
    requires sorted <==> NoSwap(before, was[from..upper])
    ensures upper > from && Sorting(before, start, next, from, size, upper - 1, sorted)
  {
    WindowAfterPass(start, was, next, from, upper, size);
    SortStep(before, start[from..from + size], was[from..from + size], upper - from, next[from..from + size], sorted);
  }

  method SortOnce(before: Comparison, slots: array<nat>, from: nat, size: nat, upper: nat, ghost start: seq<nat>) returns (sorted: bool)
    requires Sorting(before, start, slots[..], from, size, upper, false)
    modifies slots
    ensures upper > from && Sorting(before, start, slots[..], from, size, upper - 1, sorted)
  {
    ghost var was := slots[..];
    sorted := BubbleOnce(before, slots, from, upper);
    SortingStep(before, start, was, slots[..], from, size, upper, sorted);
  }

  lemma SortingStarts(before: Comparison, start: seq<nat>, from: nat, size: nat)
    requires size > 0 && from + size <= |start|
    ensures Sorting(before, start, start, from, size, from + size, false)
  {
    assert start[from..from + size][..size] == start[from..from + size];
  }

  /** operator()(bin_sort_bins_tag): ends after at most as many passes as the bin has rows. */
  method SortBin(before: Comparison, slots: array<nat>, from: nat, size: nat) returns (passes: nat)
    requires size > 0 ==> from + size <= slots.Length
    modifies slots
    ensures passes <= size
    ensures size == 0 ==> slots[..] == old(slots[..])
    ensures size > 0 ==> && SameOutside(old(slots[..]), slots[..], from, from + size)
                         && slots[from..from + size] == Bubble(before, old(slots[from..from + size]))
  {
    passes := 0;
    if size <= 1 { return; }
    var upperBound := from + size;
    ghost var start := slots[..];
    SortingStarts(before, start, from, size);
    var sorted := false;
    while !sorted
      invariant from <= upperBound && Sorting(before, start, slots[..], from, size, upperBound, sorted)
      invariant passes == from + size - upperBound
      decreases upperBound - from
    {
      sorted := SortOnce(before, slots, from, size, upperBound, start);
      upperBound := upperBound - 1;
      passes := passes + 1;
    }
  }
}
