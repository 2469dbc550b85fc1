/**
 * The counting, scanning and binning steps of Kokkos::BinSort, on sequences.
 *
 * A kernel body runs once for every row j of the range; `order` is the sequence in
 * which the atomic increments of one parallel pass happen, so it is any permutation
 * of the range.  `bins[j]` is the bin of row j.
 */
module BinOrder {
  import opened BubbleBin
  import opened Counting

  ghost predicate IsIn(bins: seq<int>, j: nat, b: int) {
    j < |bins| && bins[j] == b
  }

  /** The rows of bin `b`, in the order their increments happened. */
  ghost function Group(order: seq<nat>, bins: seq<int>, b: int): (g: seq<nat>)
    ensures |g| <= |order|
  {
    if order == [] then []
    else
      var n := |order| - 1;
      Group(order[..n], bins, b) + (if IsIn(bins, order[n], b) then [order[n]] else [])
  }

  /** The rows of every bin. */
  ghost function Groups(order: seq<nat>, bins: seq<int>, n: nat): (groups: seq<seq<nat>>)
    ensures |groups| == n
    ensures forall b :: 0 <= b < n ==> groups[b] == Group(order, bins, b)
  {
    seq(n, b requires 0 <= b => Group(order, bins, b))
  }

  /** The bins one after the other. */
  ghost function Flat(groups: seq<seq<nat>>): seq<nat> {
    if groups == [] then [] else Flat(groups[..|groups| - 1]) + groups[|groups| - 1]
  }

  ghost function Tallies(order: seq<nat>, bins: seq<int>, n: nat): (t: seq<nat>)
    ensures |t| == n
    ensures forall b :: 0 <= b < n ==> t[b] == |Group(order, bins, b)|
  {
    seq(n, b requires 0 <= b => |Group(order, bins, b)|)
  }

  ghost predicate InBins(order: seq<nat>, bins: seq<int>, n: nat) {
    forall i :: 0 <= i < |order| ==> order[i] < |bins| && 0 <= bins[order[i]] < n
  }

  lemma {:induction false} SumMonotone(counts: seq<nat>, i: nat, j: nat)
    requires i <= j <= |counts|
    ensures Sum(counts[..i]) <= Sum(counts[..j])
    ensures i < j ==> Sum(counts[..i]) + counts[i] <= Sum(counts[..j])
  {
    if i < j {
      SumStep(counts, j - 1);
      SumMonotone(counts, i, j - 1);
    }
  }

  // ------------------------------------------------------------------ groups

  lemma GroupStep(order: seq<nat>, t: nat, bins: seq<int>, b: int)
    requires t < |order|
    ensures Group(order[..t + 1], bins, b)
         == Group(order[..t], bins, b) + (if IsIn(bins, order[t], b) then [order[t]] else [])
  {
    assert order[..t + 1][..t] == order[..t];
  }

  lemma {:induction false} GroupGrows(order: seq<nat>, t: nat, bins: seq<int>, b: int)
    requires t <= |order|
    ensures |Group(order[..t], bins, b)| <= |Group(order, bins, b)|
    decreases |order| - t
  {
    if t < |order| {
      GroupStep(order, t, bins, b);
      GroupGrows(order, t + 1, bins, b);
    } else {
      assert order[..t] == order;
    }
  }

  lemma {:induction false} GroupConcat(u: seq<nat>, v: seq<nat>, bins: seq<int>, b: int)
    ensures Group(u + v, bins, b) == Group(u, bins, b) + Group(v, bins, b)
  {
    if v == [] {
      assert u + v == u;
    } else {
      var n := |v| - 1;
      assert (u + v)[..|u| + n] == u + v[..n];
      GroupConcat(u, v[..n], bins, b);
    }
  }

  lemma MultisetWithout(p: seq<nat>, u: seq<nat>, x: nat, v: seq<nat>)
    requires multiset(p + [x]) == multiset(u + ([x] + v))
    ensures multiset(p) == multiset(u + v)
  {
    assert multiset(p + [x]) == multiset(p) + multiset([x]);
    assert multiset(u + ([x] + v)) == multiset(u) + (multiset([x]) + multiset(v));
    forall y: nat ensures multiset(p)[y] == multiset(u + v)[y] {
      assert multiset(p + [x])[y] == multiset(u + ([x] + v))[y];
    }
    SameMultiset(multiset(p), multiset(u + v));
  }

  /** The size of a bin does not depend on the order of the increments. */
  lemma {:induction false} TallyOrderFree(p: seq<nat>, q: seq<nat>, bins: seq<int>, b: int)
    requires multiset(p) == multiset(q)
    ensures |Group(p, bins, b)| == |Group(q, bins, b)|
  {
    if p == [] {
      assert q == [] by { assert |multiset(q)| == |q|; }
    } else {
      var n := |p| - 1;
      var x := p[n];
      assert p == p[..n] + [x];
      assert x in multiset(p);
      var k :| 0 <= k < |q| && q[k] == x;
      var u, v := q[..k], q[k + 1..];
      assert q == u + ([x] + v);
      MultisetWithout(p[..n], u, x, v);
      TallyOrderFree(p[..n], u + v, bins, b);
      GroupConcat(u, [x] + v, bins, b);
      GroupConcat([x], v, bins, b);
      GroupConcat(u, v, bins, b);
      GroupConcat(p[..n], [x], bins, b);
    }
  }

  lemma {:induction false} GroupCounts(order: seq<nat>, bins: seq<int>, b: int, j: nat)
    ensures multiset(Group(order, bins, b))[j] == if IsIn(bins, j, b) then multiset(order)[j] else 0
  {
    if order != [] {
      var n := |order| - 1;
      assert order == order[..n] + [order[n]];
      GroupCounts(order[..n], bins, b, j);
    }
  }

  lemma {:induction false} GroupedCounts(order: seq<nat>, bins: seq<int>, n: nat, j: nat)
    ensures multiset(Flat(Groups(order, bins, n)))[j]
         == if j < |bins| && 0 <= bins[j] < n then multiset(order)[j] else 0
  {
    if n > 0 {
      GroupedCounts(order, bins, n - 1, j);
      GroupCounts(order, bins, n - 1, j);
      FlatStep(Groups(order, bins, n), j);
      assert Groups(order, bins, n)[..n - 1] == Groups(order, bins, n - 1);
    }
  }

  lemma FlatStep(groups: seq<seq<nat>>, j: nat)
    requires groups != []
    ensures multiset(Flat(groups))[j]
         == multiset(Flat(groups[..|groups| - 1]))[j] + multiset(groups[|groups| - 1])[j]
  {
  }

  /** Grouping loses no row and invents none. */
  lemma GroupedPermutes(order: seq<nat>, bins: seq<int>, n: nat)
    requires InBins(order, bins, n)
    ensures multiset(Flat(Groups(order, bins, n))) == multiset(order)
  {
    forall j: nat ensures multiset(Flat(Groups(order, bins, n)))[j] == multiset(order)[j] {
      GroupedCounts(order, bins, n, j);
      if multiset(order)[j] > 0 {
        assert j in multiset(order);
        assert j in order;
      }
    }
    SameMultiset(multiset(Flat(Groups(order, bins, n))), multiset(order));
  }

  lemma SameMultiset(a: multiset<nat>, b: multiset<nat>)
    requires forall j: nat :: a[j] == b[j]
    ensures a == b
  {
  }

  lemma GroupMembers(order: seq<nat>, bins: seq<int>, b: int, i: nat)
    requires i < |Group(order, bins, b)|
    ensures IsIn(bins, Group(order, bins, b)[i], b)
  {
    var j := Group(order, bins, b)[i];
    assert j in multiset(Group(order, bins, b));
    GroupCounts(order, bins, b, j);
  }

  // ------------------------------------------------------------------ layout

  /** What the scan leaves in bin_offsets for bin counts `counts`. */
  ghost predicate Scanned(offsets: seq<nat>, counts: seq<nat>) {
    && |offsets| == |counts|
    && forall b :: 0 <= b < |counts| ==> offsets[b] == Sum(counts[..b])
  }

  /** Every bin lies inside the permutation vector. */
  ghost predicate InBounds(offsets: seq<nat>, tallies: seq<nat>, size: nat)
    requires |offsets| == |tallies|
  {
    forall b :: 0 <= b < |tallies| && tallies[b] > 0 ==> offsets[b] + tallies[b] <= size
  }

  /** Every bin that receives rows starts where the bins before it end. */
  ghost predicate RightStarts(offsets: seq<nat>, tallies: seq<nat>) {
    && |offsets| == |tallies|
    && forall b :: 0 <= b < |tallies| && tallies[b] > 0 ==> offsets[b] == Sum(tallies[..b])
  }

  /** No bin before a bin that receives rows starts with a leftover count. */
  ghost predicate NoLeftover(before: seq<nat>, tallies: seq<nat>)
    requires |before| == |tallies|
  {
    forall b :: 0 <= b < |tallies| && tallies[b] > 0 ==> ClearBelow(before, b)
  }

  ghost predicate ClearBelow(before: seq<nat>, b: nat)
    requires b <= |before|
  {
    forall c :: 0 <= c < b ==> before[c] == 0
  }

  /** The counting pass adds the tallies to whatever the counts held before. */
  ghost function Added(before: seq<nat>, tallies: seq<nat>): (sum: seq<nat>)
    requires |before| == |tallies|
    ensures |sum| == |tallies|
    ensures forall b :: 0 <= b < |sum| ==> sum[b] == before[b] + tallies[b]
  {
    seq(|tallies|, b requires 0 <= b < |tallies| => before[b] + tallies[b])
  }

  lemma {:induction false} SumOfAdded(before: seq<nat>, tallies: seq<nat>, k: nat)
    requires |before| == |tallies| && k <= |tallies|
    ensures Sum(Added(before, tallies)[..k]) == Sum(before[..k]) + Sum(tallies[..k])
  {
    if k > 0 {
      SumOfAdded(before, tallies, k - 1);
      SumStep(Added(before, tallies), k - 1);
      SumStep(before, k - 1);
      SumStep(tallies, k - 1);
    }
  }

  lemma {:induction false} SumOfZeros(counts: seq<nat>, k: nat)
    requires k <= |counts|
    ensures Sum(counts[..k]) == 0 <==> ClearBelow(counts, k)
  {
    if k > 0 {
      SumStep(counts, k - 1);
      SumOfZeros(counts, k - 1);
    }
  }

  lemma {:induction false} EmptyTail(tallies: seq<nat>, b: nat)
    requires b <= |tallies|
    requires forall c :: b <= c < |tallies| ==> tallies[c] == 0
    ensures Sum(tallies) == Sum(tallies[..b])
    decreases |tallies| - b
  {
    if b < |tallies| {
      SumStep(tallies, b);
      EmptyTail(tallies, b + 1);
    } else {
      assert tallies[..b] == tallies;
    }
  }

  lemma {:induction false} LastNonEmpty(tallies: seq<nat>, b: nat) returns (last: nat)
    requires b < |tallies| && tallies[b] > 0
    ensures b <= last < |tallies| && tallies[last] > 0
    ensures Sum(tallies) == Sum(tallies[..last]) + tallies[last]
    decreases |tallies| - b
  {
    if c :| b < c < |tallies| && tallies[c] > 0 {
      last := LastNonEmpty(tallies, c);
    } else {
      last := b;
      SumStep(tallies, b);
      EmptyTail(tallies, b + 1);
    }
  }

  /**
   * create_permute_vector() does not zero the counts before it counts.  Its writes stay
   * inside sort_order exactly when no bin before a bin that receives rows still held a
   * count, and then every bin starts where the bins before it end.
   */
  lemma LeftoverCounts(before: seq<nat>, tallies: seq<nat>, offsets: seq<nat>)
    requires |before| == |tallies|
    requires Scanned(offsets, Added(before, tallies))
    ensures InBounds(offsets, tallies, Sum(tallies)) <==> NoLeftover(before, tallies)
    ensures NoLeftover(before, tallies) ==> RightStarts(offsets, tallies)
  {
    if NoLeftover(before, tallies) {
      forall b | 0 <= b < |tallies| && tallies[b] > 0 ensures offsets[b] == Sum(tallies[..b]) {
        CleanStart(before, tallies, offsets, b);
      }
      StartsInBounds(offsets, tallies);
    } else {
      var b :| 0 <= b < |tallies| && tallies[b] > 0 && !ClearBelow(before, b);
      WritesPastTheEnd(before, tallies, offsets, b);
    }
  }

  lemma CleanStart(before: seq<nat>, tallies: seq<nat>, offsets: seq<nat>, b: nat)
    requires |before| == |tallies| && b < |tallies|
    requires Scanned(offsets, Added(before, tallies))
    requires ClearBelow(before, b)
    ensures offsets[b] == Sum(tallies[..b])
  {
    SumOfAdded(before, tallies, b);
    SumOfZeros(before, b);
  }

  lemma WritesPastTheEnd(before: seq<nat>, tallies: seq<nat>, offsets: seq<nat>, b: nat)
    requires |before| == |tallies| && b < |tallies| && tallies[b] > 0 && !ClearBelow(before, b)
    requires Scanned(offsets, Added(before, tallies))
    ensures !InBounds(offsets, tallies, Sum(tallies))
  {
    var last := LastNonEmpty(tallies, b);
    SumOfAdded(before, tallies, last);
    SumOfZeros(before, last);
    assert tallies[last] > 0 && offsets[last] + tallies[last] > Sum(tallies);
  }

  lemma StartsInBounds(offsets: seq<nat>, tallies: seq<nat>)
    requires RightStarts(offsets, tallies)
    ensures InBounds(offsets, tallies, Sum(tallies))
  {
    forall b | 0 <= b < |tallies| && tallies[b] > 0 ensures offsets[b] + tallies[b] <= Sum(tallies) {
      SumMonotone(tallies, b, |tallies|);
      assert tallies[..|tallies|] == tallies;
    }
  }

  /**
   * The counts a call leaves behind are the tallies of its keys.  Calling it again on the
   * same keys stays in bounds exactly when all rows share one bin.
   */
  lemma CalledAgain(tallies: seq<nat>, offsets: seq<nat>)
    requires Scanned(offsets, Added(tallies, tallies))
    ensures InBounds(offsets, tallies, Sum(tallies)) <==>
            forall b :: 0 <= b < |tallies| && tallies[b] > 0 ==> ClearBelow(tallies, b)
  {
    LeftoverCounts(tallies, tallies, offsets);
  }

  // ------------------------------------------------------------------ binning

  /** The state of the binning pass once the increments of `done` have happened. */
  ghost predicate Placed(slots: seq<nat>, offsets: seq<nat>, counts: seq<nat>, done: seq<nat>, bins: seq<int>) {
    && |offsets| == |counts|
    && forall b :: 0 <= b < |counts| ==> BinPlaced(slots, offsets[b], counts[b], Group(done, bins, b))
  }

  ghost predicate BinPlaced(slots: seq<nat>, offset: nat, count: nat, group: seq<nat>) {
    && count == |group|
    && (count > 0 ==> offset + count <= |slots| && slots[offset..offset + count] == group)
  }

  /** The bins that receive rows do not overlap. */
  ghost predicate Apart(offsets: seq<nat>, tallies: seq<nat>) {
    && |offsets| == |tallies|
    && forall b, c :: 0 <= b < c < |tallies| && tallies[b] > 0 && tallies[c] > 0 ==> offsets[b] + tallies[b] <= offsets[c]
  }

  lemma LayoutApart(tallies: seq<nat>, offsets: seq<nat>)
    requires RightStarts(offsets, tallies)
    ensures Apart(offsets, tallies)
  {
    forall b, c | 0 <= b < c < |tallies| && tallies[b] > 0 && tallies[c] > 0
      ensures offsets[b] + tallies[b] <= offsets[c]
    {
      SumMonotone(tallies, b, c);
    }
  }

  /** One body of the binning pass: take a ticket in the row's bin and write the row there. */
  lemma PlaceOne(slots: seq<nat>, offsets: seq<nat>, counts: seq<nat>, order: seq<nat>, t: nat, bins: seq<int>)
    requires t < |order| && InBins(order, bins, |counts|)
    requires Placed(slots, offsets, counts, order[..t], bins)
    requires Apart(offsets, Tallies(order, bins, |counts|)) && InBounds(offsets, Tallies(order, bins, |counts|), |slots|)
    ensures var b := bins[order[t]];
            && offsets[b] + counts[b] < |slots|
            && Placed(slots[offsets[b] + counts[b] := order[t]], offsets, counts[b := counts[b] + 1], order[..t + 1], bins)
  {
    TicketFits(slots, offsets, counts, order, t, bins, bins[order[t]]);
    PlaceInBins(slots, offsets, counts, order, t, bins);
  }

  lemma PlaceInBins(slots: seq<nat>, offsets: seq<nat>, counts: seq<nat>, order: seq<nat>, t: nat, bins: seq<int>)
    requires t < |order| && order[t] < |bins| && 0 <= bins[order[t]] < |counts|
    requires Placed(slots, offsets, counts, order[..t], bins) && Apart(offsets, Tallies(order, bins, |counts|))
    requires var b := bins[order[t]];
             counts[b] < Tallies(order, bins, |counts|)[b] && offsets[b] + counts[b] < |slots|
    ensures var b := bins[order[t]];
            Placed(slots[offsets[b] + counts[b] := order[t]], offsets, counts[b := counts[b] + 1], order[..t + 1], bins)
  {
    var b := bins[order[t]];
    var slots', counts' := slots[offsets[b] + counts[b] := order[t]], counts[b := counts[b] + 1];
    forall c | 0 <= c < |counts|
      ensures BinPlaced(slots', offsets[c], counts'[c], Group(order[..t + 1], bins, c))
    {
      PlaceInBin(slots, offsets, counts, order, t, bins, c);
    }
  }

  /** What the write does to bin c. */
  lemma PlaceInBin(slots: seq<nat>, offsets: seq<nat>, counts: seq<nat>, order: seq<nat>, t: nat, bins: seq<int>, c: nat)
    requires t < |order| && order[t] < |bins| && 0 <= bins[order[t]] < |counts| && c < |counts| == |offsets|
    requires BinPlaced(slots, offsets[c], counts[c], Group(order[..t], bins, c))
    requires Apart(offsets, Tallies(order, bins, |counts|))
    requires var b := bins[order[t]];
             counts[b] < Tallies(order, bins, |counts|)[b] && offsets[b] + counts[b] < |slots|
    ensures var b := bins[order[t]];
            BinPlaced(slots[offsets[b] + counts[b] := order[t]], offsets[c], counts[b := counts[b] + 1][c], Group(order[..t + 1], bins, c))
  {
    var b := bins[order[t]];
    GroupStep(order, t, bins, c);
    if c == b {
      OwnBin(slots, offsets[b], counts[b], Group(order[..t], bins, b), order[t]);
    } else {
      TicketElsewhere(offsets, counts, order, t, bins, b, c);
      OtherBin(slots, offsets[b] + counts[b], order[t], offsets[c], counts[c], Group(order[..t], bins, c));
    }
  }

  /** The next ticket of bin b lies outside the part of bin c that is filled. */
  lemma TicketElsewhere(offsets: seq<nat>, counts: seq<nat>, order: seq<nat>, t: nat, bins: seq<int>, b: nat, c: nat)
    requires t < |order| && b < |counts| && c < |counts| && b != c && |offsets| == |counts|
    requires Apart(offsets, Tallies(order, bins, |counts|))
    requires counts[b] < Tallies(order, bins, |counts|)[b]
    requires counts[c] == |Group(order[..t], bins, c)|
    ensures counts[c] == 0 || offsets[b] + counts[b] < offsets[c] || offsets[c] + counts[c] <= offsets[b] + counts[b]
  {
    GroupGrows(order, t, bins, c);
  }

  lemma TicketFits(slots: seq<nat>, offsets: seq<nat>, counts: seq<nat>, order: seq<nat>, t: nat, bins: seq<int>, b: nat)
    requires t < |order| && b < |counts| && IsIn(bins, order[t], b)
    requires Placed(slots, offsets, counts, order[..t], bins)
    requires InBounds(offsets, Tallies(order, bins, |counts|), |slots|)
    ensures counts[b] < Tallies(order, bins, |counts|)[b]
    ensures offsets[b] + counts[b] < |slots|
  {
    GroupStep(order, t, bins, b);
    GroupGrows(order, t + 1, bins, b);
    assert BinPlaced(slots, offsets[b], counts[b], Group(order[..t], bins, b));
  }

  lemma OwnBin(slots: seq<nat>, offset: nat, count: nat, group: seq<nat>, j: nat)
    requires BinPlaced(slots, offset, count, group) && offset + count < |slots|
    ensures BinPlaced(slots[offset + count := j], offset, count + 1, group + [j])
  {
  }

  lemma OtherBin(slots: seq<nat>, at: nat, j: nat, offset: nat, count: nat, group: seq<nat>)
    requires BinPlaced(slots, offset, count, group) && at < |slots|
    requires count == 0 || at < offset || offset + count <= at
    ensures BinPlaced(slots[at := j], offset, count, group)
  {
    if count > 0 {
      KeepsWindow(slots, at, j, offset, count);
    }
  }

  lemma KeepsWindow(slots: seq<nat>, at: nat, j: nat, from: nat, size: nat)
    requires at < |slots| && from + size <= |slots|
    requires at < from || from + size <= at
    ensures slots[at := j][from..from + size] == slots[from..from + size]
  {
  }

  // ------------------------------------------------------------------ the whole vector

  /** Every bin holds the rows listed for it. */
  ghost predicate Holds(slots: seq<nat>, offsets: seq<nat>, groups: seq<seq<nat>>) {
    && |offsets| == |groups|
    && forall b :: 0 <= b < |groups| ==> BinPlaced(slots, offsets[b], |groups[b]|, groups[b])
  }

  ghost function Lengths(groups: seq<seq<nat>>): (l: seq<nat>)
    ensures |l| == |groups|
    ensures forall b :: 0 <= b < |groups| ==> l[b] == |groups[b]|
  {
    seq(|groups|, b requires 0 <= b < |groups| => |groups[b]|)
  }

  lemma {:induction false} FlatLength(groups: seq<seq<nat>>, b: nat)
    requires b <= |groups|
    ensures |Flat(groups[..b])| == Sum(Lengths(groups)[..b])
  {
    if b > 0 {
      SumStep(Lengths(groups), b - 1);
      FlatLength(groups, b - 1);
      assert groups[..b][..b - 1] == groups[..b - 1];
    }
  }

  lemma {:induction false} HoldsPrefix(slots: seq<nat>, offsets: seq<nat>, groups: seq<seq<nat>>, b: nat)
    requires b <= |groups|
    requires Holds(slots, offsets, groups) && RightStarts(offsets, Lengths(groups))
    ensures |Flat(groups[..b])| <= |slots|
    ensures slots[..|Flat(groups[..b])|] == Flat(groups[..b])
  {
    if b > 0 {
      HoldsPrefix(slots, offsets, groups, b - 1);
      FlatLength(groups, b - 1);
      assert groups[..b][..b - 1] == groups[..b - 1];
      assert BinPlaced(slots, offsets[b - 1], |groups[b - 1]|, groups[b - 1]);
      JoinWindows(slots, |Flat(groups[..b - 1])|, Flat(groups[..b - 1]), groups[b - 1]);
    }
  }

  /** The permutation vector is its bins one after the other. */
  lemma HoldsIsFlat(slots: seq<nat>, offsets: seq<nat>, groups: seq<seq<nat>>)
    requires Holds(slots, offsets, groups) && RightStarts(offsets, Lengths(groups))
    requires |slots| == Sum(Lengths(groups))
    ensures slots == Flat(groups)
  {
    HoldsPrefix(slots, offsets, groups, |groups|);
    FlatLength(groups, |groups|);
    assert groups[..|groups|] == groups && Lengths(groups)[..|groups|] == Lengths(groups);
  }

  lemma JoinWindows(slots: seq<nat>, from: nat, left: seq<nat>, right: seq<nat>)
    requires from <= |slots| && from == |left| && slots[..from] == left
    requires right != [] ==> from + |right| <= |slots| && slots[from..from + |right|] == right
    ensures |left + right| <= |slots|
    ensures slots[..|left + right|] == left + right
  {
    if right != [] {
      assert slots[..from + |right|] == slots[..from] + slots[from..from + |right|];
    }
  }

  // ------------------------------------------------------------------ sorting the bins

  ghost function AllSorted(before: Comparison, groups: seq<seq<nat>>): (sorted: seq<seq<nat>>)
    ensures |sorted| == |groups|
    ensures forall b :: 0 <= b < |groups| ==> sorted[b] == Bubble(before, groups[b])
  {
    seq(|groups|, b requires 0 <= b < |groups| => Bubble(before, groups[b]))
  }

  lemma {:induction false} SortedPermutes(before: Comparison, groups: seq<seq<nat>>)
    ensures multiset(Flat(AllSorted(before, groups))) == multiset(Flat(groups))
  {
    if groups != [] {
      var n := |groups| - 1;
      SortedPermutes(before, groups[..n]);
      BubblePermutes(before, groups[n]);
      assert AllSorted(before, groups)[..n] == AllSorted(before, groups[..n]);
    }
  }

  /** No row of a later bin precedes a row of an earlier one. */
  ghost predicate BinsAscend(before: Comparison, groups: seq<seq<nat>>) {
    forall b, c, i, j :: 0 <= b < c < |groups| && 0 <= i < |groups[b]| && 0 <= j < |groups[c]| ==>
      !before(groups[c][j], groups[b][i])
  }

  /** Where in which bin the i-th row of the vector stands. */
  lemma {:induction false} FlatAt(groups: seq<seq<nat>>, i: nat) returns (b: nat, k: nat)
    requires i < |Flat(groups)|
    ensures b < |groups| && k < |groups[b]| && Flat(groups)[i] == groups[b][k]
  {
    var n := |groups| - 1;
    if i < |Flat(groups[..n])| {
      b, k := FlatAt(groups[..n], i);
    } else {
      b, k := n, i - |Flat(groups[..n])|;
    }
  }

  lemma {:induction false} FlatOrdered(before: Comparison, groups: seq<seq<nat>>)
    requires forall b :: 0 <= b < |groups| ==> Ordered(before, groups[b])
    requires BinsAscend(before, groups)
    ensures Ordered(before, Flat(groups))
  {
    if groups != [] {
      var n := |groups| - 1;
      var front := Flat(groups[..n]);
      FlatOrdered(before, groups[..n]);
      assert Ordered(before, groups[n]);
      forall i, j | 0 <= i < |front| && 0 <= j < |groups[n]| ensures !before(groups[n][j], front[i]) {
        var b, k := FlatAt(groups[..n], i);
      }
      OrderedConcat(before, front, groups[n]);
    }
  }

  lemma OrderedConcat(before: Comparison, r: seq<nat>, s: seq<nat>)
    requires Ordered(before, r) && Ordered(before, s)
    requires forall i, j :: 0 <= i < |r| && 0 <= j < |s| ==> !before(s[j], r[i])
    ensures Ordered(before, r + s)
  {
  }

  /** Bin b stands right after the bins before it. */
  lemma {:induction false} FlatWindow(groups: seq<seq<nat>>, b: nat, k: nat)
    requires b < |groups| && k < |groups[b]|
    ensures Sum(Lengths(groups)[..b]) + k < |Flat(groups)|
    ensures Flat(groups)[Sum(Lengths(groups)[..b]) + k] == groups[b][k]
  {
    var n := |groups| - 1;
    FlatLength(groups, b);
    if b < n {
      FlatWindow(groups[..n], b, k);
      assert Lengths(groups[..n])[..b] == Lengths(groups)[..b];
    }
  }
}
