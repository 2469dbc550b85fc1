/**
 * Kokkos::BinSort with the one-dimensional binning operator, and Kokkos::sort over a range.
 *
 * Keys and the bin arithmetic are exact reals.  Every parallel pass takes the order in
 * which its kernel bodies take effect as an argument, so a contract holds for all orders.
 */
module BinSort {
  import opened BubbleBin
  import opened BinOrder
  import opened Counting

  // ------------------------------------------------------------------ BinOp1D

  /** A C++ conversion to int: rounds toward zero. */
  function Truncate(x: real): int {
    if x >= 0.0 then x.Floor else -((-x).Floor)
  }

  datatype BinOp1D = BinOp1D(maxBins: nat, mul: real, min: real) {
    function Bin(key: real): int {
      Truncate(mul * (key - min))
    }

    ghost function Bins(keys: seq<real>): (bins: seq<int>)
      ensures |bins| == |keys|
      ensures forall j :: 0 <= j < |keys| ==> bins[j] == Bin(keys[j])
    {
      seq(|keys|, j requires 0 <= j < |keys| => Bin(keys[j]))
    }
  }

  function MakeBinOp(bins: nat, min: real, max: real): BinOp1D
    requires min != max
  {
    BinOp1D(bins + 1, bins as real / (max - min), min)
  }

  lemma ScaleMonotone(mul: real, x: real, y: real)
    requires mul >= 0.0 && x <= y
    ensures mul * x <= mul * y
  {
  }

  lemma TruncateMonotone(x: real, y: real)
    requires 0.0 <= x <= y
    ensures 0 <= Truncate(x) <= Truncate(y)
  {
  }

  lemma ScaledBins(bins: nat, mul: real, width: real, x: real, y: real)
    requires mul >= 0.0 && mul * width == bins as real && 0.0 <= x <= y <= width
    ensures 0 <= Truncate(mul * x) <= Truncate(mul * y) <= bins
  {
    ScaleMonotone(mul, 0.0, x);
    ScaleMonotone(mul, x, y);
    ScaleMonotone(mul, y, width);
    TruncateMonotone(mul * x, mul * y);
    TruncateMonotone(mul * y, bins as real);
  }

  lemma ScaledToBins(bins: nat, width: real)
    requires width > 0.0
    ensures bins as real / width >= 0.0
    ensures bins as real / width * width == bins as real
  {
  }

  lemma BinsBetween(op: BinOp1D, bins: nat, width: real, x: real, y: real)
    requires op.mul >= 0.0 && op.mul * width == bins as real
    requires op.min <= x <= y <= op.min + width
    ensures 0 <= op.Bin(x) <= op.Bin(y) <= bins
  {
    var dx, dy := x - op.min, y - op.min;
    ScaledBins(bins, op.mul, width, dx, dy);
    assert op.Bin(x) == Truncate(op.mul * dx);
    assert op.Bin(y) == Truncate(op.mul * dy);
  }

  /** Keys between the extremes get a bin, and a larger key never gets a smaller one. */
  lemma BinIsMonotone(bins: nat, min: real, max: real, x: real, y: real)
    requires min < max && min <= x <= y <= max
    ensures var op := MakeBinOp(bins, min, max);
            0 <= op.Bin(x) <= op.Bin(y) < op.maxBins
  {
    ScaledToBins(bins, max - min);
    BinsBetween(MakeBinOp(bins, min, max), bins, max - min, x, y);
  }

  /** Whole numbers of bin widths. */
  lemma TruncateIs(x: real, b: nat)
    requires x >= 0.0
    ensures Truncate(x) == b <==> b as real <= x < (b + 1) as real
  {
  }

  lemma ScaleCompare(scale: real, width: real, total: real, dx: real, n: real)
    requires width > 0.0 && scale * width == total
    ensures n <= scale * dx <==> n * width <= total * dx
  {
    var d := scale * dx - n;
    assert d * width == total * dx - n * width;
    ScaleMonotone(width, if d >= 0.0 then 0.0 else d, if d >= 0.0 then d else 0.0);
    if d < 0.0 {
      NegativeScaled(d, width);
    }
  }

  lemma NegativeScaled(d: real, width: real)
    requires d < 0.0 && width > 0.0
    ensures d * width < 0.0
  {
  }

  /** A key between the extremes is in the bin that counts the whole bin widths between it and the minimum. */
  lemma BinIs(bins: nat, min: real, max: real, key: real, b: nat)
    requires min < max && min <= key <= max
    ensures MakeBinOp(bins, min, max).Bin(key) == b <==>
              b as real * (max - min) <= bins as real * (key - min) < (b + 1) as real * (max - min)
  {
    var op, width, dx := MakeBinOp(bins, min, max), max - min, key - min;
    ScaledToBins(bins, width);
    ScaleMonotone(op.mul, 0.0, dx);
    TruncateIs(op.mul * dx, b);
    ScaleCompare(op.mul, width, bins as real, dx, b as real);
    ScaleCompare(op.mul, width, bins as real, dx, (b + 1) as real);
  }

  /** Below the minimum the bin number is rounded towards zero as well. */
  lemma BinIsOdd(op: BinOp1D, d: real)
    ensures op.Bin(op.min - d) == -op.Bin(op.min + d)
  {
    assert op.mul * -d == -(op.mul * d);
    assert op.min - d - op.min == -d && op.min + d - op.min == d;
  }

  /** The extremes are in the first and in the last bin. */
  lemma ExtremeBins(bins: nat, min: real, max: real)
    requires min < max
    ensures MakeBinOp(bins, min, max).Bin(min) == 0
    ensures MakeBinOp(bins, min, max).Bin(max) == bins == MakeBinOp(bins, min, max).maxBins - 1
  {
    BinIs(bins, min, max, min, 0);
    BinIs(bins, min, max, max, bins);
  }

  // ------------------------------------------------------------------ the permutation

  function KeyAt(keys: seq<real>, j: nat): real {
    if j < |keys| then keys[j] else 0.0
  }

  /** The comparison of BinOp1D on rows. */
  function Less(keys: seq<real>): Comparison {
    (i: nat, j: nat) => KeyAt(keys, i) < KeyAt(keys, j)
  }

  ghost function Rows(begin: nat, end: nat): (rows: seq<nat>)
    requires begin <= end
    ensures |rows| == end - begin
    ensures forall i :: 0 <= i < |rows| ==> rows[i] == begin + i
  {
    seq(end - begin, i requires 0 <= i => begin + i)
  }

  /** A parallel pass runs one body for every index of its range, in some order. */
  ghost predicate RunsOnce(order: seq<nat>, begin: nat, end: nat) {
    begin <= end && multiset(order) == multiset(Rows(begin, end))
  }

  lemma RunsInRange(order: seq<nat>, begin: nat, end: nat)
    requires RunsOnce(order, begin, end)
    ensures |order| == end - begin
    ensures forall i :: 0 <= i < |order| ==> begin <= order[i] < end
  {
    assert |order| == |multiset(order)| == |multiset(Rows(begin, end))| == end - begin;
    forall i | 0 <= i < |order| ensures begin <= order[i] < end {
      assert order[i] in multiset(order);
      assert order[i] in multiset(Rows(begin, end));
    }
  }

  lemma RunsEveryIndex(order: seq<nat>, begin: nat, end: nat, j: nat)
    requires RunsOnce(order, begin, end) && begin <= j < end
    ensures j in order
  {
    assert Rows(begin, end)[j - begin] == j;
    assert j in multiset(Rows(begin, end));
    assert j in multiset(order);
  }

  ghost predicate KeysFit(keys: seq<real>, op: BinOp1D, begin: nat, end: nat) {
    && begin <= end <= |keys|
    && forall j :: begin <= j < end ==> 0 <= op.Bin(keys[j]) < op.maxBins
  }

  lemma OrderInBins(keys: seq<real>, op: BinOp1D, begin: nat, end: nat, order: seq<nat>)
    requires KeysFit(keys, op, begin, end) && RunsOnce(order, begin, end)
    ensures InBins(order, op.Bins(keys), op.maxBins) && |order| == end - begin
  {
    RunsInRange(order, begin, end);
  }

  /** Different passes see the same bin sizes, whatever their orders. */
  lemma SameTallies(p: seq<nat>, q: seq<nat>, begin: nat, end: nat, bins: seq<int>, n: nat)
    requires RunsOnce(p, begin, end) && RunsOnce(q, begin, end)
    ensures Tallies(p, bins, n) == Tallies(q, bins, n)
  {
    forall b | 0 <= b < n ensures Tallies(p, bins, n)[b] == Tallies(q, bins, n)[b] {
      TallyOrderFree(p, q, bins, b);
    }
  }

  lemma TalliesAreLengths(order: seq<nat>, bins: seq<int>, n: nat)
    ensures Tallies(order, bins, n) == Lengths(Groups(order, bins, n))
  {
  }

  lemma TalliesSum(order: seq<nat>, bins: seq<int>, n: nat)
    requires InBins(order, bins, n)
    ensures Sum(Tallies(order, bins, n)) == |order|
  {
    var groups := Groups(order, bins, n);
    TalliesAreLengths(order, bins, n);
    FlatLength(groups, n);
    GroupedPermutes(order, bins, n);
    assert groups[..n] == groups && Lengths(groups)[..n] == Lengths(groups);
    assert |multiset(Flat(groups))| == |multiset(order)|;
  }

  /** The rows of each bin once a run is over whose binning pass took effect in `order`. */
  ghost function FinalGroups(keys: seq<real>, op: BinOp1D, order: seq<nat>, sorted: bool): (groups: seq<seq<nat>>)
    ensures |groups| == op.maxBins
  {
    var groups := Groups(order, op.Bins(keys), op.maxBins);
    if sorted then AllSorted(Less(keys), groups) else groups
  }

  /** The permutation vector of such a run. */
  ghost function Vector(keys: seq<real>, op: BinOp1D, order: seq<nat>, sorted: bool): seq<nat> {
    Flat(FinalGroups(keys, op, order, sorted))
  }

  /** The vector is a permutation of the range. */
  lemma VectorPermutes(keys: seq<real>, op: BinOp1D, begin: nat, end: nat, order: seq<nat>, sorted: bool)
    requires KeysFit(keys, op, begin, end) && RunsOnce(order, begin, end)
    ensures RunsOnce(Vector(keys, op, order, sorted), begin, end)
  {
    OrderInBins(keys, op, begin, end, order);
    GroupedPermutes(order, op.Bins(keys), op.maxBins);
    SortedPermutes(Less(keys), Groups(order, op.Bins(keys), op.maxBins));
  }

  /** Bin b occupies bin_count(b) places from bin_offsets(b) on, all of them rows of bin b. */
  lemma VectorBins(keys: seq<real>, op: BinOp1D, begin: nat, end: nat, order: seq<nat>, sorted: bool, b: nat, k: nat)
    requires KeysFit(keys, op, begin, end) && RunsOnce(order, begin, end) && b < op.maxBins
    requires k < Tallies(Rows(begin, end), op.Bins(keys), op.maxBins)[b]
    ensures var at := Sum(Tallies(Rows(begin, end), op.Bins(keys), op.maxBins)[..b]) + k;
            && at < |Vector(keys, op, order, sorted)|
            && IsIn(op.Bins(keys), Vector(keys, op, order, sorted)[at], b)
  {
    var final := FinalGroups(keys, op, order, sorted);
    FinalLengths(keys, op, begin, end, order, sorted);
    assert Lengths(final)[b] == |final[b]|;
    FlatWindow(final, b, k);
    FinalMembers(keys, op, order, sorted, b, k);
  }

  lemma FinalLengths(keys: seq<real>, op: BinOp1D, begin: nat, end: nat, order: seq<nat>, sorted: bool)
    requires RunsOnce(order, begin, end)
    ensures Lengths(FinalGroups(keys, op, order, sorted)) == Tallies(Rows(begin, end), op.Bins(keys), op.maxBins)
  {
    var bins, groups := op.Bins(keys), Groups(order, op.Bins(keys), op.maxBins);
    SameTallies(order, Rows(begin, end), begin, end, bins, op.maxBins);
    TalliesAreLengths(order, bins, op.maxBins);
    SortedLengths(Less(keys), groups);
  }

  lemma FinalMembers(keys: seq<real>, op: BinOp1D, order: seq<nat>, sorted: bool, b: nat, k: nat)
    requires b < op.maxBins && k < |FinalGroups(keys, op, order, sorted)[b]|
    ensures IsIn(op.Bins(keys), FinalGroups(keys, op, order, sorted)[b][k], b)
  {
    GroupMembers(order, op.Bins(keys), b, k);
    SortedGroupMembers(keys, op, order, b, k);
  }

  ghost predicate Monotone(keys: seq<real>, op: BinOp1D, begin: nat, end: nat)
    requires begin <= end <= |keys|
  {
    forall i, j :: begin <= i < end && begin <= j < end && keys[i] <= keys[j] ==> op.Bin(keys[i]) <= op.Bin(keys[j])
  }

  ghost predicate NonDecreasing(v: seq<real>) {
    forall i, j :: 0 <= i < j < |v| ==> v[i] <= v[j]
  }

  ghost predicate Gatherable(size: nat, order: seq<nat>, shift: int) {
    forall i :: 0 <= i < |order| ==> 0 <= shift + order[i] < size
  }

  ghost function Gathered<T>(v: seq<T>, order: seq<nat>, shift: int): (g: seq<T>)
    requires Gatherable(|v|, order, shift)
    ensures |g| == |order|
    ensures forall i :: 0 <= i < |g| ==> g[i] == v[shift + order[i]]
  {
    seq(|order|, i requires 0 <= i < |order| => v[shift + order[i]])
  }

  lemma LessIsWeakOrder(keys: seq<real>)
    ensures WeakOrder(Less(keys))
  {
  }

  lemma SortedGroupMembers(keys: seq<real>, op: BinOp1D, order: seq<nat>, b: nat, i: nat)
    requires b < op.maxBins
    requires i < |Group(order, op.Bins(keys), b)|
    ensures var j := Bubble(Less(keys), Group(order, op.Bins(keys), b))[i];
            IsIn(op.Bins(keys), j, b) && j in order
  {
    var group := Group(order, op.Bins(keys), b);
    var j := Bubble(Less(keys), group)[i];
    BubblePermutes(Less(keys), group);
    assert j in multiset(Bubble(Less(keys), group));
    GroupCounts(order, op.Bins(keys), b, j);
    assert j in multiset(order);
  }

  lemma SortedBinsAscend(keys: seq<real>, op: BinOp1D, begin: nat, end: nat, order: seq<nat>)
    requires KeysFit(keys, op, begin, end) && RunsOnce(order, begin, end) && Monotone(keys, op, begin, end)
    ensures BinsAscend(Less(keys), AllSorted(Less(keys), Groups(order, op.Bins(keys), op.maxBins)))
  {
    var groups := AllSorted(Less(keys), Groups(order, op.Bins(keys), op.maxBins));
    RunsInRange(order, begin, end);
    forall b, c, i, j | 0 <= b < c < |groups| && 0 <= i < |groups[b]| && 0 <= j < |groups[c]|
      ensures !Less(keys)(groups[c][j], groups[b][i])
    {
      SortedGroupMembers(keys, op, order, b, i);
      SortedGroupMembers(keys, op, order, c, j);
    }
  }

  /** With sorting inside the bins, gathering the keys along the vector sorts them. */
  lemma VectorSorts(keys: seq<real>, op: BinOp1D, begin: nat, end: nat, order: seq<nat>)
    requires KeysFit(keys, op, begin, end) && RunsOnce(order, begin, end) && Monotone(keys, op, begin, end)
    ensures var vector := Vector(keys, op, order, true);
            && Gatherable(|keys|, vector, 0)
            && NonDecreasing(Gathered(keys, vector, 0))
  {
    var groups := Groups(order, op.Bins(keys), op.maxBins);
    var sorted := AllSorted(Less(keys), groups);
    var vector := Vector(keys, op, order, true);
    LessIsWeakOrder(keys);
    forall b | 0 <= b < |sorted| ensures Ordered(Less(keys), sorted[b]) {
      BubbleSorts(Less(keys), groups[b]);
    }
    SortedBinsAscend(keys, op, begin, end, order);
    FlatOrdered(Less(keys), sorted);
    VectorPermutes(keys, op, begin, end, order, true);
    RunsInRange(vector, begin, end);
    var g := Gathered(keys, vector, 0);
    forall i, j | 0 <= i < j < |g| ensures g[i] <= g[j] {
      assert !Less(keys)(vector[j], vector[i]);
    }
  }

  // ------------------------------------------------------------------ without sorting in the bins

  function BinAt(keys: seq<real>, op: BinOp1D, j: nat): int {
    op.Bin(KeyAt(keys, j))
  }

  /** Rows compared by their bins. */
  function BinLess(keys: seq<real>, op: BinOp1D): Comparison {
    (i: nat, j: nat) => BinAt(keys, op, i) < BinAt(keys, op, j)
  }

  /** With or without sorting inside the bins, the bins of the gathered keys ascend. */
  lemma VectorBinsAscend(keys: seq<real>, op: BinOp1D, begin: nat, end: nat, order: seq<nat>, sorted: bool)
    requires KeysFit(keys, op, begin, end) && RunsOnce(order, begin, end)
    ensures var vector := Vector(keys, op, order, sorted);
            && Gatherable(|keys|, vector, 0)
            && forall i, j :: 0 <= i < j < |vector| ==> op.Bin(Gathered(keys, vector, 0)[i]) <= op.Bin(Gathered(keys, vector, 0)[j])
  {
    var final, vector := FinalGroups(keys, op, order, sorted), Vector(keys, op, order, sorted);
    forall b, i | 0 <= b < |final| && 0 <= i < |final[b]|
      ensures BinAt(keys, op, final[b][i]) == b
    {
      FinalMembers(keys, op, order, sorted, b, i);
    }
    FlatOrdered(BinLess(keys, op), final);
    VectorPermutes(keys, op, begin, end, order, sorted);
    RunsInRange(vector, begin, end);
    forall i, j | 0 <= i < j < |vector|
      ensures op.Bin(Gathered(keys, vector, 0)[i]) <= op.Bin(Gathered(keys, vector, 0)[j])
    {
      assert !BinLess(keys, op)(vector[j], vector[i]);
    }
  }

  lemma BinsTooFar(bins: nat, min: real, max: real, x: real, y: real)
    requires min < max && min <= x <= max && min <= y <= max
    requires MakeBinOp(bins, min, max).Bin(x) <= MakeBinOp(bins, min, max).Bin(y)
    ensures bins as real * (x - min) < bins as real * (y - min) + (max - min)
  {
    BinIsMonotone(bins, min, max, x, x);
    BinIsMonotone(bins, min, max, y, y);
    var b, c := MakeBinOp(bins, min, max).Bin(x), MakeBinOp(bins, min, max).Bin(y);
    BinIs(bins, min, max, x, b);
    BinIs(bins, min, max, y, c);
    WholeWidths(max - min, b, c, bins as real * (x - min), bins as real * (y - min));
  }

  lemma WholeWidths(width: real, b: nat, c: nat, x: real, y: real)
    requires width > 0.0 && b <= c && x < (b + 1) as real * width && c as real * width <= y
    ensures x < y + width
  {
    ScaleMonotone(width, b as real, c as real);
    assert (b + 1) as real * width == b as real * width + width;
  }

  ghost predicate KeysBetween(keys: seq<real>, begin: nat, end: nat, min: real, max: real) {
    begin <= end <= |keys| && forall r :: begin <= r < end ==> min <= keys[r] <= max
  }

  lemma BetweenFits(keys: seq<real>, bins: nat, min: real, max: real, begin: nat, end: nat)
    requires KeysBetween(keys, begin, end, min, max) && min < max
    ensures KeysFit(keys, MakeBinOp(bins, min, max), begin, end)
  {
    forall r | begin <= r < end ensures 0 <= MakeBinOp(bins, min, max).Bin(keys[r]) < MakeBinOp(bins, min, max).maxBins {
      BinIsMonotone(bins, min, max, keys[r], keys[r]);
    }
  }

  lemma GatheredBetween(keys: seq<real>, op: BinOp1D, min: real, max: real, begin: nat, end: nat, order: seq<nat>, sorted: bool)
    requires KeysBetween(keys, begin, end, min, max) && KeysFit(keys, op, begin, end) && RunsOnce(order, begin, end)
    ensures var vector := Vector(keys, op, order, sorted);
            && |vector| == end - begin && Gatherable(|keys|, vector, 0)
            && forall i :: 0 <= i < |vector| ==> min <= Gathered(keys, vector, 0)[i] <= max
  {
    var vector := Vector(keys, op, order, sorted);
    VectorPermutes(keys, op, begin, end, order, sorted);
    RunsInRange(vector, begin, end);
  }

  /** Even without sorting inside the bins no gathered key is a bin width or more above a later one. */
  lemma VectorNearlySorts(keys: seq<real>, bins: nat, min: real, max: real, begin: nat, end: nat, order: seq<nat>, sorted: bool, i: nat, j: nat)
    requires KeysBetween(keys, begin, end, min, max) && min < max && bins > 0 && RunsOnce(order, begin, end)
    requires i < j < end - begin
    ensures var vector := Vector(keys, MakeBinOp(bins, min, max), order, sorted);
            && |vector| == end - begin && Gatherable(|keys|, vector, 0)
            && Gathered(keys, vector, 0)[i] < Gathered(keys, vector, 0)[j] + (max - min) / bins as real
  {
    var op := MakeBinOp(bins, min, max);
    BetweenFits(keys, bins, min, max, begin, end);
    GatheredBetween(keys, op, min, max, begin, end, order, sorted);
    VectorBinsAscend(keys, op, begin, end, order, sorted);
    var g := Gathered(keys, Vector(keys, op, order, sorted), 0);
    CloserThanWidth(bins, min, max, g[i], g[j]);
  }

  lemma CloserThanWidth(bins: nat, min: real, max: real, x: real, y: real)
    requires min < max && bins > 0 && min <= x <= max && min <= y <= max
    requires MakeBinOp(bins, min, max).Bin(x) <= MakeBinOp(bins, min, max).Bin(y)
    ensures x < y + (max - min) / bins as real
  {
    BinsTooFar(bins, min, max, x, y);
    WithinWidth(bins as real, max - min, x, y, min);
  }

  lemma WithinWidth(bins: real, width: real, x: real, y: real, min: real)
    requires bins > 0.0 && bins * (x - min) < bins * (y - min) + width
    ensures x < y + width / bins
  {
    var d := x - y - width / bins;
    assert bins * (width / bins) == width;
    assert bins * d == bins * (x - min) - bins * (y - min) - width;
    if d >= 0.0 {
      ScaleMonotone(bins, 0.0, d);
    }
  }

  // ------------------------------------------------------------------ the class

  /** The orders in which the bodies of the three parallel loops take effect. */
  datatype Schedule = Schedule(counting: seq<nat>, binning: seq<nat>, bins: seq<nat>)

  /** How sort() ends: `Overruns` where the copy back would leave the view. */
  datatype SortResult = Copied | Aborts | Overruns

  class BinSort {
    const keys: array<real>
    const binOp: BinOp1D
    const rangeBegin: nat
    const rangeEnd: nat
    const sortWithinBins: bool
    const binCount: array<nat>
    const binOffsets: array<nat>
    const sortOrder: array<nat>

    ghost predicate Valid() {
      && rangeBegin <= rangeEnd <= keys.Length
      && binCount.Length == binOffsets.Length == binOp.maxBins
      && sortOrder.Length == rangeEnd - rangeBegin
      && binCount != binOffsets && binCount != sortOrder && binOffsets != sortOrder
    }

    ghost predicate Fits()
      requires Valid()
      reads keys
    {
      KeysFit(keys[..], binOp, rangeBegin, rangeEnd)
    }

    ghost predicate Runs(order: seq<nat>) {
      RunsOnce(order, rangeBegin, rangeEnd)
    }

    ghost function RowBins(): seq<int>
      reads keys
    {
      binOp.Bins(keys[..])
    }

    /** How many rows of the range fall in each bin. */
    ghost function BinTallies(): (t: seq<nat>)
      requires Valid()
      reads keys
      ensures |t| == binOp.maxBins
    {
      Tallies(Rows(rangeBegin, rangeEnd), RowBins(), binOp.maxBins)
    }

    constructor (keys: array<real>, rangeBegin: nat, rangeEnd: nat, binOp: BinOp1D, sortWithinBins: bool)
      requires rangeBegin <= rangeEnd <= keys.Length
      ensures Valid()
      ensures this.keys == keys && this.binOp == binOp && this.sortWithinBins == sortWithinBins
      ensures this.rangeBegin == rangeBegin && this.rangeEnd == rangeEnd
      ensures fresh(binCount) && fresh(binOffsets) && fresh(sortOrder)
      ensures forall b :: 0 <= b < binCount.Length ==> binCount[b] == 0
    {
      this.keys, this.binOp, this.sortWithinBins := keys, binOp, sortWithinBins;
      this.rangeBegin, this.rangeEnd := rangeBegin, rangeEnd;
      binCount := new nat[binOp.maxBins](b => 0);
      binOffsets := new nat[binOp.maxBins];
      sortOrder := new nat[rangeEnd - rangeBegin];
    }

    /** The counting pass adds the bin sizes to the counts. */
    method CountRows(order: seq<nat>)
      requires Valid() && Fits() && Runs(order)
      modifies binCount
      ensures binCount[..] == Added(old(binCount[..]), BinTallies())
    {
      OrderInBins(keys[..], binOp, rangeBegin, rangeEnd, order);
      ghost var before := binCount[..];
      ghost var bins := RowBins();
      assert before == Added(before, Tallies(order[..0], bins, binOp.maxBins));
      for t := 0 to |order|
        invariant binCount[..] == Added(before, Tallies(order[..t], bins, binOp.maxBins))
      {
        var bin := binOp.Bin(keys[order[t]]);
        CountStep(before, order, t, bins, binOp.maxBins);
        binCount[bin] := binCount[bin] + 1;
      }
      assert order[..|order|] == order;
      SameTallies(order, Rows(rangeBegin, rangeEnd), rangeBegin, rangeEnd, bins, binOp.maxBins);
    }

    /** The exclusive scan. */
    method ScanCounts()
      requires Valid()
      modifies binOffsets
      ensures Scanned(binOffsets[..], binCount[..])
    {
      var offset := 0;
      for i := 0 to binOp.maxBins
        invariant offset == Sum(binCount[..i])
        invariant forall b :: 0 <= b < i ==> binOffsets[b] == Sum(binCount[..b])
      {
        binOffsets[i] := offset;
        offset := offset + binCount[i];
        SumStep(binCount[..], i);
        assert binCount[..][..i + 1] == binCount[..i + 1] && binCount[..][..i] == binCount[..i];
      }
      forall b | 0 <= b < binOp.maxBins ensures binOffsets[b] == Sum(binCount[..][..b]) {
        assert binCount[..][..b] == binCount[..b];
      }
    }

    method ZeroCounts()
      requires Valid()
      modifies binCount
      ensures forall b :: 0 <= b < binCount.Length ==> binCount[b] == 0
    {
      for b := 0 to binCount.Length
        invariant forall c :: 0 <= c < b ==> binCount[c] == 0
      {
        binCount[b] := 0;
      }
    }

    /** The binning pass: every row takes the next ticket of its bin. */
    method BinRows(order: seq<nat>)
      requires Valid() && Fits() && Runs(order)
      requires forall b :: 0 <= b < binCount.Length ==> binCount[b] == 0
      requires RightStarts(binOffsets[..], BinTallies())
      modifies binCount, sortOrder
      ensures binCount[..] == BinTallies()
      ensures Placed(sortOrder[..], binOffsets[..], binCount[..], order, RowBins())
    {
      OrderInBins(keys[..], binOp, rangeBegin, rangeEnd, order);
      ghost var bins, n := RowBins(), binOp.maxBins;
      SameTallies(order, Rows(rangeBegin, rangeEnd), rangeBegin, rangeEnd, bins, n);
      BinningFits(binOffsets[..], order, bins, n);
      for t := 0 to |order|
        invariant Placed(sortOrder[..], binOffsets[..], binCount[..], order[..t], bins)
      {
        BinOne(order, t, bins);
      }
      assert order[..|order|] == order;
      PlacedCounts(sortOrder[..], binOffsets[..], binCount[..], order, bins);
    }

    method BinOne(order: seq<nat>, t: nat, ghost bins: seq<int>)
      requires Valid() && t < |order| && order[t] < keys.Length
      requires InBins(order, bins, binOp.maxBins) && bins == RowBins()
      requires Placed(sortOrder[..], binOffsets[..], binCount[..], order[..t], bins)
      requires Apart(binOffsets[..], Tallies(order, bins, binOp.maxBins))
      requires InBounds(binOffsets[..], Tallies(order, bins, binOp.maxBins), sortOrder.Length)
      modifies binCount, sortOrder
      ensures Placed(sortOrder[..], binOffsets[..], binCount[..], order[..t + 1], bins)
    {
      ghost var slots, counts := sortOrder[..], binCount[..];
      var bin := binOp.Bin(keys[order[t]]);
      assert bin == bins[order[t]];
      PlaceOne(slots, binOffsets[..], counts, order, t, bins);
      var count := binCount[bin];
      binCount[bin] := count + 1;
      sortOrder[binOffsets[bin] + count] := order[t];
      assert binCount[..] == counts[bin := count + 1];
      assert sortOrder[..] == slots[binOffsets[bin] + count := order[t]];
    }

    /** The sorting pass over the bins. */
    method SortBins(bins: seq<nat>, ghost groups: seq<seq<nat>>)
      requires Valid() && RunsOnce(bins, 0, binOp.maxBins)
      requires Holds(sortOrder[..], binOffsets[..], groups) && binCount[..] == Lengths(groups)
      requires Apart(binOffsets[..], Lengths(groups))
      modifies sortOrder
      ensures Holds(sortOrder[..], binOffsets[..], AllSorted(Less(keys[..]), groups))
    {
      var before := Less(keys[..]);
      RunsInRange(bins, 0, binOp.maxBins);
      assert SortedIn(before, groups, Elements([])) == groups;
      for t := 0 to |bins|
        invariant Holds(sortOrder[..], binOffsets[..], SortedIn(before, groups, Elements(bins[..t])))
      {
        RunsOnlyOnce(bins, 0, binOp.maxBins, t);
        ElementsStep(bins, t);
        SortOneBin(bins[t], before, groups, Elements(bins[..t]));
      }
      assert bins[..|bins|] == bins;
      SortedInAll(before, groups, bins);
    }

    method SortOneBin(b: nat, before: Comparison, ghost groups: seq<seq<nat>>, ghost done: set<nat>)
      requires Valid() && b < binOp.maxBins && b !in done
      requires Holds(sortOrder[..], binOffsets[..], SortedIn(before, groups, done))
      requires binCount[..] == Lengths(groups) && Apart(binOffsets[..], Lengths(groups))
      modifies sortOrder
      ensures Holds(sortOrder[..], binOffsets[..], SortedIn(before, groups, done + {b}))
    {
      ghost var was, held := sortOrder[..], SortedIn(before, groups, done);
      SortedInStep(before, groups, done, b);
      assert binCount[b] == Lengths(groups)[b];
      SortHeldBin(before, b, held);
      RewriteOneBin(was, sortOrder[..], binOffsets[..], held, b, Bubble(before, groups[b]));
    }

    method SortHeldBin(before: Comparison, b: nat, ghost groups: seq<seq<nat>>)
      requires Valid() && b < |groups| && Holds(sortOrder[..], binOffsets[..], groups)
      requires b < binCount.Length && binCount[b] == |groups[b]|
      modifies sortOrder
      ensures Rewritten(old(sortOrder[..]), sortOrder[..], binOffsets[b], Bubble(before, groups[b]))
    {
      assert BinPlaced(sortOrder[..], binOffsets[..][b], |groups[b]|, groups[b]);
      var passes := SortBin(before, sortOrder, binOffsets[b], binCount[b]);
    }

    /**
     * create_permute_vector(): after it the vector lists the rows bin by bin, bin b in
     * sort_order[bin_offsets(b) ..] and bin_count(b) rows long.
     */
    method CreatePermuteVector(schedule: Schedule)
      requires Valid() && Fits()
      requires Runs(schedule.counting) && Runs(schedule.binning) && RunsOnce(schedule.bins, 0, binOp.maxBins)
      requires NoLeftover(binCount[..], BinTallies())
      modifies binCount, binOffsets, sortOrder
      ensures binCount[..] == BinTallies()
      ensures RightStarts(binOffsets[..], BinTallies())
      ensures sortOrder[..] == Vector(keys[..], binOp, schedule.binning, sortWithinBins)
    {
      ghost var before := binCount[..];
      CountRows(schedule.counting);
      ScanCounts();
      LeftoverCounts(before, BinTallies(), binOffsets[..]);
      ZeroCounts();
      BinRows(schedule.binning);
      BinnedGroups(sortOrder[..], binOffsets[..], keys[..], binOp, rangeBegin, rangeEnd, schedule.binning);
      FinishVector(schedule, Groups(schedule.binning, RowBins(), binOp.maxBins));
    }

    method FinishVector(schedule: Schedule, ghost groups: seq<seq<nat>>)
      requires Valid() && RunsOnce(schedule.bins, 0, binOp.maxBins)
      requires groups == Groups(schedule.binning, RowBins(), binOp.maxBins)
      requires Holds(sortOrder[..], binOffsets[..], groups) && binCount[..] == Lengths(groups)
      requires RightStarts(binOffsets[..], Lengths(groups)) && sortOrder.Length == Sum(Lengths(groups))
      modifies sortOrder
      ensures sortOrder[..] == Vector(keys[..], binOp, schedule.binning, sortWithinBins)
    {
      ghost var before := Less(keys[..]);
      if sortWithinBins {
        LayoutApart(Lengths(groups), binOffsets[..]);
        SortBins(schedule.bins, groups);
      }
      SortedLengths(before, groups);
      HoldsIsFlat(sortOrder[..], binOffsets[..], if sortWithinBins then AllSorted(before, groups) else groups);
    }

    /** sort(values, values_range_begin, values_range_end), up to a copy back that would leave the view. */
    method Sort<T>(values: array<T>, valuesBegin: nat, valuesEnd: nat) returns (r: SortResult)
      requires Valid() && Runs(sortOrder[..])
      requires valuesBegin <= valuesEnd <= values.Length
      modifies values
      ensures r.Aborts? <==> valuesEnd - valuesBegin != rangeEnd - rangeBegin
      ensures r.Aborts? ==> values[..] == old(values[..])
      ensures r.Overruns? <==> valuesEnd - valuesBegin == rangeEnd - rangeBegin && !CopyBackFits(values.Length, rangeBegin, rangeEnd)
      ensures r.Copied? ==> Readable(values.Length, old(sortOrder[..]), rangeBegin, rangeEnd, valuesBegin)
      ensures r.Copied? ==> values[..] == CopiedBack(old(values[..]), old(sortOrder[..]), rangeBegin, valuesBegin)
    {
      var len := rangeEnd - rangeBegin;
      if len != valuesEnd - valuesBegin { return Aborts; }
      var was, order := values[..], sortOrder[..];
      RunsInRange(order, rangeBegin, rangeEnd);
      var sorted := seq(len, i requires 0 <= i < len => was[valuesBegin - rangeBegin + order[i]]);
      if len > 0 && rangeEnd > values.Length { return Overruns; }
      for i := 0 to len
        invariant values[..] == Stored(was, rangeBegin, sorted[..i])
      {
        values[i + rangeBegin] := sorted[i];
      }
      assert sorted[..len] == sorted == Gathered(was, order, valuesBegin - rangeBegin);
      r := Copied;
    }
  }

  lemma CountStep(before: seq<nat>, order: seq<nat>, t: nat, bins: seq<int>, n: nat)
    requires t < |order| && |before| == n && InBins(order, bins, n)
    ensures var b := bins[order[t]];
            var counts := Added(before, Tallies(order[..t], bins, n));
            counts[b := counts[b] + 1] == Added(before, Tallies(order[..t + 1], bins, n))
  {
    forall b | 0 <= b < n
      ensures |Group(order[..t + 1], bins, b)| == |Group(order[..t], bins, b)| + (if bins[order[t]] == b then 1 else 0)
    {
      GroupStep(order, t, bins, b);
    }
  }

  lemma BinningFits(offsets: seq<nat>, order: seq<nat>, bins: seq<int>, n: nat)
    requires InBins(order, bins, n) && RightStarts(offsets, Tallies(order, bins, n))
    ensures Apart(offsets, Tallies(order, bins, n))
    ensures InBounds(offsets, Tallies(order, bins, n), |order|)
    ensures forall slots: seq<nat>, counts: seq<nat> ::
              |counts| == n && (forall b :: 0 <= b < n ==> counts[b] == 0) ==> Placed(slots, offsets, counts, order[..0], bins)
  {
    LayoutApart(Tallies(order, bins, n), offsets);
    TalliesSum(order, bins, n);
    StartsInBounds(offsets, Tallies(order, bins, n));
  }

  lemma PlacedCounts(slots: seq<nat>, offsets: seq<nat>, counts: seq<nat>, order: seq<nat>, bins: seq<int>)
    requires Placed(slots, offsets, counts, order, bins)
    ensures counts == Tallies(order, bins, |counts|)
  {
    forall b | 0 <= b < |counts| ensures counts[b] == Tallies(order, bins, |counts|)[b] {
      assert BinPlaced(slots, offsets[b], counts[b], Group(order, bins, b));
    }
  }

  lemma RunsOnlyOnce(order: seq<nat>, begin: nat, end: nat, t: nat)
    requires RunsOnce(order, begin, end) && t < |order|
    ensures order[t] !in order[..t]
  {
    var j := order[t];
    RowsOnce(begin, end, j);
    assert order == order[..t] + ([j] + order[t + 1..]);
    assert multiset(order)[j] == multiset(order[..t])[j] + multiset([j] + order[t + 1..])[j];
    assert j !in multiset(order[..t]);
  }

  lemma {:induction false} RowsOnce(begin: nat, end: nat, j: nat)
    requires begin <= end
    ensures multiset(Rows(begin, end))[j] <= 1
    ensures j >= end ==> multiset(Rows(begin, end))[j] == 0
    decreases end
  {
    if begin < end {
      RowsOnce(begin, end - 1, j);
      assert Rows(begin, end) == Rows(begin, end - 1) + [end - 1];
    }
  }

  /** The rows of one bin were rewritten and nothing else. */
  ghost predicate Rewritten(was: seq<nat>, now: seq<nat>, from: nat, rows: seq<nat>) {
    if rows == [] then now == was
    else SameOutside(was, now, from, from + |rows|) && now[from..from + |rows|] == rows
  }

  lemma RewriteOneBin(was: seq<nat>, now: seq<nat>, offsets: seq<nat>, groups: seq<seq<nat>>, b: nat, rows: seq<nat>)
    requires b < |groups| && |rows| == |groups[b]|
    requires Holds(was, offsets, groups) && Apart(offsets, Lengths(groups))
    requires Rewritten(was, now, offsets[b], rows)
    ensures Holds(now, offsets, groups[b := rows])
  {
    forall c | 0 <= c < |groups| && c != b ensures BinPlaced(now, offsets[c], |groups[c]|, groups[c]) {
      assert BinPlaced(was, offsets[c], |groups[c]|, groups[c]);
      if rows != [] && groups[c] != [] {
        BinsApart(offsets, groups, b, c);
      }
      OtherBinKept(was, now, offsets[b], rows, offsets[c], groups[c]);
    }
  }

  lemma BinsApart(offsets: seq<nat>, groups: seq<seq<nat>>, b: nat, c: nat)
    requires Apart(offsets, Lengths(groups)) && b < |groups| && c < |groups| && b != c
    requires groups[b] != [] && groups[c] != []
    ensures offsets[c] + |groups[c]| <= offsets[b] || offsets[b] + |groups[b]| <= offsets[c]
  {
    assert Lengths(groups)[b] == |groups[b]| && Lengths(groups)[c] == |groups[c]|;
  }

  /** The bins of `done` have been bubble-sorted, the others not yet. */
  ghost function SortedIn(before: Comparison, groups: seq<seq<nat>>, done: set<nat>): (sorted: seq<seq<nat>>)
    ensures |sorted| == |groups|
    ensures forall b :: 0 <= b < |groups| ==>
              sorted[b] == (if b in done then Bubble(before, groups[b]) else groups[b])
  {
    seq(|groups|, b requires 0 <= b < |groups| => if b in done then Bubble(before, groups[b]) else groups[b])
  }

  ghost function Elements(s: seq<nat>): set<nat> {
    set x | x in s
  }

  lemma ElementsStep(s: seq<nat>, t: nat)
    requires t < |s|
    ensures Elements(s[..t + 1]) == Elements(s[..t]) + {s[t]}
    ensures s[t] !in s[..t] ==> s[t] !in Elements(s[..t])
  {
  }

  lemma SortedInStep(before: Comparison, groups: seq<seq<nat>>, done: set<nat>, b: nat)
    requires b < |groups| && b !in done
    ensures SortedIn(before, groups, done)[b] == groups[b]
    ensures SortedIn(before, groups, done + {b}) == SortedIn(before, groups, done)[b := Bubble(before, groups[b])]
    ensures Lengths(SortedIn(before, groups, done)) == Lengths(groups)
  {
  }

  lemma OtherBinKept(was: seq<nat>, now: seq<nat>, from: nat, rows: seq<nat>, at: nat, held: seq<nat>)
    requires Rewritten(was, now, from, rows)
    requires BinPlaced(was, at, |held|, held)
    requires rows != [] && held != [] ==> at + |held| <= from || from + |rows| <= at
    ensures BinPlaced(now, at, |held|, held)
  {
    if rows != [] && held != [] {
      WindowOutside(was, now, from, from + |rows|, at, |held|);
    }
  }

  lemma WindowOutside(was: seq<nat>, now: seq<nat>, from: nat, upper: nat, at: nat, size: nat)
    requires SameOutside(was, now, from, upper) && at + size <= |was|
    requires at + size <= from || upper <= at
    ensures now[at..at + size] == was[at..at + size]
  {
    forall k | at <= k < at + size ensures now[k] == was[k] {
      if k < from {
        assert now[..from][k] == was[..from][k];
      } else {
        assert now[upper..][k - upper] == was[upper..][k - upper];
      }
    }
  }

  lemma BinnedGroups(slots: seq<nat>, offsets: seq<nat>, keys: seq<real>, op: BinOp1D, begin: nat, end: nat, order: seq<nat>)
    requires KeysFit(keys, op, begin, end) && RunsOnce(order, begin, end)
    requires |offsets| == op.maxBins && |slots| == end - begin
    requires var tallies := Tallies(Rows(begin, end), op.Bins(keys), op.maxBins);
             RightStarts(offsets, tallies) && Placed(slots, offsets, tallies, order, op.Bins(keys))
    ensures var groups := Groups(order, op.Bins(keys), op.maxBins);
            && Tallies(Rows(begin, end), op.Bins(keys), op.maxBins) == Lengths(groups)
            && Holds(slots, offsets, groups) && Apart(offsets, Lengths(groups))
            && |slots| == Sum(Lengths(groups))
  {
    var groups, tallies := Groups(order, op.Bins(keys), op.maxBins), Tallies(order, op.Bins(keys), op.maxBins);
    SameTallies(order, Rows(begin, end), begin, end, op.Bins(keys), op.maxBins);
    TalliesAreLengths(order, op.Bins(keys), op.maxBins);
    OrderInBins(keys, op, begin, end, order);
    TalliesSum(order, op.Bins(keys), op.maxBins);
    LayoutApart(tallies, offsets);
    forall b | 0 <= b < |groups| ensures BinPlaced(slots, offsets[b], |groups[b]|, groups[b]) {
      assert BinPlaced(slots, offsets[b], tallies[b], Group(order, op.Bins(keys), b));
    }
  }

  lemma SortedInAll(before: Comparison, groups: seq<seq<nat>>, done: seq<nat>)
    requires RunsOnce(done, 0, |groups|)
    ensures SortedIn(before, groups, Elements(done)) == AllSorted(before, groups)
  {
    forall b | 0 <= b < |groups| ensures b in Elements(done) {
      RunsEveryIndex(done, 0, |groups|, b);
    }
  }

  lemma SortedLengths(before: Comparison, groups: seq<seq<nat>>)
    ensures Lengths(AllSorted(before, groups)) == Lengths(groups)
  {
  }

  // ------------------------------------------------------------------ the copy back

  // The rows that sort() reads lie inside the view.
  ghost predicate Readable(size: nat, order: seq<nat>, begin: nat, end: nat, valuesBegin: nat) {
    && begin <= end && |order| == end - begin && valuesBegin + |order| <= size
    && Gatherable(size, order, valuesBegin - begin)
  }

  /** The rows that sort() stores lie inside the view. */
  predicate CopyBackFits(size: nat, begin: nat, end: nat) {
    begin < end ==> end <= size
  }

  /** The elements of s, stored from place `at` on. */
  ghost function Stored<T>(v: seq<T>, at: nat, s: seq<T>): (r: seq<T>)
    requires s != [] ==> at + |s| <= |v|
    ensures |r| == |v|
  {
    if s == [] then v else v[..at] + s + v[at + |s|..]
  }

  /** What sort() leaves: the gathered rows, stored from range_begin on. */
  ghost function CopiedBack<T>(v: seq<T>, order: seq<nat>, begin: nat, valuesBegin: nat): seq<T>
    requires Readable(|v|, order, begin, begin + |order|, valuesBegin) && CopyBackFits(|v|, begin, begin + |order|)
  {
    Stored(v, begin, Gathered(v, order, valuesBegin - begin))
  }

  /** What its arguments ask for: the rows of the values range, permuted in place. */
  ghost function PermutedInPlace<T>(v: seq<T>, order: seq<nat>, begin: nat, valuesBegin: nat): seq<T>
    requires Readable(|v|, order, begin, begin + |order|, valuesBegin)
  {
    Stored(v, valuesBegin, Gathered(v, order, valuesBegin - begin))
  }

  ghost predicate CopiedRight(v: seq<int>, order: seq<nat>, begin: nat, valuesBegin: nat)
    requires Readable(|v|, order, begin, begin + |order|, valuesBegin)
  {
    && CopyBackFits(|v|, begin, begin + |order|)
    && CopiedBack(v, order, begin, valuesBegin) == PermutedInPlace(v, order, begin, valuesBegin)
  }

  lemma CopyBackSame(v: seq<int>, order: seq<nat>, begin: nat, end: nat, valuesBegin: nat)
    requires Readable(|v|, order, begin, end, valuesBegin) && (begin == valuesBegin || begin == end)
    ensures CopiedRight(v, order, begin, valuesBegin)
  {
    assert begin == end ==> Gathered(v, order, valuesBegin - begin) == [];
  }

  /** For every view the copy back stays inside and hits the values range, exactly when the two ranges start together. */
  lemma CopyBackRight(size: nat, order: seq<nat>, begin: nat, end: nat, valuesBegin: nat)
    requires RunsOnce(order, begin, end) && Readable(size, order, begin, end, valuesBegin)
    ensures (forall v: seq<int> | |v| == size :: CopiedRight(v, order, begin, valuesBegin))
       <==> (begin == valuesBegin || begin == end)
  {
    if begin != valuesBegin && begin != end {
      CopyBackElsewhere(size, order, begin, end, valuesBegin);
      assert |seq(size, i => i)| == size;
    } else {
      forall v: seq<int> | |v| == size ensures CopiedRight(v, order, begin, valuesBegin) {
        CopyBackSame(v, order, begin, end, valuesBegin);
      }
    }
  }

  lemma CopyBackElsewhere(size: nat, order: seq<nat>, begin: nat, end: nat, valuesBegin: nat)
    requires RunsOnce(order, begin, end) && Readable(size, order, begin, end, valuesBegin)
    requires begin != valuesBegin && begin != end
    ensures !CopiedRight(seq(size, i => i), order, begin, valuesBegin)
  {
    if CopyBackFits(size, begin, end) {
      CopyBackWrong(size, order, begin, end, valuesBegin);
    }
  }

  /** sort(values) on a view of as many rows as the range stays inside it exactly when the range starts at zero or is empty. */
  lemma WholeViewFits(order: seq<nat>, begin: nat, end: nat)
    requires RunsOnce(order, begin, end)
    ensures Readable(end - begin, order, begin, end, 0)
    ensures CopyBackFits(end - begin, begin, end) <==> begin == 0 || begin == end
  {
    RunsInRange(order, begin, end);
  }

  /** The view that holds its own indices shows the difference. */
  lemma CopyBackWrong(size: nat, order: seq<nat>, begin: nat, end: nat, valuesBegin: nat)
    requires RunsOnce(order, begin, end) && Readable(size, order, begin, end, valuesBegin) && CopyBackFits(size, begin, end)
    requires begin != valuesBegin && begin != end
    ensures !CopiedRight(seq(size, i => i), order, begin, valuesBegin)
  {
    RunsInRange(order, begin, end);
    var v := seq(size, i => i);
    var g := Gathered(v, order, valuesBegin - begin);
    var stored, wanted := Stored(v, begin, g), Stored(v, valuesBegin, g);
    if valuesBegin < begin {
      assert wanted[end - 1] == end - 1;
      assert stored[end - 1] == g[|order| - 1] == valuesBegin - begin + order[|order| - 1];
    } else {
      assert wanted[begin] == begin;
      assert stored[begin] == g[0] == valuesBegin - begin + order[0];
    }
  }

  lemma GatherConcat<T>(v: seq<T>, p: seq<nat>, q: seq<nat>, shift: int)
    requires Gatherable(|v|, p + q, shift)
    ensures Gatherable(|v|, p, shift) && Gatherable(|v|, q, shift)
    ensures Gathered(v, p + q, shift) == Gathered(v, p, shift) + Gathered(v, q, shift)
  {
    assert forall i :: 0 <= i < |p| ==> (p + q)[i] == p[i];
    assert forall i :: 0 <= i < |q| ==> (p + q)[|p| + i] == q[i];
  }

  lemma GatherWithout<T>(v: seq<T>, l: seq<nat>, x: nat, r: seq<nat>, shift: int)
    requires Gatherable(|v|, l + ([x] + r), shift)
    ensures Gatherable(|v|, l + r, shift) && 0 <= shift + x < |v|
    ensures multiset(Gathered(v, l + ([x] + r), shift)) == multiset(Gathered(v, l + r, shift)) + multiset{v[shift + x]}
  {
    GatherConcat(v, l, [x] + r, shift);
    GatherConcat(v, [x], r, shift);
    assert [x][0] == x;
    assert forall i :: 0 <= i < |l + r| ==> (l + r)[i] == (if i < |l| then l[i] else r[i - |l|]);
    GatherConcat(v, l, r, shift);
    assert Gathered(v, [x], shift) == [v[shift + x]];
  }

  lemma {:induction false} GatherPermutes<T>(v: seq<T>, p: seq<nat>, q: seq<nat>, shift: int)
    requires multiset(p) == multiset(q)
    requires Gatherable(|v|, p, shift) && Gatherable(|v|, q, shift)
    ensures multiset(Gathered(v, p, shift)) == multiset(Gathered(v, q, shift))
  {
    if p == [] {
      assert q == [] by { assert |multiset(q)| == |q|; }
    } else {
      var n, x := |p| - 1, p[|p| - 1];
      assert p == p[..n] + [x] && p == p[..n] + ([x] + []) && p[..n] == p[..n] + [];
      assert x in multiset(p);
      var k :| 0 <= k < |q| && q[k] == x;
      var l, r := q[..k], q[k + 1..];
      assert q == l + ([x] + r);
      MultisetWithout(p[..n], l, x, r);
      GatherWithout(v, p[..n], x, [], shift);
      GatherWithout(v, l, x, r, shift);
      GatherPermutes(v, p[..n], l + r, shift);
    }
  }

  // ------------------------------------------------------------------ Kokkos::sort

  ghost predicate Sorts(was: seq<real>, now: seq<real>, begin: nat, end: nat) {
    && begin <= end <= |was| == |now|
    && now[..begin] == was[..begin] && now[end..] == was[end..]
    && multiset(now[begin..end]) == multiset(was[begin..end])
    && NonDecreasing(now[begin..end])
  }

  lemma CopiedBackSorts(v: seq<real>, op: BinOp1D, begin: nat, end: nat, order: seq<nat>)
    requires KeysFit(v, op, begin, end) && RunsOnce(order, begin, end) && Monotone(v, op, begin, end)
    ensures var vector := Vector(v, op, order, true);
            Readable(|v|, vector, begin, end, begin) && Sorts(v, CopiedBack(v, vector, begin, begin), begin, end)
  {
    var vector := Vector(v, op, order, true);
    VectorPermutes(v, op, begin, end, order, true);
    VectorSorts(v, op, begin, end, order);
    RunsInRange(vector, begin, end);
    StoredSorts(v, vector, begin, end);
  }

  lemma StoredSorts(v: seq<real>, vector: seq<nat>, begin: nat, end: nat)
    requires RunsOnce(vector, begin, end) && Readable(|v|, vector, begin, end, begin)
    requires NonDecreasing(Gathered(v, vector, 0))
    ensures Sorts(v, CopiedBack(v, vector, begin, begin), begin, end)
  {
    var g, rows := Gathered(v, vector, 0), Rows(begin, end);
    GatherPermutes(v, vector, rows, 0);
    assert Gathered(v, rows, 0) == v[begin..end];
    var now := v[..begin] + g + v[end..];
    assert now[begin..end] == g && now[..begin] == v[..begin] && now[end..] == v[end..];
  }

  /** parallel_reduce with min_max_functor; the identity of the reduction is (highest, lowest). */
  method FindExtent(view: array<real>, begin: nat, end: nat, lowest: real, highest: real) returns (min: real, max: real)
    requires begin <= end <= view.Length
    requires forall i :: begin <= i < end ==> lowest <= view[i] <= highest
    ensures begin == end ==> min == highest && max == lowest
    ensures begin < end ==> min in view[begin..end] && max in view[begin..end] && min <= max
    ensures forall i :: begin <= i < end ==> min <= view[i] <= max
  {
    min, max := highest, lowest;
    for k := begin to end
      invariant k == begin ==> min == highest && max == lowest
      invariant k > begin ==> min in view[begin..k] && max in view[begin..k] && min <= max
      invariant forall i :: begin <= i < k ==> min <= view[i] <= max
    {
      assert view[begin..k + 1] == view[begin..k] + [view[k]];
      if view[k] < min { min := view[k]; }
      if view[k] > max { max := view[k]; }
    }
  }

  lemma ExtentFits(keys: seq<real>, begin: nat, end: nat, bins: nat, min: real, max: real)
    requires begin <= end <= |keys| && min != max && (begin < end ==> min < max)
    requires forall i :: begin <= i < end ==> min <= keys[i] <= max
    ensures var op := MakeBinOp(bins, min, max);
            KeysFit(keys, op, begin, end) && Monotone(keys, op, begin, end)
  {
    var op := MakeBinOp(bins, min, max);
    forall i | begin <= i < end ensures 0 <= op.Bin(keys[i]) < op.maxBins {
      BinIsMonotone(bins, min, max, keys[i], keys[i]);
    }
    forall i, j | begin <= i < end && begin <= j < end && keys[i] <= keys[j]
      ensures op.Bin(keys[i]) <= op.Bin(keys[j])
    {
      BinIsMonotone(bins, min, max, keys[i], keys[j]);
    }
  }

  /** Kokkos::sort(view, begin, end): the range is sorted and nothing else moves. */
  method SortRange(view: array<real>, begin: nat, end: nat, lowest: real, highest: real, schedule: Schedule)
    requires begin <= end <= view.Length && lowest < highest
    requires forall i :: begin <= i < end ==> lowest <= view[i] <= highest
    requires RunsOnce(schedule.counting, begin, end) && RunsOnce(schedule.binning, begin, end)
    requires RunsOnce(schedule.bins, 0, (end - begin) / 2 + 1)
    modifies view
    ensures Sorts(old(view[..]), view[..], begin, end)
  {
    var min, max := FindExtent(view, begin, end, lowest, highest);
    if min == max { return; }
    SortBetween(view, begin, end, min, max, schedule);
  }

  /** Everything the steps below rely on. */
  lemma PlanSorts(v: seq<real>, begin: nat, end: nat, min: real, max: real, order: seq<nat>)
    requires begin <= end <= |v| && min != max && (begin < end ==> min < max)
    requires forall i :: begin <= i < end ==> min <= v[i] <= max
    requires RunsOnce(order, begin, end)
    ensures var op := MakeBinOp((end - begin) / 2, min, max);
            var vector := Vector(v, op, order, true);
            KeysFit(v, op, begin, end) && SortsInPlace(v, vector, begin, end)
  {
    var op := MakeBinOp((end - begin) / 2, min, max);
    ExtentFits(v, begin, end, (end - begin) / 2, min, max);
    CopiedBackSorts(v, op, begin, end, order);
    VectorPermutes(v, op, begin, end, order, true);
  }

  method SortBetween(view: array<real>, begin: nat, end: nat, min: real, max: real, schedule: Schedule)
    requires begin <= end <= view.Length && min != max && (begin < end ==> min < max)
    requires forall i :: begin <= i < end ==> min <= view[i] <= max
    requires RunsOnce(schedule.counting, begin, end) && RunsOnce(schedule.binning, begin, end)
    requires RunsOnce(schedule.bins, 0, (end - begin) / 2 + 1)
    modifies view
    ensures Sorts(old(view[..]), view[..], begin, end)
  {
    ghost var was := view[..];
    var op := MakeBinOp((end - begin) / 2, min, max);
    ExtentFits(was, begin, end, (end - begin) / 2, min, max);
    var binSort := Prepared(view, begin, end, op, schedule);
    PlanSorts(was, begin, end, min, max, schedule.binning);
    SortPrepared(view, binSort, Vector(was, op, schedule.binning, true));
  }

  // Stored through the vector, the rows of the range are sorted.
  ghost predicate SortsInPlace(v: seq<real>, vector: seq<nat>, begin: nat, end: nat) {
    && RunsOnce(vector, begin, end) && Readable(|v|, vector, begin, end, begin)
    && Sorts(v, CopiedBack(v, vector, begin, begin), begin, end)
  }

  method SortPrepared(view: array<real>, binSort: BinSort, ghost vector: seq<nat>)
    requires binSort.Valid() && binSort.sortOrder[..] == vector
    requires SortsInPlace(view[..], vector, binSort.rangeBegin, binSort.rangeEnd)
    modifies view
    ensures Sorts(old(view[..]), view[..], binSort.rangeBegin, binSort.rangeEnd)
  {
    var r := binSort.Sort(view, binSort.rangeBegin, binSort.rangeEnd);
    assert r.Copied?;
  }

  method Prepared(view: array<real>, begin: nat, end: nat, op: BinOp1D, schedule: Schedule) returns (binSort: BinSort)
    requires begin <= end <= view.Length && KeysFit(view[..], op, begin, end)
    requires RunsOnce(schedule.counting, begin, end) && RunsOnce(schedule.binning, begin, end)
    requires RunsOnce(schedule.bins, 0, op.maxBins)
    ensures binSort.Valid() && fresh(binSort.sortOrder)
    ensures binSort.rangeBegin == begin && binSort.rangeEnd == end
    ensures binSort.sortOrder[..] == Vector(view[..], op, schedule.binning, true)
  {
    binSort := new BinSort(view, begin, end, op, true);
    CleanCounts(binSort.binCount[..], binSort.BinTallies());
    binSort.CreatePermuteVector(schedule);
  }

  lemma CleanCounts(counts: seq<nat>, tallies: seq<nat>)
    requires |counts| == |tallies| && forall b :: 0 <= b < |counts| ==> counts[b] == 0
    ensures NoLeftover(counts, tallies)
  {
  }
}
