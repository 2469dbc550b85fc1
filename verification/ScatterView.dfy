/**
 * The duplicated Kokkos::Experimental::ScatterView: one copy of the result per thread
 * token, reduced into the destination at the end.
 */
module ScatterView {

  /** How a ScatterValue updates a cell, and the value it resets a cell to. */
  datatype Reducer<!T> = Reducer(join: (T, T) -> T, identity: T)

  /** Updates of a cell may be swapped, and may be gathered before they are applied. */
  ghost predicate Gathers<T(!new)>(r: Reducer<T>) {
    forall a, x, y :: GathersAt(r, a, x, y)
  }

  ghost predicate GathersAt<T>(r: Reducer<T>, a: T, x: T, y: T) {
    && r.join(r.join(a, x), y) == r.join(r.join(a, y), x)
    && r.join(a, r.join(x, y)) == r.join(r.join(a, x), y)
  }

  /** A reset cell changes nothing. */
  ghost predicate Neutral<T(!new)>(r: Reducer<T>, inRange: T -> bool) {
    forall a :: inRange(a) ==> r.join(a, r.identity) == a
  }

  // ------------------------------------------------------------------ copies and reduction

  type Cells<T> = seq<T>

  datatype Update<T> = Update(copy: nat, cell: nat, x: T)

  ghost predicate Shaped<T>(copies: seq<Cells<T>>, size: nat) {
    forall j :: 0 <= j < |copies| ==> |copies[j]| == size
  }

  ghost predicate AllIdentity<T>(r: Reducer<T>, cells: Cells<T>) {
    forall i :: 0 <= i < |cells| ==> cells[i] == r.identity
  }

  ghost predicate AllInRange<T>(inRange: T -> bool, cells: Cells<T>) {
    forall i :: 0 <= i < |cells| ==> inRange(cells[i])
  }

  ghost function Updated<T>(r: Reducer<T>, cells: Cells<T>, i: nat, x: T): (out: Cells<T>)
    requires i < |cells|
    ensures |out| == |cells|
  {
    cells[i := r.join(cells[i], x)]
  }

  ghost predicate Fit<T>(us: seq<Update<T>>, copies: nat, size: nat) {
    forall t :: 0 <= t < |us| ==> us[t].copy < copies && us[t].cell < size
  }

  /** Every thread applies its updates to its own copy. */
  ghost function Scattered<T>(r: Reducer<T>, copies: seq<Cells<T>>, size: nat, us: seq<Update<T>>): (out: seq<Cells<T>>)
    requires Shaped(copies, size) && Fit(us, |copies|, size)
    ensures |out| == |copies| && Shaped(out, size)
  {
    if us == [] then copies
    else
      var n := |us| - 1;
      var before := Scattered(r, copies, size, us[..n]);
      before[us[n].copy := Updated(r, before[us[n].copy], us[n].cell, us[n].x)]
  }

  /** The same updates applied straight to the destination. */
  ghost function Direct<T>(r: Reducer<T>, dest: Cells<T>, copies: nat, us: seq<Update<T>>): (out: Cells<T>)
    requires Fit(us, copies, |dest|)
    ensures |out| == |dest|
  {
    if us == [] then dest
    else
      var n := |us| - 1;
      Updated(r, Direct(r, dest, copies, us[..n]), us[n].cell, us[n].x)
  }

  ghost function Joined<T>(r: Reducer<T>, dest: Cells<T>, copy: Cells<T>): (out: Cells<T>)
    requires |dest| == |copy|
    ensures |out| == |dest|
    ensures forall i :: 0 <= i < |out| ==> out[i] == r.join(dest[i], copy[i])
  {
    seq(|dest|, i requires 0 <= i < |dest| => r.join(dest[i], copy[i]))
  }

  /** ReduceDuplicates: the copies joined into the destination, cell by cell. */
  ghost function Reduced<T>(r: Reducer<T>, dest: Cells<T>, copies: seq<Cells<T>>): (out: Cells<T>)
    requires Shaped(copies, |dest|)
    ensures |out| == |dest|
  {
    if copies == [] then dest
    else Joined(r, Reduced(r, dest, copies[..|copies| - 1]), copies[|copies| - 1])
  }

  // ------------------------------------------------------------------ what contributing means

  lemma JoinedUpdate<T(!new)>(r: Reducer<T>, dest: Cells<T>, copy: Cells<T>, i: nat, x: T)
    requires Gathers(r) && |dest| == |copy| && i < |dest|
    ensures Joined(r, dest, Updated(r, copy, i, x)) == Updated(r, Joined(r, dest, copy), i, x)
    ensures Joined(r, Updated(r, dest, i, x), copy) == Updated(r, Joined(r, dest, copy), i, x)
  {
    assert GathersAt(r, dest[i], copy[i], x);
  }

  /** An update of any copy shows in the reduced result as an update of the destination. */
  lemma {:induction false} ReducedUpdate<T(!new)>(r: Reducer<T>, dest: Cells<T>, copies: seq<Cells<T>>, j: nat, i: nat, x: T)
    requires Gathers(r) && Shaped(copies, |dest|) && j < |copies| && i < |dest|
    ensures Reduced(r, dest, copies[j := Updated(r, copies[j], i, x)]) == Updated(r, Reduced(r, dest, copies), i, x)
  {
    var n := |copies| - 1;
    var after := copies[j := Updated(r, copies[j], i, x)];
    if j < n {
      assert after[..n] == copies[..n][j := Updated(r, copies[..n][j], i, x)];
      ReducedUpdate(r, dest, copies[..n], j, i, x);
      JoinedUpdate(r, Reduced(r, dest, copies[..n]), copies[n], i, x);
    } else {
      assert after[..n] == copies[..n];
      JoinedUpdate(r, Reduced(r, dest, copies[..n]), copies[n], i, x);
    }
  }

  lemma {:induction false} ReducedUpdateDest<T(!new)>(r: Reducer<T>, dest: Cells<T>, copies: seq<Cells<T>>, i: nat, x: T)
    requires Gathers(r) && Shaped(copies, |dest|) && i < |dest|
    ensures Reduced(r, Updated(r, dest, i, x), copies) == Updated(r, Reduced(r, dest, copies), i, x)
  {
    if copies != [] {
      var n := |copies| - 1;
      ReducedUpdateDest(r, dest, copies[..n], i, x);
      JoinedUpdate(r, Reduced(r, dest, copies[..n]), copies[n], i, x);
    }
  }

  /** Copies that were reset contribute nothing, however often they are contributed. */
  lemma {:induction false} ReducedIdentity<T(!new)>(r: Reducer<T>, inRange: T -> bool, dest: Cells<T>, copies: seq<Cells<T>>)
    requires Neutral(r, inRange) && Shaped(copies, |dest|) && AllInRange(inRange, dest)
    requires forall j :: 0 <= j < |copies| ==> AllIdentity(r, copies[j])
    ensures Reduced(r, dest, copies) == dest
  {
    if copies != [] {
      var n := |copies| - 1;
      ReducedIdentity(r, inRange, dest, copies[..n]);
      assert AllIdentity(r, copies[n]);
      forall i | 0 <= i < |dest| ensures r.join(dest[i], copies[n][i]) == dest[i] {
      }
    }
  }

  /** Any distribution of updates over the copies, contributed, equals the updates applied directly. */
  lemma {:induction false} ContributeIsDirect<T(!new)>(r: Reducer<T>, inRange: T -> bool, dest: Cells<T>, copies: seq<Cells<T>>, us: seq<Update<T>>)
    requires Gathers(r) && Neutral(r, inRange)
    requires Shaped(copies, |dest|) && Fit(us, |copies|, |dest|) && AllInRange(inRange, dest)
    requires forall j :: 0 <= j < |copies| ==> AllIdentity(r, copies[j])
    ensures Reduced(r, dest, Scattered(r, copies, |dest|, us)) == Direct(r, dest, |copies|, us)
  {
    if us == [] {
      ReducedIdentity(r, inRange, dest, copies);
    } else {
      var n := |us| - 1;
      ContributeIsDirect(r, inRange, dest, copies, us[..n]);
      ReducedUpdate(r, dest, Scattered(r, copies, |dest|, us[..n]), us[n].copy, us[n].cell, us[n].x);
    }
  }

  /** The same when the destination is copy 0 itself, which need not start reset. */
  lemma {:induction false} ContributeIntoCopyZero<T(!new)>(r: Reducer<T>, inRange: T -> bool, size: nat, copies: seq<Cells<T>>, us: seq<Update<T>>)
    requires Gathers(r) && Neutral(r, inRange)
    requires copies != [] && Shaped(copies, size) && Fit(us, |copies|, size) && AllInRange(inRange, copies[0])
    requires forall j :: 0 < j < |copies| ==> AllIdentity(r, copies[j])
    ensures var after := Scattered(r, copies, size, us);
            Reduced(r, after[0], after[1..]) == Direct(r, copies[0], |copies|, us)
  {
    if us == [] {
      ReducedIdentity(r, inRange, copies[0], copies[1..]);
    } else {
      var n := |us| - 1;
      var before, u := Scattered(r, copies, size, us[..n]), us[n];
      var after := before[u.copy := Updated(r, before[u.copy], u.cell, u.x)];
      ContributeIntoCopyZero(r, inRange, size, copies, us[..n]);
      if u.copy == 0 {
        assert after[1..] == before[1..];
        ReducedUpdateDest(r, before[0], before[1..], u.cell, u.x);
      } else {
        var tail := before[1..];
        assert after[1..] == tail[u.copy - 1 := Updated(r, tail[u.copy - 1], u.cell, u.x)];
        ReducedUpdate(r, before[0], tail, u.copy - 1, u.cell, u.x);
      }
    }
  }

  // ------------------------------------------------------------------ one cell

  /** What the reduction makes of cell i, over the first k copies. */
  ghost function CellReduced<T>(r: Reducer<T>, value: T, copies: seq<Cells<T>>, i: nat, k: nat): T
    requires k <= |copies| && forall j :: 0 <= j < |copies| ==> i < |copies[j]|
  {
    if k == 0 then value else r.join(CellReduced(r, value, copies, i, k - 1), copies[k - 1][i])
  }

  lemma {:induction false} ReducedAt<T>(r: Reducer<T>, dest: Cells<T>, copies: seq<Cells<T>>, i: nat)
    requires Shaped(copies, |dest|) && i < |dest|
    ensures Reduced(r, dest, copies)[i] == CellReduced(r, dest[i], copies, i, |copies|)
  {
    if copies != [] {
      ReducedAt(r, dest, copies[..|copies| - 1], i);
      CellReducedPrefix(r, dest[i], copies, i, |copies| - 1);
    }
  }

  lemma {:induction false} CellReducedPrefix<T>(r: Reducer<T>, value: T, copies: seq<Cells<T>>, i: nat, k: nat)
    requires k < |copies| && forall j :: 0 <= j < |copies| ==> i < |copies[j]|
    ensures CellReduced(r, value, copies[..|copies| - 1], i, k) == CellReduced(r, value, copies, i, k)
  {
    if k > 0 {
      CellReducedPrefix(r, value, copies, i, k - 1);
    }
  }

  // ------------------------------------------------------------------ the class

  /** stride * j, the offset of copy j. */
  function Offset(stride: nat, j: nat): nat {
    if j == 0 then 0 else Offset(stride, j - 1) + stride
  }

  lemma {:induction false} RowsApart(stride: nat, j: nat, k: nat)
    requires j < k
    ensures Offset(stride, j) + stride <= Offset(stride, k)
  {
    if j < k - 1 {
      RowsApart(stride, j, k - 1);
    }
  }

  /** The memory of all copies, one after the other. */
  ghost predicate Laid<T>(memory: seq<T>, stride: nat, copies: nat) {
    |memory| == Offset(stride, copies)
  }

  ghost function CopyIn<T>(memory: seq<T>, stride: nat, copies: nat, j: nat): (cells: Cells<T>)
    requires Laid(memory, stride, copies) && j < copies
    ensures |cells| == stride
  {
    RowsApart(stride, j, copies);
    memory[Offset(stride, j)..Offset(stride, j) + stride]
  }

  ghost function CopiesIn<T>(memory: seq<T>, stride: nat, copies: nat): (cs: seq<Cells<T>>)
    requires Laid(memory, stride, copies)
    ensures |cs| == copies && Shaped(cs, stride)
    ensures forall j :: 0 <= j < copies ==> cs[j] == CopyIn(memory, stride, copies, j)
  {
    seq(copies, j requires 0 <= j < copies => CopyIn(memory, stride, copies, j))
  }

  lemma CopyKept<T>(memory: seq<T>, stride: nat, copies: nat, j: nat, i: nat, x: T, k: nat)
    requires Laid(memory, stride, copies) && j < copies && k < copies && k != j && i < stride
    ensures i + Offset(stride, j) < |memory|
    ensures CopyIn(memory[i + Offset(stride, j) := x], stride, copies, k) == CopyIn(memory, stride, copies, k)
  {
    RowsApart(stride, j, copies);
    RowsApart(stride, k, copies);
    if k < j { RowsApart(stride, k, j); } else { RowsApart(stride, j, k); }
  }

  /** Writing cell i of copy j. */
  lemma WriteCell<T>(memory: seq<T>, stride: nat, copies: nat, j: nat, i: nat, x: T)
    requires Laid(memory, stride, copies) && j < copies && i < stride
    ensures var at, cs := i + Offset(stride, j), CopiesIn(memory, stride, copies);
            && at < |memory| && memory[at] == cs[j][i]
            && CopiesIn(memory[at := x], stride, copies) == cs[j := cs[j][i := x]]
  {
    RowsApart(stride, j, copies);
    var at, cs := i + Offset(stride, j), CopiesIn(memory, stride, copies);
    var after := CopiesIn(memory[at := x], stride, copies);
    forall k | 0 <= k < copies ensures after[k] == cs[j := cs[j][i := x]][k] {
      if k != j {
        CopyKept(memory, stride, copies, j, i, x, k);
      }
    }
  }

  /** Memory that holds `x` from copy `first` on. */
  lemma UniformCopies<T>(memory: seq<T>, stride: nat, copies: nat, first: nat, x: T)
    requires Laid(memory, stride, copies)
    requires forall k :: Offset(stride, first) <= k < |memory| ==> memory[k] == x
    ensures forall j :: first <= j < copies ==> forall i :: 0 <= i < stride ==> CopiesIn(memory, stride, copies)[j][i] == x
  {
    forall j, i | first <= j < copies && 0 <= i < stride ensures CopiesIn(memory, stride, copies)[j][i] == x {
      RowsApart(stride, j, copies);
      if first < j { RowsApart(stride, first, j); }
    }
  }

  class ScatterView<T> {
    const reducer: Reducer<T>
    const stride: nat
    const copies: nat
    const data: array<T>

    ghost predicate Valid() {
      data.Length == Offset(stride, copies)
    }

    ghost function Copies(): (cs: seq<Cells<T>>)
      requires Valid()
      reads data
      ensures |cs| == copies && Shaped(cs, stride)
    {
      CopiesIn(data[..], stride, copies)
    }

    ghost predicate ResetFromCopy(first: nat)
      requires Valid()
      reads data
    {
      forall j :: first <= j < copies ==> AllIdentity(reducer, Copies()[j])
    }

    constructor (reducer: Reducer<T>, stride: nat, copies: nat)
      ensures Valid() && fresh(data) && ResetFromCopy(0)
      ensures this.reducer == reducer && this.stride == stride && this.copies == copies
    {
      this.reducer, this.stride, this.copies := reducer, stride, copies;
      data := new T[Offset(stride, copies)](i => reducer.identity);
      new;
      UniformCopies(data[..], stride, copies, 0, reducer.identity);
    }

    /** The update a thread holding token j makes through its access object. */
    method Update(j: nat, i: nat, x: T)
      requires Valid() && j < copies && i < stride
      modifies data
      ensures Copies() == old(Copies())[j := Updated(reducer, old(Copies())[j], i, x)]
    {
      var at := i + Offset(stride, j);
      ghost var was := data[..];
      WriteCell(was, stride, copies, j, i, reducer.join(Copies()[j][i], x));
      data[at] := reducer.join(data[at], x);
      assert data[..] == was[at := reducer.join(was[at], x)];
    }

    /** ResetDuplicates from a cell on. */
    method ResetFrom(from: nat)
      requires Valid() && from <= data.Length
      modifies data
      ensures data[..from] == old(data[..from])
      ensures forall k :: from <= k < data.Length ==> data[k] == reducer.identity
    {
      forall k | from <= k < data.Length {
        data[k] := reducer.identity;
      }
    }

    method Reset()
      requires Valid()
      modifies data
      ensures ResetFromCopy(0)
    {
      ResetFrom(0);
      UniformCopies(data[..], stride, copies, 0, reducer.identity);
    }

    /** reset_except(view), for a view with the extent of one copy whose memory starts at `view`. */
    method ResetExcept(view: array<T>)
      requires Valid() && copies > 0
      modifies data
      ensures view != data ==> ResetFromCopy(0)
      ensures view == data ==> Copies()[0] == old(Copies())[0] && ResetFromCopy(1)
    {
      if view != data {
        Reset();
        return;
      }
      RowsApart(stride, 0, copies);
      ghost var kept := data[..stride];
      assert Copies()[0] == kept;
      ResetFrom(stride);
      assert Copies()[0] == kept;
      UniformCopies(data[..], stride, copies, 1, reducer.identity);
    }

    /** The copies a contribution reads: not copy 0 when that is the destination. */
    ghost function Sources(dest: array<T>): (cs: seq<Cells<T>>)
      requires Valid() && copies > 0
      reads data
      ensures Shaped(cs, stride)
    {
      if dest == data then Copies()[1..] else Copies()
    }

    /** The first copy that is read. */
    function First(dest: array<T>): nat {
      if dest == data then 1 else 0
    }

    /** One update of a destination cell, with cell i of the k-th copy that is read. */
    method ReduceStep(dest: array<T>, i: nat, k: nat)
      requires Valid() && i < stride <= dest.Length && First(dest) + k < copies
      modifies dest
      ensures dest[..] == old(dest[..])[i := reducer.join(old(dest[i]), old(Sources(dest)[k][i]))]
      ensures Sources(dest) == old(Sources(dest))
    {
      SourceCopy(dest, k);
      var rhs := data[Address(i, First(dest) + k)];
      StoreCell(dest, i, reducer.join(dest[i], rhs));
    }

    /** The k-th copy that is read. */
    lemma SourceCopy(dest: array<T>, k: nat)
      requires Valid() && copies > 0 && First(dest) + k < copies
      ensures k < |Sources(dest)| && Sources(dest)[k] == Copies()[First(dest) + k]
    {
      ghost var all := Copies();
      assert |all| == copies;
      assert First(dest) == 1 ==> all[1..][k] == all[1 + k];
    }

    /** A write to a destination cell leaves the copies that are read alone. */
    method StoreCell(dest: array<T>, i: nat, x: T)
      requires Valid() && copies > 0 && i < stride <= dest.Length
      modifies dest
      ensures dest[..] == old(dest[..])[i := x]
      ensures Sources(dest) == old(Sources(dest))
    {
      ghost var memory := data[..];
      if dest == data {
        WriteCell(memory, stride, copies, 0, i, x);
      }
      dest[i] := x;
      assert data[..] == if dest == data then memory[i := x] else memory;
    }

    /** src + i + stride * j. */
    function Address(i: nat, j: nat): (at: nat)
      requires Valid() && i < stride && j < copies
      reads data
      ensures at < data.Length && data[at] == Copies()[j][i]
    {
      RowsApart(stride, j, copies);
      i + Offset(stride, j)
    }

    /** operator()(i) of ReduceDuplicates. */
    method ReduceCell(dest: array<T>, i: nat)
      requires Valid() && copies > 0 && i < stride <= dest.Length
      modifies dest
      ensures Sources(dest) == old(Sources(dest))
      ensures MidReduce(reducer, old(dest[..]), dest[..], Sources(dest), i, copies - First(dest))
    {
      ghost var sources, was := Sources(dest), dest[..];
      assert MidReduce(reducer, was, was, sources, i, 0);
      for j := First(dest) to copies
        invariant Sources(dest) == sources
        invariant MidReduce(reducer, was, dest[..], sources, i, j - First(dest))
      {
        ReduceTurn(dest, i, j - First(dest), was, sources);
      }
    }

    method ReduceTurn(dest: array<T>, i: nat, k: nat, ghost was: seq<T>, ghost sources: seq<Cells<T>>)
      requires Valid() && i < stride <= dest.Length && First(dest) + k < copies && Sources(dest) == sources
      requires MidReduce(reducer, was, dest[..], sources, i, k)
      modifies dest
      ensures Sources(dest) == sources && MidReduce(reducer, was, dest[..], sources, i, k + 1)
    {
      ghost var now := dest[..];
      ReduceStep(dest, i, k);
      MidReduceStep(reducer, was, now, sources, i, k);
    }

    /** contribute_into(dest): every cell of the destination; the cells are independent. */
    method ContributeInto(dest: array<T>)
      requires Valid() && copies > 0 && stride <= dest.Length
      modifies dest
      ensures dest[..stride] == Reduced(reducer, old(dest[..stride]), old(Sources(dest)))
      ensures dest[stride..] == old(dest[stride..])
      ensures Sources(dest) == old(Sources(dest))
    {
      ghost var sources, was := Sources(dest), dest[..];
      for i := 0 to stride
        invariant CellsReduced(reducer, was, dest[..], sources, i)
        invariant Sources(dest) == sources
      {
        ghost var now := dest[..];
        ReduceCell(dest, i);
        CellsReducedStep(reducer, was, now, dest[..], sources, i);
      }
      CellsAreReduced(reducer, was[..stride], dest[..stride], sources);
    }
  }

  /** The first i cells are reduced, the others as they were. */
  ghost predicate CellsReduced<T>(r: Reducer<T>, was: seq<T>, now: seq<T>, sources: seq<Cells<T>>, i: nat) {
    && i <= |was| == |now| && (forall j :: 0 <= j < |sources| ==> i <= |sources[j]|)
    && (forall k :: 0 <= k < i ==> now[k] == CellReduced(r, was[k], sources, k, |sources|))
    && (forall k :: i <= k < |was| ==> now[k] == was[k])
  }

  lemma CellsReducedStep<T>(r: Reducer<T>, was: seq<T>, now: seq<T>, next: seq<T>, sources: seq<Cells<T>>, i: nat)
    requires CellsReduced(r, was, now, sources, i) && MidReduce(r, now, next, sources, i, |sources|)
    ensures CellsReduced(r, was, next, sources, i + 1)
  {
  }

  /** Cell i once the first k copies are joined into it; the other cells as they were. */
  ghost predicate MidReduce<T>(r: Reducer<T>, was: seq<T>, now: seq<T>, sources: seq<Cells<T>>, i: nat, k: nat) {
    && i < |was| && k <= |sources| && (forall j :: 0 <= j < |sources| ==> i < |sources[j]|)
    && now == was[i := CellReduced(r, was[i], sources, i, k)]
  }

  lemma MidReduceStep<T>(r: Reducer<T>, was: seq<T>, now: seq<T>, sources: seq<Cells<T>>, i: nat, k: nat)
    requires MidReduce(r, was, now, sources, i, k) && k < |sources|
    ensures MidReduce(r, was, now[i := r.join(now[i], sources[k][i])], sources, i, k + 1)
  {
  }

  lemma CellsAreReduced<T>(r: Reducer<T>, was: Cells<T>, now: Cells<T>, sources: seq<Cells<T>>)
    requires Shaped(sources, |was|) && |now| == |was|
    requires forall k :: 0 <= k < |was| ==> now[k] == CellReduced(r, was[k], sources, k, |sources|)
    ensures now == Reduced(r, was, sources)
  {
    forall k | 0 <= k < |was| ensures now[k] == Reduced(r, was, sources)[k] {
      ReducedAt(r, was, sources, k);
    }
  }
}

/** The four operations, on exact values. */
module ScatterOps {
  import opened ScatterView

  datatype Op = Sum | Prod | Min | Max

  /** The least and the greatest value of the value type, the identities of Max and Min. */
  datatype Limits = Limits(lowest: real, highest: real)

  function InRange(limits: Limits): real -> bool {
    (x: real) => limits.lowest <= x <= limits.highest
  }

  /** update(rhs) and reset() of the non-atomic ScatterValue of each operation. */
  function ReducerOf(op: Op, limits: Limits): Reducer<real> {
    match op
    case Sum => Reducer((value: real, rhs: real) => value + rhs, 0.0)
    case Prod => Reducer((value: real, rhs: real) => value * rhs, 1.0)
    case Min => Reducer((value: real, rhs: real) => if rhs < value then rhs else value, limits.highest)
    case Max => Reducer((value: real, rhs: real) => if rhs > value then rhs else value, limits.lowest)
  }

  lemma ProductSwaps(a: real, x: real, y: real)
    ensures a * x * y == a * y * x && a * (x * y) == a * x * y
  {
  }

  lemma ProductGathersAt(limits: Limits, a: real, x: real, y: real)
    ensures GathersAt(ReducerOf(Prod, limits), a, x, y)
  {
    ProductSwaps(a, x, y);
  }

  lemma OperationGathersAt(op: Op, limits: Limits, a: real, x: real, y: real)
    ensures GathersAt(ReducerOf(op, limits), a, x, y)
  {
    match op
    case Sum =>
    case Prod => ProductGathersAt(limits, a, x, y);
    case Min =>
    case Max =>
  }

  /** All four operations qualify. */
  lemma OperationsGather(op: Op, limits: Limits)
    ensures Gathers(ReducerOf(op, limits)) && Neutral(ReducerOf(op, limits), InRange(limits))
  {
    forall a, x, y ensures GathersAt(ReducerOf(op, limits), a, x, y) {
      OperationGathersAt(op, limits, a, x, y);
    }
  }

  // ------------------------------------------------------------------ what a contribution is worth

  /** The values that the updates bring to cell i, in order. */
  ghost function ValuesFor(us: seq<Update<real>>, i: nat): seq<real> {
    if us == [] then []
    else
      var n := |us| - 1;
      ValuesFor(us[..n], i) + if us[n].cell == i then [us[n].x] else []
  }

  ghost function Total(xs: seq<real>): real {
    if xs == [] then 0.0 else Total(xs[..|xs| - 1]) + xs[|xs| - 1]
  }

  ghost function Times(xs: seq<real>): real {
    if xs == [] then 1.0 else Times(xs[..|xs| - 1]) * xs[|xs| - 1]
  }

  /** What a cell that held `start` is worth after these values, for each operation. */
  ghost predicate Worth(op: Op, start: real, xs: seq<real>, result: real) {
    match op
    case Sum => result == start + Total(xs)
    case Prod => result == start * Times(xs)
    case Min => (result == start || result in xs) && result <= start && forall x :: x in xs ==> result <= x
    case Max => (result == start || result in xs) && result >= start && forall x :: x in xs ==> result >= x
  }

  lemma OneMore(op: Op, limits: Limits, start: real, xs: seq<real>, value: real, x: real)
    requires Worth(op, start, xs, value)
    ensures Worth(op, start, xs + [x], ReducerOf(op, limits).join(value, x))
  {
    assert (xs + [x])[..|xs|] == xs;
    if op == Prod {
      ProductSwaps(start, Times(xs), x);
    }
  }

  lemma {:induction false} DirectWorth(op: Op, limits: Limits, dest: Cells<real>, copies: nat, us: seq<Update<real>>, i: nat)
    requires Fit(us, copies, |dest|) && i < |dest|
    ensures Worth(op, dest[i], ValuesFor(us, i), Direct(ReducerOf(op, limits), dest, copies, us)[i])
  {
    if us != [] {
      var n := |us| - 1;
      DirectWorth(op, limits, dest, copies, us[..n], i);
      if us[n].cell == i {
        OneMore(op, limits, dest[i], ValuesFor(us[..n], i), Direct(ReducerOf(op, limits), dest, copies, us[..n])[i], us[n].x);
      } else {
        assert ValuesFor(us, i) == ValuesFor(us[..n], i);
      }
    }
  }

  /**
   * Updates spread over reset copies and then contributed: each cell of the destination holds
   * its old value plus, or times, the values for it, or the least or greatest of all of them.
   */
  lemma ContributionWorth(op: Op, limits: Limits, dest: Cells<real>, copies: seq<Cells<real>>, us: seq<Update<real>>, i: nat)
    requires Shaped(copies, |dest|) && Fit(us, |copies|, |dest|) && AllInRange(InRange(limits), dest) && i < |dest|
    requires forall j :: 0 <= j < |copies| ==> AllIdentity(ReducerOf(op, limits), copies[j])
    ensures var r := ReducerOf(op, limits);
            Worth(op, dest[i], ValuesFor(us, i), Reduced(r, dest, Scattered(r, copies, |dest|, us))[i])
  {
    OperationsGather(op, limits);
    ContributeIsDirect(ReducerOf(op, limits), InRange(limits), dest, copies, us);
    DirectWorth(op, limits, dest, |copies|, us, i);
  }
}
