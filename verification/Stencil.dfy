/**
 * The two stencil drivers: red/black passes (parallel_gauss_seidel.cpp) and anti-diagonal
 * passes (parallel_wave_gauss_seidel.cpp) over a pair of padded images.
 *
 * A parallel pass runs its kernel bodies in an arbitrary order, given as an argument.
 */
module Stencil {
  import opened Jacobi

  datatype Cell = Cell(i: nat, j: nat, k: nat)

  const RED := 1
  const BLACK := 0

  class Images {
    const imgIn: array3<nat>
    const imgOut: array3<nat>

    ghost predicate Valid() {
      && imgIn != imgOut
      && imgIn.Length0 == imgOut.Length0 >= 2
      && imgIn.Length1 == imgOut.Length1 >= 2
      && imgIn.Length2 == imgOut.Length2
    }

    ghost predicate Inside(c: Cell) {
      0 < c.i < imgIn.Length0 - 1 && 0 < c.j < imgIn.Length1 - 1 && c.k < imgIn.Length2
    }

    /** Colour channel k of a view. */
    ghost function Channel(view: array3<nat>, k: nat): (p: Plane)
      requires k < view.Length2
      reads view
      ensures |p| == view.Length0 && Rectangular(p, view.Length1)
      ensures forall i, j :: 0 <= i < view.Length0 && 0 <= j < view.Length1 ==> p[i][j] == view[i, j, k]
    {
      seq(view.Length0, i requires 0 <= i < view.Length0 reads view => ChannelRow(view, k, i))
    }

    ghost function ChannelRow(view: array3<nat>, k: nat, i: nat): (row: Row)
      requires k < view.Length2 && i < view.Length0
      reads view
      ensures |row| == view.Length1
      ensures forall j :: 0 <= j < view.Length1 ==> row[j] == view[i, j, k]
    {
      seq(view.Length1, j requires 0 <= j < view.Length1 reads view => view[i, j, k])
    }

    /** Loads an image of rows x cols pixels with a border of one zero pixel; the output starts black. */
    constructor (rows: nat, cols: nat, channels: nat, img: (nat, nat, nat) -> nat)
      ensures Valid() && fresh(imgIn) && fresh(imgOut)
      ensures imgIn.Length0 == rows + 2 && imgIn.Length1 == cols + 2 && imgIn.Length2 == channels
      ensures forall i, j, k :: 0 <= i < rows && 0 <= j < cols && 0 <= k < channels ==>
                imgIn[i + 1, j + 1, k] == img(i, j, k)
      ensures forall k :: 0 <= k < channels ==> Padded(Channel(imgIn, k), cols + 2)
      ensures BorderBlack() && forall c: Cell :: InView(c) ==> Out(c) == 0
    {
      imgIn := new nat[rows + 2, cols + 2, channels]((i, j, k) =>
        if 0 < i <= rows && 0 < j <= cols && 0 <= k then img(i - 1, j - 1, k) else 0);
      imgOut := new nat[rows + 2, cols + 2, channels]((i, j, k) => 0);
    }

    ghost predicate InView(c: Cell) {
      c.i < imgIn.Length0 && c.j < imgIn.Length1 && c.k < imgIn.Length2
    }

    ghost function Out(c: Cell): nat
      requires Valid() && InView(c)
      reads imgOut
    {
      imgOut[c.i, c.j, c.k]
    }

    ghost function Fifth(c: Cell): nat
      requires Valid() && Inside(c)
      reads imgIn
    {
      Five(Channel(imgIn, c.k), imgIn.Length1, c.i, c.j) / 5
    }

    /** The border of the output image, which no kernel writes. */
    ghost predicate BorderBlack()
      requires Valid()
      reads imgOut
    {
      forall c: Cell :: InView(c) && !Inside(c) ==> Out(c) == 0
    }

    /** The kernel of both drivers. */
    method Apply(c: Cell)
      requires Valid() && Inside(c)
      modifies imgOut
      ensures Out(c) == Fifth(c)
      ensures forall d: Cell :: InView(d) && d != c ==> Out(d) == old(Out(d))
    {
      var i, j, k := c.i, c.j, c.k;
      imgOut[i, j, k] := (imgIn[i, j, k] + imgIn[i, j - 1, k] + imgIn[i, j + 1, k] + imgIn[i - 1, j, k] + imgIn[i + 1, j, k]) / 5;
    }

    /** Every interior cell of every channel occurs in the order, and no other. */
    ghost predicate Covers(order: seq<Cell>) {
      && (forall t :: 0 <= t < |order| ==> Inside(order[t]))
      && forall c: Cell :: Inside(c) ==> c in order
    }

    ghost predicate HasColour(c: Cell, colour: nat) {
      (c.i + c.j) % 2 == colour
    }

    /** One coloured pass: the cells of that colour get their fifth, the others are left alone. */
    method ColourPass(colour: nat, order: seq<Cell>)
      requires Valid() && Covers(order)
      modifies imgOut
      ensures forall c: Cell :: Inside(c) && HasColour(c, colour) ==> Out(c) == Fifth(c)
      ensures forall c: Cell :: InView(c) && !(Inside(c) && HasColour(c, colour)) ==> Out(c) == old(Out(c))
    {
      for t := 0 to |order|
        invariant forall c: Cell :: Inside(c) && HasColour(c, colour) && c in order[..t] ==> Out(c) == Fifth(c)
        invariant forall c: Cell :: InView(c) && !(Inside(c) && HasColour(c, colour)) ==> Out(c) == old(Out(c))
      {
        var c := order[t];
        assert order[..t + 1] == order[..t] + [c];
        if (c.i + c.j) % 2 == colour {
          Apply(c);
        }
      }
      assert order[..|order|] == order;
    }

    ghost predicate Swept()
      requires Valid()
      reads imgIn, imgOut
    {
      forall k :: 0 <= k < imgIn.Length2 ==> Channel(imgOut, k) == Sweep(Channel(imgIn, k), imgIn.Length1)
    }

    /** When every interior cell holds its fifth, the output image is the sweep of the input. */
    lemma AllCellsSwept()
      requires Valid() && BorderBlack()
      requires forall c: Cell :: Inside(c) ==> Out(c) == Fifth(c)
      ensures Swept()
    {
      forall k | 0 <= k < imgIn.Length2 ensures Channel(imgOut, k) == Sweep(Channel(imgIn, k), imgIn.Length1) {
        ChannelSwept(k);
      }
    }

    lemma ChannelSwept(k: nat)
      requires Valid() && BorderBlack() && k < imgIn.Length2
      requires forall c: Cell :: Inside(c) ==> Out(c) == Fifth(c)
      ensures Channel(imgOut, k) == Sweep(Channel(imgIn, k), imgIn.Length1)
    {
      var p, q, cols := Channel(imgIn, k), Channel(imgOut, k), imgIn.Length1;
      var s := Sweep(p, cols);
      forall i | 0 <= i < |p| ensures q[i] == s[i] {
        forall j | 0 <= j < cols ensures q[i][j] == s[i][j] {
          var c := Cell(i, j, k);
          assert InView(c) && q[i][j] == Out(c);
        }
      }
    }

    /** The red pass and the black pass of one iteration. */
    method RedBlackSweep(red: seq<Cell>, black: seq<Cell>)
      requires Valid() && BorderBlack() && Covers(red) && Covers(black)
      modifies imgOut
      ensures BorderBlack() && Swept()
    {
      ColourPass(RED, red);
      ColourPass(BLACK, black);
      forall c: Cell | Inside(c) ensures Out(c) == Fifth(c) {
        assert HasColour(c, RED) || HasColour(c, BLACK);
      }
      AllCellsSwept();
    }

    /** Kokkos::deep_copy(img_in, img_out). */
    method CopyBack()
      requires Valid()
      modifies imgIn
      ensures forall k :: 0 <= k < imgIn.Length2 ==> Channel(imgIn, k) == Channel(imgOut, k)
    {
      forall i, j, k | 0 <= i < imgIn.Length0 && 0 <= j < imgIn.Length1 && 0 <= k < imgIn.Length2 {
        imgIn[i, j, k] := imgOut[i, j, k];
      }
      forall k | 0 <= k < imgIn.Length2 ensures Channel(imgIn, k) == Channel(imgOut, k) {
        SamePlane(Channel(imgIn, k), Channel(imgOut, k), imgIn.Length1);
      }
    }

    /** Both images hold the n-th iterate of the image the run started with. */
    ghost predicate Iterated(start: seq<Plane>, n: nat)
      requires Valid()
      reads imgIn, imgOut
    {
      && |start| == imgIn.Length2
      && forall k :: 0 <= k < |start| ==>
           && Rectangular(start[k], imgIn.Length1)
           && Channel(imgIn, k) == Iterate(start[k], imgIn.Length1, n)
           && (n > 0 ==> Channel(imgOut, k) == Channel(imgIn, k))
    }

    ghost function Start(): (start: seq<Plane>)
      requires Valid()
      reads imgIn
      ensures |start| == imgIn.Length2
      ensures forall k :: 0 <= k < |start| ==> start[k] == Channel(imgIn, k)
    {
      seq(imgIn.Length2, k requires 0 <= k < imgIn.Length2 reads imgIn => Channel(imgIn, k))
    }

    /** The iteration loop of parallel_gauss_seidel.cpp: (red order, black order) for each iteration. */
    method RedBlackRun(schedule: seq<(seq<Cell>, seq<Cell>)>)
      requires Valid() && BorderBlack()
      requires forall t :: 0 <= t < |schedule| ==> Covers(schedule[t].0) && Covers(schedule[t].1)
      modifies imgIn, imgOut
      ensures BorderBlack() && Iterated(old(Start()), |schedule|)
      ensures |schedule| == 0 ==> forall c: Cell :: InView(c) ==> Out(c) == old(Out(c))
    {
      ghost var start := Start();
      for iter := 0 to |schedule|
        invariant BorderBlack() && Iterated(start, iter)
        invariant iter == 0 ==> forall c: Cell :: InView(c) ==> Out(c) == old(Out(c))
      {
        RedBlackSweep(schedule[iter].0, schedule[iter].1);
        CopyBack();
      }
    }

    // ---------------------------------------------------------------- anti-diagonals

    ghost predicate Square(n: nat) {
      n >= 1 && imgIn.Length0 == imgIn.Length1 == n + 2 && imgIn.Length2 == 3
    }

    /** One kernel body of diagonal k: all three channels of its cell, if it has one. */
    method WaveBody(n: nat, k: nat, idx: nat)
      requires Valid() && Square(n) && 1 <= k < 2 * n && idx < BodiesOf(n, k)
      modifies imgOut
      ensures forall c: Cell :: Inside(c) && Visits(n, k, idx, c.i, c.j) ==> Out(c) == Fifth(c)
      ensures forall c: Cell :: InView(c) && !(Inside(c) && Visits(n, k, idx, c.i, c.j)) ==> Out(c) == old(Out(c))
    {
      var i := RowOf(n, k, idx);
      if i <= n {
        var j := k + 1 - i;
        Apply(Cell(i, j, 0));
        Apply(Cell(i, j, 1));
        Apply(Cell(i, j, 2));
      }
    }

    ghost predicate OnDiagonal(c: Cell, k: nat) {
      c.i + c.j == k + 1
    }

    method DiagonalPass(n: nat, k: nat, order: seq<nat>)
      requires Valid() && Square(n) && 1 <= k < 2 * n && CoversRange(order, BodiesOf(n, k))
      modifies imgOut
      ensures forall c: Cell :: Inside(c) && OnDiagonal(c, k) ==> Out(c) == Fifth(c)
      ensures forall c: Cell :: InView(c) && !(Inside(c) && OnDiagonal(c, k)) ==> Out(c) == old(Out(c))
    {
      for t := 0 to |order|
        invariant forall c: Cell :: Inside(c) && OnDiagonal(c, k) && BodyOf(n, k, c.i) in order[..t] ==> Out(c) == Fifth(c)
        invariant forall c: Cell :: InView(c) && !(Inside(c) && OnDiagonal(c, k)) ==> Out(c) == old(Out(c))
      {
        assert order[..t + 1] == order[..t] + [order[t]];
        WaveBody(n, k, order[t]);
      }
      assert order[..|order|] == order;
    }

    /** The diagonals 1 .. 2n-1 of one iteration. */
    method WaveSweep(n: nat, orders: seq<seq<nat>>)
      requires Valid() && Square(n) && BorderBlack() && |orders| == 2 * n
      requires forall k :: 1 <= k < 2 * n ==> CoversRange(orders[k], BodiesOf(n, k))
      modifies imgOut
      ensures BorderBlack() && Swept()
    {
      for k := 1 to 2 * n
        invariant BorderBlack()
        invariant forall c: Cell :: Inside(c) && c.i + c.j <= k ==> Out(c) == Fifth(c)
      {
        DiagonalPass(n, k, orders[k]);
      }
      AllCellsSwept();
    }

    /** The iteration loop of parallel_wave_gauss_seidel.cpp. */
    method WaveRun(n: nat, schedule: seq<seq<seq<nat>>>)
      requires Valid() && Square(n) && BorderBlack()
      requires forall t :: 0 <= t < |schedule| ==> WaveSchedule(n, schedule[t])
      modifies imgIn, imgOut
      ensures BorderBlack() && Iterated(old(Start()), |schedule|)
    {
      ghost var start := Start();
      for iter := 0 to |schedule|
        invariant BorderBlack() && Iterated(start, iter)
      {
        WaveSweep(n, schedule[iter]);
        CopyBack();
      }
    }
  }

  // ------------------------------------------------------------------ the schedule

  /** The extent of the range policy of diagonal k. */
  function BodiesOf(n: nat, k: nat): nat {
    if k < n then k else n
  }

  /** The row a body works on. */
  function RowOf(n: nat, k: nat, idx: nat): nat {
    if k <= n then 1 + idx else k - n + 1 + idx
  }

  /** The body of a diagonal that works on row i. */
  function BodyOf(n: nat, k: nat, i: nat): int {
    if k <= n then i - 1 else i - 1 - (k - n)
  }

  /** Body idx of diagonal k writes cell (i, j). */
  ghost predicate Visits(n: nat, k: nat, idx: nat, i: nat, j: nat) {
    i == RowOf(n, k, idx) && i <= n && j == k + 1 - i
  }

  ghost predicate CoversRange(order: seq<nat>, size: nat) {
    && (forall t :: 0 <= t < |order| ==> order[t] < size)
    && forall idx: nat :: idx < size ==> idx in order
  }

  ghost predicate WaveSchedule(n: nat, orders: seq<seq<nat>>) {
    && |orders| == 2 * n
    && forall k :: 1 <= k < 2 * n ==> CoversRange(orders[k], BodiesOf(n, k))
  }

  ghost predicate BodyRuns(n: nat, k: nat, idx: nat) {
    1 <= k <= 2 * n - 1 && idx < BodiesOf(n, k)
  }

  /** Every interior cell is visited, by one body of one diagonal only. */
  lemma VisitedOnce(n: nat, i: nat, j: nat) returns (k: nat, idx: nat)
    requires 1 <= i <= n && 1 <= j <= n
    ensures BodyRuns(n, k, idx) && Visits(n, k, idx, i, j)
    ensures forall k', idx' :: BodyRuns(n, k', idx') && Visits(n, k', idx', i, j) ==> k' == k && idx' == idx
  {
    k := i + j - 1;
    idx := if k <= n then i - 1 else i - 1 - (k - n);
  }

  /** No body leaves the interior. */
  lemma VisitsInterior(n: nat, k: nat, idx: nat, i: nat, j: nat)
    requires BodyRuns(n, k, idx) && Visits(n, k, idx, i, j)
    ensures 1 <= i <= n && 1 <= j <= n
  {
  }

  /** No two cells of a diagonal are neighbours. */
  lemma DiagonalIndependent(n: nat, k: nat, idx: nat, idx': nat, i: nat, j: nat, i': nat, j': nat)
    requires BodyRuns(n, k, idx) && Visits(n, k, idx, i, j)
    requires BodyRuns(n, k, idx') && Visits(n, k, idx', i', j')
    ensures !Neighbours(i, j, i', j')
  {
  }
}
