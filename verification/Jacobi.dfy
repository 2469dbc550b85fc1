/**
 * The five-point sweep both stencil drivers compute, on one colour channel of a padded
 * image, and where iterating it leads.
 */
module Jacobi {

  type Row = seq<nat>
  type Plane = seq<Row>

  ghost predicate Rectangular(p: Plane, cols: nat) {
    forall i :: 0 <= i < |p| ==> |p[i]| == cols
  }

  ghost predicate Blank(row: Row) {
    forall j :: 0 <= j < |row| ==> row[j] == 0
  }

  /** A padded channel: the outermost rows and columns are zero. */
  ghost predicate Padded(p: Plane, cols: nat) {
    && |p| >= 2 && cols >= 2 && Rectangular(p, cols)
    && Blank(p[0]) && Blank(p[|p| - 1])
    && forall i :: 0 <= i < |p| ==> p[i][0] == 0 && p[i][cols - 1] == 0
  }

  ghost predicate Interior(p: Plane, cols: nat, i: int, j: int) {
    0 < i < |p| - 1 && 0 < j < cols - 1
  }

  /** A pixel and its four neighbours. */
  ghost function Five(p: Plane, cols: nat, i: int, j: int): nat
    requires Rectangular(p, cols) && Interior(p, cols, i, j)
  {
    p[i][j] + p[i][j - 1] + p[i][j + 1] + p[i - 1][j] + p[i + 1][j]
  }

  /** One sweep: every interior pixel becomes a fifth of the five, rounded down. */
  ghost function Sweep(p: Plane, cols: nat): (q: Plane)
    requires Rectangular(p, cols)
    ensures |q| == |p| && Rectangular(q, cols)
    ensures forall i, j :: 0 <= i < |p| && 0 <= j < cols ==>
              q[i][j] == (if Interior(p, cols, i, j) then Five(p, cols, i, j) / 5 else 0)
  {
    seq(|p|, i requires 0 <= i < |p| => SweptRow(p, cols, i))
  }

  ghost function SweptRow(p: Plane, cols: nat, i: nat): (row: Row)
    requires Rectangular(p, cols) && i < |p|
    ensures |row| == cols
    ensures forall j :: 0 <= j < cols ==> row[j] == (if Interior(p, cols, i, j) then Five(p, cols, i, j) / 5 else 0)
  {
    seq(cols, j requires 0 <= j < cols => if Interior(p, cols, i, j) then Five(p, cols, i, j) / 5 else 0)
  }

  lemma SweepKeepsPadding(p: Plane, cols: nat)
    requires Padded(p, cols)
    ensures Padded(Sweep(p, cols), cols)
  {
  }

  // ------------------------------------------------------------------ what one sweep does

  /** Cells that share an edge. */
  ghost predicate Neighbours(i: int, j: int, i': int, j': int) {
    || (i == i' && (j' == j + 1 || j == j' + 1))
    || (j == j' && (i' == i + 1 || i == i' + 1))
  }

  /** Only pixel (a, b) is not zero. */
  ghost predicate Impulse(p: Plane, cols: nat, a: int, b: int)
    requires Rectangular(p, cols)
  {
    forall i, j :: 0 <= i < |p| && 0 <= j < cols && !(i == a && j == b) ==> p[i][j] == 0
  }

  /** One pixel gives a fifth of itself to its own place and to its four neighbours inside the border, and nothing elsewhere. */
  lemma SweepOfImpulse(p: Plane, cols: nat, a: nat, b: nat, i: nat, j: nat)
    requires Rectangular(p, cols) && Interior(p, cols, a, b) && Impulse(p, cols, a, b) && i < |p| && j < cols
    ensures Sweep(p, cols)[i][j] ==
              if Interior(p, cols, i, j) && ((i == a && j == b) || Neighbours(a, b, i, j)) then p[a][b] / 5 else 0
  {
  }

  /** A cell that agrees with its four neighbours stays as it is. */
  lemma SweepKeepsLevel(p: Plane, cols: nat, i: nat, j: nat)
    requires Rectangular(p, cols) && Interior(p, cols, i, j)
    requires forall a: nat, b: nat :: a < |p| && b < cols && Neighbours(i, j, a, b) ==> p[a][b] == p[i][j]
    ensures Sweep(p, cols)[i][j] == p[i][j]
  {
    assert Neighbours(i, j, i, j - 1) && Neighbours(i, j, i, j + 1) && Neighbours(i, j, i - 1, j) && Neighbours(i, j, i + 1, j);
  }

  ghost predicate SameShape(p: Plane, q: Plane, cols: nat) {
    |p| == |q| && Rectangular(p, cols) && Rectangular(q, cols)
  }

  /** Pixel by pixel. */
  ghost function Plus(p: Plane, q: Plane, cols: nat): (r: Plane)
    requires SameShape(p, q, cols)
    ensures SameShape(p, r, cols)
    ensures forall i, j :: 0 <= i < |p| && 0 <= j < cols ==> r[i][j] == p[i][j] + q[i][j]
  {
    seq(|p|, i requires 0 <= i < |p| => PlusRow(p[i], q[i]))
  }

  ghost function PlusRow(a: Row, b: Row): (r: Row)
    requires |a| == |b|
    ensures |r| == |a| && forall j :: 0 <= j < |a| ==> r[j] == a[j] + b[j]
  {
    seq(|a|, j requires 0 <= j < |a| => a[j] + b[j])
  }

  ghost predicate Fives(p: Plane, cols: nat)
    requires Rectangular(p, cols)
  {
    forall i, j :: 0 <= i < |p| && 0 <= j < cols ==> p[i][j] % 5 == 0
  }

  /** Superposition: an image whose pixels are multiples of five adds its own sweep to that of any other image. */
  lemma SweepAdds(p: Plane, q: Plane, cols: nat)
    requires SameShape(p, q, cols) && Fives(p, cols)
    ensures Sweep(Plus(p, q, cols), cols) == Plus(Sweep(p, cols), Sweep(q, cols), cols)
  {
    var a, b := Sweep(Plus(p, q, cols), cols), Plus(Sweep(p, cols), Sweep(q, cols), cols);
    forall i | 0 <= i < |p| ensures a[i] == b[i] {
      forall j | 0 <= j < cols ensures a[i][j] == b[i][j] {
        if Interior(p, cols, i, j) {
          FifthsAdd(p, q, cols, i, j);
        }
      }
    }
  }

  lemma FifthsAdd(p: Plane, q: Plane, cols: nat, i: int, j: int)
    requires SameShape(p, q, cols) && Fives(p, cols) && Interior(p, cols, i, j)
    ensures Five(Plus(p, q, cols), cols, i, j) / 5 == Five(p, cols, i, j) / 5 + Five(q, cols, i, j) / 5
  {
    assert Five(Plus(p, q, cols), cols, i, j) == Five(p, cols, i, j) + Five(q, cols, i, j);
    assert Five(p, cols, i, j) % 5 == 0;
  }

  /** The image with its columns, or its rows, in reverse order, and the image turned about its diagonal. */
  ghost function MirrorColumns(p: Plane, cols: nat): (q: Plane)
    requires Rectangular(p, cols)
    ensures SameShape(p, q, cols)
    ensures forall i, j :: 0 <= i < |p| && 0 <= j < cols ==> q[i][j] == p[i][cols - 1 - j]
  {
    seq(|p|, i requires 0 <= i < |p| => MirroredRow(p[i]))
  }

  ghost function MirroredRow(a: Row): (r: Row)
    ensures |r| == |a| && forall j :: 0 <= j < |a| ==> r[j] == a[|a| - 1 - j]
  {
    seq(|a|, j requires 0 <= j < |a| => a[|a| - 1 - j])
  }

  ghost function MirrorRows(p: Plane): (q: Plane)
    ensures |q| == |p| && forall i :: 0 <= i < |p| ==> q[i] == p[|p| - 1 - i]
  {
    seq(|p|, i requires 0 <= i < |p| => p[|p| - 1 - i])
  }

  ghost function Transposed(p: Plane, cols: nat): (q: Plane)
    requires Rectangular(p, cols)
    ensures |q| == cols && Rectangular(q, |p|)
    ensures forall i, j :: 0 <= i < |p| && 0 <= j < cols ==> q[j][i] == p[i][j]
  {
    seq(cols, j requires 0 <= j < cols => TransposedRow(p, cols, j))
  }

  ghost function TransposedRow(p: Plane, cols: nat, j: nat): (r: Row)
    requires Rectangular(p, cols) && j < cols
    ensures |r| == |p| && forall i :: 0 <= i < |p| ==> r[i] == p[i][j]
  {
    seq(|p|, i requires 0 <= i < |p| => p[i][j])
  }

  lemma SamePlane(p: Plane, q: Plane, cols: nat)
    requires SameShape(p, q, cols)
    requires forall i, j :: 0 <= i < |p| && 0 <= j < cols ==> p[i][j] == q[i][j]
    ensures p == q
  {
    forall i | 0 <= i < |p| ensures p[i] == q[i] {
    }
  }

  /** The sweep treats left and right, up and down, and rows and columns alike. */
  lemma SweepMirrorsColumns(p: Plane, cols: nat)
    requires Rectangular(p, cols)
    ensures Sweep(MirrorColumns(p, cols), cols) == MirrorColumns(Sweep(p, cols), cols)
  {
    SamePlane(Sweep(MirrorColumns(p, cols), cols), MirrorColumns(Sweep(p, cols), cols), cols);
  }

  lemma SweepMirrorsRows(p: Plane, cols: nat)
    requires Rectangular(p, cols)
    ensures Rectangular(MirrorRows(p), cols) && Sweep(MirrorRows(p), cols) == MirrorRows(Sweep(p, cols))
  {
    SamePlane(Sweep(MirrorRows(p), cols), MirrorRows(Sweep(p, cols)), cols);
  }

  lemma SweepTransposes(p: Plane, cols: nat)
    requires Rectangular(p, cols)
    ensures Sweep(Transposed(p, cols), |p|) == Transposed(Sweep(p, cols), cols)
  {
    SamePlane(Sweep(Transposed(p, cols), |p|), Transposed(Sweep(p, cols), cols), |p|);
  }

  // ------------------------------------------------------------------ iterating it

  ghost function Iterate(p: Plane, cols: nat, n: nat): (q: Plane)
    requires Rectangular(p, cols)
    ensures |q| == |p| && Rectangular(q, cols)
  {
    if n == 0 then p else Sweep(Iterate(p, cols, n - 1), cols)
  }

  lemma {:induction false} IterateKeepsPadding(p: Plane, cols: nat, n: nat)
    requires Padded(p, cols)
    ensures Padded(Iterate(p, cols, n), cols)
  {
    if n > 0 {
      IterateKeepsPadding(p, cols, n - 1);
      SweepKeepsPadding(Iterate(p, cols, n - 1), cols);
    }
  }

  lemma {:induction false} SweepFirst(p: Plane, cols: nat, n: nat)
    requires Rectangular(p, cols) && n > 0
    ensures Iterate(p, cols, n) == Iterate(Sweep(p, cols), cols, n - 1)
  {
    if n > 1 {
      SweepFirst(p, cols, n - 1);
    }
  }

  // ------------------------------------------------------------------ the maximum

  ghost predicate AtMost(p: Plane, cols: nat, max: nat)
    requires Rectangular(p, cols)
  {
    forall i, j :: 0 <= i < |p| && 0 <= j < cols ==> p[i][j] <= max
  }

  lemma SweepKeepsMaximum(p: Plane, cols: nat, max: nat)
    requires Rectangular(p, cols) && AtMost(p, cols, max)
    ensures AtMost(Sweep(p, cols), cols, max)
  {
    var q := Sweep(p, cols);
    forall i, j | 0 <= i < |q| && 0 <= j < cols ensures q[i][j] <= max {
      if Interior(p, cols, i, j) {
        assert Five(p, cols, i, j) <= 5 * max;
      }
    }
  }

  /** No pixel ever exceeds the initial maximum; in particular the sums stay within a byte's. */
  lemma {:induction false} IterateKeepsMaximum(p: Plane, cols: nat, max: nat, n: nat)
    requires Rectangular(p, cols) && AtMost(p, cols, max)
    ensures AtMost(Iterate(p, cols, n), cols, max)
  {
    if n > 0 {
      IterateKeepsMaximum(p, cols, max, n - 1);
      SweepKeepsMaximum(Iterate(p, cols, n - 1), cols, max);
    }
  }

  // ------------------------------------------------------------------ sums

  /** The sum of the first k numbers of a row. */
  ghost function SumTo(row: seq<nat>, k: nat): nat
    requires k <= |row|
  {
    if k == 0 then 0 else SumTo(row, k - 1) + row[k - 1]
  }

  ghost function RowSum(row: Row): nat {
    SumTo(row, |row|)
  }

  ghost function RowSums(p: Plane): (sums: seq<nat>)
    ensures |sums| == |p|
    ensures forall i :: 0 <= i < |p| ==> sums[i] == RowSum(p[i])
  {
    seq(|p|, i requires 0 <= i < |p| => RowSum(p[i]))
  }

  ghost function PlaneSum(p: Plane): nat {
    RowSum(RowSums(p))
  }

  lemma {:induction false} ZeroSum(row: Row, k: nat)
    requires k <= |row|
    ensures SumTo(row, k) == 0 <==> forall j :: 0 <= j < k ==> row[j] == 0
  {
    if k > 0 {
      ZeroSum(row, k - 1);
    }
  }

  lemma BlankSum(row: Row)
    ensures RowSum(row) == 0 <==> Blank(row)
  {
    ZeroSum(row, |row|);
  }

  ghost predicate Black(p: Plane) {
    forall i :: 0 <= i < |p| ==> Blank(p[i])
  }

  // ------------------------------------------------------------------ one row of a sweep

  /** Row `q` of a sweep, between rows `up` and `down` of the image. */
  ghost predicate RowSwept(q: Row, up: Row, mid: Row, down: Row) {
    && |q| == |up| == |mid| == |down| >= 2
    && q[0] == 0 && q[|q| - 1] == 0
    && mid[0] == 0 && mid[|q| - 1] == 0
    && forall j {:trigger q[j]} :: 0 < j < |q| - 1 ==> 5 * q[j] <= mid[j] + mid[j - 1] + mid[j + 1] + up[j] + down[j]
  }

  ghost predicate Rounded(q: Row, up: Row, mid: Row, down: Row, j: int)
    requires RowSwept(q, up, mid, down)
  {
    0 < j < |q| - 1 && 5 * q[j] < mid[j] + mid[j - 1] + mid[j + 1] + up[j] + down[j]
  }

  ghost function At(s: seq<nat>, j: nat): nat {
    if j < |s| then s[j] else 0
  }

  lemma {:induction false} RowPrefixSum(q: Row, up: Row, mid: Row, down: Row, at: int, j: nat)
    requires RowSwept(q, up, mid, down) && 1 <= j <= |q|
    ensures 5 * SumTo(q, j) + (if Rounded(q, up, mid, down, at) && at < j then 1 else 0)
         <= 2 * SumTo(mid, j) + At(mid, j) + SumTo(mid, j - 1) + SumTo(up, j) + SumTo(down, j)
  {
    if j > 1 {
      RowPrefixSum(q, up, mid, down, at, j - 1);
    }
  }

  /** A swept row holds no more than its share of three rows, and less if a division lost something. */
  lemma RowShare(q: Row, up: Row, mid: Row, down: Row, at: int)
    requires RowSwept(q, up, mid, down)
    ensures 5 * RowSum(q) + (if Rounded(q, up, mid, down, at) then 1 else 0)
         <= 3 * RowSum(mid) + RowSum(up) + RowSum(down)
  {
    RowPrefixSum(q, up, mid, down, at, |q|);
  }

  // ------------------------------------------------------------------ one sweep

  lemma SweptRowIsSwept(p: Plane, cols: nat, i: nat)
    requires Padded(p, cols) && 0 < i < |p| - 1
    ensures RowSwept(Sweep(p, cols)[i], p[i - 1], p[i], p[i + 1])
  {
    var q := Sweep(p, cols)[i];
    forall j | 0 < j < cols - 1
      ensures 5 * q[j] <= p[i][j] + p[i][j - 1] + p[i][j + 1] + p[i - 1][j] + p[i + 1][j]
    {
      assert Interior(p, cols, i, j);
    }
  }

  /** Pixel (r, c) of the swept image lost something to rounding. */
  ghost predicate Lost(p: Plane, cols: nat, r: int, c: int)
    requires Rectangular(p, cols)
  {
    Interior(p, cols, r, c) && 5 * Sweep(p, cols)[r][c] < Five(p, cols, r, c)
  }

  /** Row sums `t` of a sweep of an image with row sums `s`. */
  ghost predicate SumsSwept(t: seq<nat>, s: seq<nat>) {
    && |t| == |s| >= 2
    && t[0] == 0 && t[|t| - 1] == 0 && s[0] == 0 && s[|s| - 1] == 0
    && forall i {:trigger t[i]} :: 0 < i < |t| - 1 ==> 5 * t[i] <= 3 * s[i] + s[i - 1] + s[i + 1]
  }

  ghost predicate Short(t: seq<nat>, s: seq<nat>, r: int)
    requires SumsSwept(t, s)
  {
    0 < r < |t| - 1 && 5 * t[r] < 3 * s[r] + s[r - 1] + s[r + 1]
  }

  lemma {:induction false} SumsPrefix(t: seq<nat>, s: seq<nat>, r: int, i: nat)
    requires SumsSwept(t, s) && 1 <= i <= |t|
    ensures 5 * SumTo(t, i) + (if Short(t, s, r) && r < i then 1 else 0) + (if i > 1 then s[1] else 0)
         <= 4 * SumTo(s, i) + At(s, i) + SumTo(s, i - 1)
  {
    if i > 1 {
      SumsPrefix(t, s, r, i - 1);
    }
  }

  lemma SumsShare(t: seq<nat>, s: seq<nat>, r: int)
    requires SumsSwept(t, s)
    ensures 5 * RowSum(t) + (if Short(t, s, r) then 1 else 0) + (if |s| > 2 then s[1] else 0) <= 5 * RowSum(s)
  {
    SumsPrefix(t, s, r, |t|);
  }

  lemma SweepRowSums(p: Plane, cols: nat)
    requires Padded(p, cols)
    ensures SumsSwept(RowSums(Sweep(p, cols)), RowSums(p))
  {
    var q := Sweep(p, cols);
    var t, s, n := RowSums(q), RowSums(p), |p| - 1;
    BlankSum(q[0]);
    BlankSum(q[n]);
    BlankSum(p[0]);
    BlankSum(p[n]);
    forall i | 0 < i < n ensures 5 * t[i] <= 3 * s[i] + s[i - 1] + s[i + 1] {
      SweptRowIsSwept(p, cols, i);
      RowShare(q[i], p[i - 1], p[i], p[i + 1], 0);
    }
  }

  lemma LostRowIsShort(p: Plane, cols: nat, r: int, c: int)
    requires Padded(p, cols) && Lost(p, cols, r, c)
    requires SumsSwept(RowSums(Sweep(p, cols)), RowSums(p))
    ensures Short(RowSums(Sweep(p, cols)), RowSums(p), r)
  {
    SweptRowIsSwept(p, cols, r);
    RowShare(Sweep(p, cols)[r], p[r - 1], p[r], p[r + 1], c);
  }

  /** The sum never grows; it falls when a division rounds or the first image row holds anything. */
  lemma SweepSum(p: Plane, cols: nat, r: int, c: int)
    requires Padded(p, cols)
    ensures PlaneSum(Sweep(p, cols)) <= PlaneSum(p)
    ensures Lost(p, cols, r, c) || (|p| > 2 && !Blank(p[1])) ==> PlaneSum(Sweep(p, cols)) < PlaneSum(p)
  {
    var t, s := RowSums(Sweep(p, cols)), RowSums(p);
    SweepRowSums(p, cols);
    SumsShare(t, s, r);
    if Lost(p, cols, r, c) {
      LostRowIsShort(p, cols, r, c);
    }
    if |p| > 2 {
      BlankSum(p[1]);
    }
  }

  // ------------------------------------------------------------------ fading to black

  /** The topmost row that is not blank; |p| when all are. */
  ghost function Top(p: Plane): (t: nat)
    ensures t <= |p|
    ensures forall i :: 0 <= i < t ==> Blank(p[i])
    ensures t < |p| ==> !Blank(p[t])
  {
    if p == [] then 0
    else
      var t := Top(p[..|p| - 1]);
      assert forall i :: 0 <= i < |p| - 1 ==> p[i] == p[..|p| - 1][i];
      if t < |p| - 1 || !Blank(p[|p| - 1]) then t else |p|
  }

  /** A sweep lowers the pixel sum, or keeps it and moves the topmost row up. */
  lemma SweepDescends(p: Plane, cols: nat)
    requires Padded(p, cols) && !Black(p)
    ensures var q := Sweep(p, cols);
            || PlaneSum(q) < PlaneSum(p)
            || (PlaneSum(q) == PlaneSum(p) && Top(q) < Top(p))
  {
    var q, r := Sweep(p, cols), Top(p);
    var i :| 0 <= i < |p| && !Blank(p[i]);
    assert r <= i;
    var c :| 0 <= c < cols && p[r][c] != 0;
    SweepSum(p, cols, r - 1, c);
    if r > 1 {
      assert Interior(p, cols, r - 1, c);
      assert Five(p, cols, r - 1, c) >= p[r][c];
      if q[r - 1][c] > 0 {
        assert !Blank(q[r - 1]);
      }
    }
  }

  /** sum * (rows + 1) + top. */
  ghost function Rank(sum: nat, rows: nat, top: nat): nat {
    if sum == 0 then top else rows + 1 + Rank(sum - 1, rows, top)
  }

  lemma {:induction false} RankFalls(a: nat, b: nat, rows: nat, s: nat, t: nat)
    requires s <= rows && (a < b || (a == b && s < t))
    ensures Rank(a, rows, s) < Rank(b, rows, t)
  {
    if a > 0 {
      RankFalls(a - 1, b - 1, rows, s, t);
    } else if b > 1 {
      RankFalls(0, b - 1, rows, s, t);
    }
  }

  lemma {:induction false} RankClosedForm(sum: nat, rows: nat, top: nat)
    ensures Rank(sum, rows, top) == sum * (rows + 1) + top
  {
    if sum > 0 {
      RankClosedForm(sum - 1, rows, top);
    }
  }

  /** How many sweeps an image can take at most before it is black. */
  ghost function Budget(p: Plane): nat {
    Rank(PlaneSum(p), |p|, Top(p))
  }

  lemma BlackStays(p: Plane, cols: nat)
    requires Rectangular(p, cols) && Black(p)
    ensures Black(Sweep(p, cols))
  {
    var q := Sweep(p, cols);
    forall i | 0 <= i < |q| ensures Blank(q[i]) {
      forall j | 0 <= j < cols ensures q[i][j] == 0 {
        if Interior(p, cols, i, j) {
          assert Blank(p[i - 1]) && Blank(p[i]) && Blank(p[i + 1]);
          assert Five(p, cols, i, j) == 0;
        }
      }
    }
  }

  /** Iterated often enough, the sweep turns every image black, and black it stays. */
  lemma {:induction false} FadesToBlack(p: Plane, cols: nat, n: nat)
    requires Padded(p, cols) && n >= Budget(p)
    ensures Black(Iterate(p, cols, n))
    decreases n
  {
    if Black(p) {
      StaysBlack(p, cols, n);
    } else {
      var q := Sweep(p, cols);
      SweepUsesBudget(p, cols);
      FadesToBlack(q, cols, n - 1);
      assert Black(Iterate(q, cols, n - 1));
      SweepFirst(p, cols, n);
    }
  }

  lemma SweepUsesBudget(p: Plane, cols: nat)
    requires Padded(p, cols) && !Black(p)
    ensures Padded(Sweep(p, cols), cols) && Budget(Sweep(p, cols)) < Budget(p)
  {
    SweepDescends(p, cols);
    RankFalls(PlaneSum(Sweep(p, cols)), PlaneSum(p), |p|, Top(Sweep(p, cols)), Top(p));
    SweepKeepsPadding(p, cols);
  }

  lemma {:induction false} StaysBlack(p: Plane, cols: nat, n: nat)
    requires Rectangular(p, cols) && Black(p)
    ensures Black(Iterate(p, cols, n))
  {
    if n > 0 {
      StaysBlack(p, cols, n - 1);
      BlackStays(Iterate(p, cols, n - 1), cols);
    }
  }
}
