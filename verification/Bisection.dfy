/** The bisection that fits a product of two geometric sums to a target, over the reals. */
module Bisection {

  const HIGH := 0.9999
  const STEPS := 100
  const TOLERANCE := 0.000000001

  /** Multiplication under a name, which proofs hide when they need no more than its laws. */
  function Times(x: real, y: real): real { x * y }

  function Pow(r: real, n: nat): real {
    if n == 0 then 1.0 else Times(Pow(r, n - 1), r)
  }

  /** `1 + r + ... + r^(n-1)` */
  function Geo(r: real, n: nat): real {
    if n == 0 then 0.0 else Geo(r, n - 1) + Pow(r, n - 1)
  }

  function Abs(x: real): real {
    if x < 0.0 then -x else x
  }

  /** The closed form of the source, with its guard. */
  function ClosedGeo(r: real, n: nat): real {
    if Abs(1.0 - r) > TOLERANCE then (1.0 - Pow(r, n)) / (1.0 - r) else n as real
  }

  lemma {:induction false} Telescopes(r: real, n: nat)
    ensures Geo(r, n) * (1.0 - r) == 1.0 - Pow(r, n)
  {
    if n > 0 { Telescopes(r, n - 1); }
  }

  lemma ClosedFormIsSum(r: real, n: nat)
    requires Abs(1.0 - r) > TOLERANCE
    ensures ClosedGeo(r, n) == Geo(r, n)
  {
    Telescopes(r, n);
    assert 1.0 - r != 0.0;
  }

  /** What the matrix of ratios `r` and `r^2` sums to. */
  function Total(start: real, rows: nat, cols: nat, r: real): real {
    Times(start, Times(Geo(r, rows), Geo(Times(r, r), cols)))
  }

  // ---- Laws of multiplication ----

  lemma Product(x: real, y: real)
    requires x >= 0.0 && y >= 0.0
    ensures Times(x, y) >= 0.0
  {}

  lemma Positive(x: real, y: real)
    requires x > 0.0 && y > 0.0
    ensures Times(x, y) > 0.0
  {}

  lemma Mono(a: real, b: real, c: real, d: real)
    requires 0.0 <= a <= b && 0.0 <= c <= d
    ensures 0.0 <= Times(a, c) <= Times(b, d)
  {
    Product(a, c);
    Product(b - a, d);
    Product(a, d - c);
    assert b * d - a * c == (b - a) * d + a * (d - c);
  }

  /** `yv - xu = (y - x)v + x(v - u)` */
  lemma Difference(x: real, y: real, u: real, v: real)
    ensures Times(y, v) - Times(x, u) == Times(y - x, v) + Times(x, v - u)
  {}

  lemma Units(x: real)
    ensures Times(x, 1.0) == x && Times(1.0, x) == x && Times(0.0, x) == 0.0
  {}

  lemma OneMore(m: real, d: real)
    ensures Times(m + 1.0, d) == Times(m, d) + d
  {}

  lemma SquareOneMore(m: real, d: real)
    requires m >= 0.0 && d >= 0.0
    ensures Times(m, Times(m, d)) + Times(m, d) <= Times(m + 1.0, Times(m + 1.0, d))
  {
    Product(m, d);
    assert Times(m + 1.0, Times(m + 1.0, d)) == m * (m * d) + 2.0 * (m * d) + d;
  }

  // ---- Growth ----

  lemma {:induction false} PowBounds(a: real, b: real, n: nat)
    requires 0.0 <= a <= b <= 1.0
    ensures 0.0 <= Pow(a, n) <= Pow(b, n) <= 1.0
    ensures Pow(b, n) - Pow(a, n) <= Times(n as real, b - a)
  {
    hide Times;
    if n > 0 {
      PowBounds(a, b, n - 1);
      var x, y := Pow(a, n - 1), Pow(b, n - 1);
      Mono(x, y, a, b);
      Mono(y, 1.0, b, 1.0);
      Units(1.0);
      Difference(x, y, a, b);
      Mono(y - x, y - x, b, 1.0);
      Mono(x, 1.0, b - a, b - a);
      Units(y - x);
      Units(b - a);
      OneMore((n - 1) as real, b - a);
    } else {
      Units(b - a);
    }
  }

  lemma {:induction false} GeoBounds(a: real, b: real, n: nat)
    requires 0.0 <= a <= b <= 1.0
    ensures 0.0 <= Geo(a, n) <= Geo(b, n) <= n as real
    ensures Geo(b, n) - Geo(a, n) <= Times(n as real, Times(n as real, b - a))
  {
    hide Times, Pow;
    if n > 0 {
      GeoBounds(a, b, n - 1);
      PowBounds(a, b, n - 1);
      SquareOneMore((n - 1) as real, b - a);
    } else {
      Units(Times(0.0, b - a));
    }
  }

  lemma {:induction false} GeoGrows(a: real, b: real, n: nat)
    requires 0.0 <= a < b <= 1.0 && n > 1
    ensures Geo(a, n) < Geo(b, n)
  {
    hide Times;
    PowBounds(a, b, n - 1);
    if n == 2 {
      Units(a);
      Units(b);
      assert Pow(a, 1) == a && Pow(b, 1) == b;
      assert Geo(a, 1) == Geo(b, 1);
    } else {
      GeoGrows(a, b, n - 1);
    }
  }

  lemma {:induction false} AtLeastOne(a: real, n: nat)
    requires 0.0 <= a <= 1.0 && n > 0
    ensures Geo(a, n) >= 1.0
  {
    hide Times;
    if n > 1 {
      AtLeastOne(a, n - 1);
      PowBounds(a, a, n - 1);
    } else {
      assert Geo(a, 0) == 0.0 && Pow(a, 0) == 1.0;
    }
  }

  lemma Squares(a: real, b: real)
    requires 0.0 <= a <= b <= 1.0
    ensures 0.0 <= Times(a, a) <= Times(b, b) <= 1.0
    ensures Times(b, b) - Times(a, a) <= Times(2.0, b - a)
    ensures a < b ==> Times(a, a) < Times(b, b)
  {
    Mono(a, b, a, b);
    Mono(b, 1.0, b, 1.0);
    Mono(b - a, b - a, b + a, 2.0);
    assert Times(b, b) - Times(a, a) == Times(b - a, b + a);
    if a < b { Positive(b - a, b + a); }
  }

  /** How far the total can move when the ratio does. */
  function Slope(start: real, rows: nat, cols: nat, d: real): real {
    var m, n := rows as real, cols as real;
    Times(start, Times(Times(m, Times(m, d)), n) + Times(m, Times(n, Times(n, Times(2.0, d)))))
  }

  /** The error that a bracket of width `d` leaves. */
  function ErrorBound(start: real, rows: nat, cols: nat, d: real): real {
    var m, n := rows as real, cols as real;
    start * m * n * (m + 2.0 * n) * d
  }

  lemma SlopeIsLinear(start: real, rows: nat, cols: nat, d: real)
    ensures Slope(start, rows, cols, d) == ErrorBound(start, rows, cols, d)
  {}

  lemma SquareGeoMoves(a: real, b: real, n: nat)
    requires 0.0 <= a <= b <= 1.0
    ensures 0.0 <= Geo(Times(a, a), n) <= Geo(Times(b, b), n) <= n as real
    ensures Geo(Times(b, b), n) - Geo(Times(a, a), n) <= Times(n as real, Times(n as real, Times(2.0, b - a)))
  {
    hide Times, Geo;
    Squares(a, b);
    var c, d, m := Times(a, a), Times(b, b), n as real;
    GeoBounds(c, d, n);
    Mono(m, m, d - c, Times(2.0, b - a));
    Mono(m, m, Times(m, d - c), Times(m, Times(2.0, b - a)));
  }

  /** The total does not fall as the ratio grows, and moves by at most the slope. */
  lemma TotalMoves(start: real, rows: nat, cols: nat, a: real, b: real)
    requires start >= 0.0 && 0.0 <= a <= b <= 1.0
    ensures 0.0 <= Total(start, rows, cols, b) - Total(start, rows, cols, a) <= Slope(start, rows, cols, b - a)
  {
    hide Times, Geo;
    var x, y, u, v := Geo(a, rows), Geo(b, rows), Geo(Times(a, a), cols), Geo(Times(b, b), cols);
    var m, n, d := rows as real, cols as real, b - a;
    GeoBounds(a, b, rows);
    SquareGeoMoves(a, b, cols);
    Mono(x, y, u, v);
    Difference(x, y, u, v);
    Mono(y - x, Times(m, Times(m, d)), v, n);
    Mono(x, m, v - u, Times(n, Times(n, Times(2.0, d))));
    Mono(start, start, Times(y, v) - Times(x, u),
         Times(Times(m, Times(m, d)), n) + Times(m, Times(n, Times(n, Times(2.0, d)))));
    Distribute(start, Times(y, v), Times(x, u));
  }

  lemma Distribute(s: real, x: real, y: real)
    ensures Times(s, x - y) == Times(s, x) - Times(s, y)
  {}

  /** With more than one row or column the total grows strictly, so at most one ratio meets a target. */
  lemma TotalGrows(start: real, rows: nat, cols: nat, a: real, b: real)
    requires start > 0.0 && rows > 0 && cols > 0 && (rows > 1 || cols > 1) && 0.0 <= a < b <= 1.0
    ensures Total(start, rows, cols, a) < Total(start, rows, cols, b)
  {
    hide Times, Geo;
    var x, y, u, v := Geo(a, rows), Geo(b, rows), Geo(Times(a, a), cols), Geo(Times(b, b), cols);
    Squares(a, b);
    AtLeastOne(a, rows);
    AtLeastOne(Times(a, a), cols);
    GeoBounds(a, b, rows);
    SquareGeoMoves(a, b, cols);
    Difference(x, y, u, v);
    Product(y - x, v);
    Product(x, v - u);
    if rows > 1 {
      GeoGrows(a, b, rows);
      Positive(y - x, v);
    } else {
      GeoGrows(Times(a, a), Times(b, b), cols);
      Positive(x, v - u);
    }
    Positive(start, Times(y, v) - Times(x, u));
    Distribute(start, Times(y, v), Times(x, u));
  }

  // ---- The search ----

  /** The width of the bracket after `n` halvings. */
  function Width(n: nat): real {
    if n == 0 then HIGH else Width(n - 1) / 2.0
  }

  /** `0.9999 / 2^n` */
  lemma {:induction false} WidthHalves(n: nat)
    ensures Pow(2.0, n) >= 1.0 && Width(n) == HIGH / Pow(2.0, n)
  {
    if n > 0 {
      WidthHalves(n - 1);
      Halved(HIGH, Pow(2.0, n - 1));
    }
  }

  lemma Halved(x: real, p: real)
    requires p >= 1.0
    ensures Times(p, 2.0) >= 1.0 && (x / p) / 2.0 == x / Times(p, 2.0)
  {}

  function Target(sparseRatio: real, rows: nat, cols: nat): real {
    (rows as real) * (cols as real) * sparseRatio
  }

  /** The source's sum, by closed forms, is the total: ratios in reach keep clear of 1. */
  lemma ClosedFormsGiveTotal(start: real, rows: nat, cols: nat, r: real)
    requires 0.0 <= r <= HIGH
    ensures start * ClosedGeo(r, rows) * ClosedGeo(r * r, cols) == Total(start, rows, cols, r)
  {
    hide Geo, ClosedGeo;
    Mono(r, HIGH, r, 1.0);
    ClosedFormIsSum(r, rows);
    ClosedFormIsSum(r * r, cols);
  }

  /** The target lies between the totals at the ends of the first bracket. */
  predicate Reachable(start: real, sparseRatio: real, rows: nat, cols: nat) {
    Total(start, rows, cols, 0.0) <= Target(sparseRatio, rows, cols) <= Total(start, rows, cols, HIGH)
  }

  /** A target between the extremes is met within the tolerance, or within the slope over the last bracket. */
  lemma SearchError(start: real, sparseRatio: real, rows: nat, cols: nat, r1: real, low: real, high: real)
    requires start >= 0.0 && 0.0 <= low <= r1 <= high <= HIGH
    requires low == 0.0 || Total(start, rows, cols, low) < Target(sparseRatio, rows, cols)
    requires high == HIGH || Target(sparseRatio, rows, cols) <= Total(start, rows, cols, high)
    requires Reachable(start, sparseRatio, rows, cols)
    ensures Total(start, rows, cols, low) <= Target(sparseRatio, rows, cols) <= Total(start, rows, cols, high)
    ensures Abs(Total(start, rows, cols, r1) - Target(sparseRatio, rows, cols)) <= Slope(start, rows, cols, high - low)
  {
    hide Total, Target, Slope;
    TotalMoves(start, rows, cols, low, r1);
    TotalMoves(start, rows, cols, r1, high);
    TotalMoves(start, rows, cols, low, high);
  }

  /** A bracket halved `n` times is so narrow that any ratio in it will do. */
  predicate Narrow(start: real, rows: nat, cols: nat, n: nat) {
    ErrorBound(start, rows, cols, Width(n)) < TOLERANCE
  }

  /** In a narrow bracket the search stops. */
  lemma NarrowStops(start: real, sparseRatio: real, rows: nat, cols: nat, r1: real, low: real, high: real, n: nat)
    requires start >= 0.0 && 0.0 <= low <= r1 <= high <= HIGH && high - low == Width(n)
    requires low == 0.0 || Total(start, rows, cols, low) < Target(sparseRatio, rows, cols)
    requires high == HIGH || Target(sparseRatio, rows, cols) <= Total(start, rows, cols, high)
    requires Reachable(start, sparseRatio, rows, cols) && Narrow(start, rows, cols, n)
    ensures Abs(Total(start, rows, cols, r1) - Target(sparseRatio, rows, cols)) < TOLERANCE
  {
    hide Total, Target, Slope, ErrorBound, Width;
    SlopeIsLinear(start, rows, cols, high - low);
    SearchError(start, sparseRatio, rows, cols, r1, low, high);
  }

  lemma TenHalvings(n: nat)
    ensures Width(n + 10) == Width(n) / 1024.0
  {
    assert Width(n + 2) == Width(n + 1) / 2.0 == Width(n) / 4.0;
    assert Width(n + 4) == Width(n + 3) / 2.0 == Width(n + 2) / 4.0;
    assert Width(n + 6) == Width(n + 5) / 2.0 == Width(n + 4) / 4.0;
    assert Width(n + 8) == Width(n + 7) / 2.0 == Width(n + 6) / 4.0;
    assert Width(n + 10) == Width(n + 9) / 2.0 == Width(n + 8) / 4.0;
  }

  /** What the sizes and the start value come to; 14976 times the start value for 36 rows and 8 columns. */
  function Extent(start: real, rows: nat, cols: nat): real {
    start * (rows as real) * (cols as real) * ((rows as real) + 2.0 * (cols as real))
  }

  /** Unless that is astronomical, ninety halvings are plenty. */
  lemma NinetyAreNarrow(start: real, rows: nat, cols: nat)
    requires 0.0 <= Extent(start, rows, cols) <= 1000000000000000000.0
    ensures Narrow(start, rows, cols, 90)
  {
    hide Width;
    TenHalvings(0); TenHalvings(10); TenHalvings(20); TenHalvings(30); TenHalvings(40);
    TenHalvings(50); TenHalvings(60); TenHalvings(70); TenHalvings(80);
    assert Width(0) == HIGH by { FullWidth(); }
    var w := Width(90);
    assert 0.0 < w < 0.000000000000000000000000001;
    BoundedProduct(Extent(start, rows, cols), w);
    assert ErrorBound(start, rows, cols, w) == Extent(start, rows, cols) * w;
  }

  lemma FullWidth()
    ensures Width(0) == HIGH
  {}

  lemma BoundedProduct(x: real, w: real)
    requires 0.0 <= x <= 1000000000000000000.0 && 0.0 < w < 0.000000000000000000000000001
    ensures x * w < TOLERANCE
  {
    var y := 1000000000000000000.0;
    assert x * w <= y * w by { Mono(x, y, w, w); }
    assert y * w < TOLERANCE;
  }

  /** The loop of `generate_matrix`; `steps` counts the halvings. */
  method Bisect(start: real, sparseRatio: real, rows: nat, cols: nat)
    returns (r1: real, low: real, high: real, ghost steps: nat)
    ensures 0.0 <= low <= r1 <= high <= 0.9999 && high - low == Width(steps) && steps <= 100
    ensures steps < 100 ==> Abs(Total(start, rows, cols, r1) - Target(sparseRatio, rows, cols)) < TOLERANCE
    ensures steps < 100 <==> -0.000000001 < Total(start, rows, cols, r1) - Target(sparseRatio, rows, cols) < 0.000000001
    ensures low == 0.0 || Total(start, rows, cols, low) < Target(sparseRatio, rows, cols)
    ensures high == HIGH || Target(sparseRatio, rows, cols) <= Total(start, rows, cols, high)
    ensures start >= 0.0 && Reachable(start, sparseRatio, rows, cols) ==>
              forall n :: 0 <= n < STEPS && Narrow(start, rows, cols, n) ==> steps <= n
  {
    hide Total, ClosedGeo, Target, Narrow, Reachable;
    var target := Target(sparseRatio, rows, cols);
    low, high := 0.0, HIGH;
    r1 := 0.5;
    steps := 0;
    for i := 0 to STEPS
      invariant steps == i
      invariant 0.0 <= low < high <= HIGH && high - low == Width(steps)
      invariant low <= r1 <= high
      invariant i > 0 ==> Abs(Total(start, rows, cols, r1) - target) >= TOLERANCE
      invariant low == 0.0 || Total(start, rows, cols, low) < target
      invariant high == HIGH || target <= Total(start, rows, cols, high)
      invariant forall n :: 0 <= n < i && start >= 0.0 && Reachable(start, sparseRatio, rows, cols) ==>
                  !Narrow(start, rows, cols, n)
    {
      r1 := (low + high) / 2.0;
      ClosedFormsGiveTotal(start, rows, cols, r1);
      var current := start * ClosedGeo(r1, rows) * ClosedGeo(r1 * r1, cols);
      if Abs(current - target) < TOLERANCE {
        return;
      }
      if start >= 0.0 && Reachable(start, sparseRatio, rows, cols) && Narrow(start, rows, cols, i) {
        NarrowStops(start, sparseRatio, rows, cols, r1, low, high, i);
      }
      if current < target {
        low := r1;
      } else {
        high := r1;
      }
      steps := steps + 1;
    }
  }

  // ---- The matrix ----

  function SeqSum(s: seq<real>): real {
    if s == [] then 0.0 else SeqSum(s[..|s| - 1]) + s[|s| - 1]
  }

  /** `matrix.sum()` */
  function MatrixSum(m: seq<seq<real>>): real {
    if m == [] then 0.0 else MatrixSum(m[..|m| - 1]) + SeqSum(m[|m| - 1])
  }

  /** `start_val * np.outer(r1**np.arange(rows), r2**np.arange(cols))` */
  function Entry(start: real, r: real, i: nat, j: nat): real {
    Times(start, Times(Pow(r, i), Pow(Times(r, r), j)))
  }

  function OuterRow(start: real, r: real, i: nat, cols: nat): (row: seq<real>)
    ensures |row| == cols && forall j :: 0 <= j < cols ==> row[j] == Entry(start, r, i, j)
  {
    seq(cols, j requires 0 <= j < cols => Entry(start, r, i, j))
  }

  function Outer(start: real, r: real, rows: nat, cols: nat): (m: seq<seq<real>>)
    ensures |m| == rows && forall i :: 0 <= i < rows ==> m[i] == OuterRow(start, r, i, cols)
  {
    seq(rows, i requires 0 <= i < rows => OuterRow(start, r, i, cols))
  }

  lemma {:induction false} RowSum(start: real, r: real, i: nat, cols: nat)
    ensures SeqSum(OuterRow(start, r, i, cols)) == Times(start, Times(Pow(r, i), Geo(Times(r, r), cols)))
  {
    hide Times, Pow;
    var q := Times(r, r);
    if cols > 0 {
      RowSum(start, r, i, cols - 1);
      assert OuterRow(start, r, i, cols)[..cols - 1] == OuterRow(start, r, i, cols - 1);
      Collect(start, Pow(r, i), Geo(q, cols - 1), Pow(q, cols - 1));
    } else {
      Nought(start, Pow(r, i));
    }
  }

  lemma Collect(s: real, p: real, x: real, y: real)
    ensures Times(s, Times(p, x)) + Times(s, Times(p, y)) == Times(s, Times(p, x + y))
    ensures Times(s, Times(x, p)) + Times(s, Times(y, p)) == Times(s, Times(x + y, p))
  {}

  lemma Nought(s: real, p: real)
    ensures Times(s, Times(p, 0.0)) == 0.0 && Times(s, Times(0.0, p)) == 0.0
  {}

  /** The entries of the matrix of ratio `r` sum to its total. */
  lemma {:induction false} OuterSum(start: real, r: real, rows: nat, cols: nat)
    ensures MatrixSum(Outer(start, r, rows, cols)) == Total(start, rows, cols, r)
  {
    hide Times, Pow, OuterRow, SeqSum;
    var q := Geo(Times(r, r), cols);
    if rows > 0 {
      OuterSum(start, r, rows - 1, cols);
      assert Outer(start, r, rows, cols)[..rows - 1] == Outer(start, r, rows - 1, cols);
      RowSum(start, r, rows - 1, cols);
      Collect(start, q, Geo(r, rows - 1), Pow(r, rows - 1));
    } else {
      Nought(start, q);
    }
  }

  /** `generate_matrix`: for a target in reach and sizes that are not astronomical the entries sum to it within
      the tolerance; for any sizes, within the tolerance or what the growth of the total allows over a bracket
      halved a hundred times. */
  method GenerateMatrix(start: real, sparseRatio: real, rows: nat, cols: nat) returns (matrix: seq<seq<real>>)
    ensures exists r1 :: 0.0 <= r1 <= 0.9999 && matrix == Outer(start, r1, rows, cols)
    ensures start >= 0.0 && Reachable(start, sparseRatio, rows, cols) ==>
              || Abs(MatrixSum(matrix) - Target(sparseRatio, rows, cols)) < TOLERANCE
              || Abs(MatrixSum(matrix) - Target(sparseRatio, rows, cols)) <= ErrorBound(start, rows, cols, Width(STEPS))
    ensures start >= 0.0 && Reachable(start, sparseRatio, rows, cols)
            && Extent(start, rows, cols) <= 1000000000000000000.0 ==>
              Abs(MatrixSum(matrix) - Target(sparseRatio, rows, cols)) < TOLERANCE
    ensures rows > 0 && cols > 0 && start >= 0.0
            && start * (rows as real) * (cols as real) * ((rows as real) + 2.0 * (cols as real))
               <= 1000000000000000000.0
            && MeanEntry(Outer(start, 0.0, rows, cols), rows, cols) <= sparseRatio
            && sparseRatio <= MeanEntry(Outer(start, 0.9999, rows, cols), rows, cols) ==>
              var error := MeanEntry(matrix, rows, cols) - sparseRatio;
              var cells := (rows as real) * (cols as real);
              -0.000000001 < error * cells < 0.000000001
  {
    hide Total, Target, Slope, ErrorBound, Outer, MatrixSum, Width, Reachable, Narrow, Extent;
    SlopeIsLinear(start, rows, cols, Width(STEPS));
    var r1, low, high, steps := Bisect(start, sparseRatio, rows, cols);
    OuterSum(start, r1, rows, cols);
    if start >= 0.0 && Reachable(start, sparseRatio, rows, cols) {
      SearchError(start, sparseRatio, rows, cols, r1, low, high);
      if Extent(start, rows, cols) <= 1000000000000000000.0 {
        ExtentIsNotNegative(start, rows, cols);
        NinetyAreNarrow(start, rows, cols);
      }
    }
    matrix := Outer(start, r1, rows, cols);
    if rows > 0 && cols > 0 {
      OuterSum(start, 0.0, rows, cols);
      OuterSum(start, 0.9999, rows, cols);
      MeanIsInReach(start, sparseRatio, rows, cols);
      MeanMissesBy(matrix, sparseRatio, rows, cols);
      ExtentIs(start, rows, cols);
    }
  }

  lemma ExtentIs(start: real, rows: nat, cols: nat)
    ensures Extent(start, rows, cols)
            == start * (rows as real) * (cols as real) * ((rows as real) + 2.0 * (cols as real))
  {}

  /** `matrix.sum() / matrix.size` */
  function MeanEntry(m: seq<seq<real>>, rows: nat, cols: nat): real
    requires rows > 0 && cols > 0
  {
    MatrixSum(m) / ((rows as real) * (cols as real))
  }

  lemma MeanIsInReach(start: real, sparseRatio: real, rows: nat, cols: nat)
    requires rows > 0 && cols > 0
    requires MatrixSum(Outer(start, 0.0, rows, cols)) == Total(start, rows, cols, 0.0)
    requires MatrixSum(Outer(start, 0.9999, rows, cols)) == Total(start, rows, cols, 0.9999)
    ensures MeanEntry(Outer(start, 0.0, rows, cols), rows, cols) <= sparseRatio
            && sparseRatio <= MeanEntry(Outer(start, 0.9999, rows, cols), rows, cols) ==>
              Reachable(start, sparseRatio, rows, cols)
  {
    hide Total, Outer, MatrixSum;
    var cells := (rows as real) * (cols as real);
    QuotientBounds(Total(start, rows, cols, 0.0), cells, sparseRatio);
    QuotientBounds(Total(start, rows, cols, 0.9999), cells, sparseRatio);
  }

  lemma QuotientBounds(x: real, cells: real, ratio: real)
    requires cells > 0.0
    ensures x / cells <= ratio <==> x <= cells * ratio
    ensures ratio <= x / cells <==> cells * ratio <= x
  {
    var q := x / cells;
    assert x == q * cells;
    if q <= ratio { Mono(0.0, ratio - q, cells, cells); } else { Positive(q - ratio, cells); }
    if ratio <= q { Mono(0.0, q - ratio, cells, cells); } else { Positive(ratio - q, cells); }
    assert (ratio - q) * cells == cells * ratio - x;
  }

  lemma MeanMissesBy(m: seq<seq<real>>, sparseRatio: real, rows: nat, cols: nat)
    requires rows > 0 && cols > 0
    ensures (MeanEntry(m, rows, cols) - sparseRatio) * ((rows as real) * (cols as real))
            == MatrixSum(m) - Target(sparseRatio, rows, cols)
  {
    hide MatrixSum;
    var cells, q := (rows as real) * (cols as real), MeanEntry(m, rows, cols);
    assert q * cells == MatrixSum(m);
    assert (q - sparseRatio) * cells == q * cells - cells * sparseRatio;
  }

  lemma ExtentIsNotNegative(start: real, rows: nat, cols: nat)
    requires start >= 0.0
    ensures Extent(start, rows, cols) >= 0.0
  {
    var m, n := rows as real, cols as real;
    Product(start, m);
    Product(start * m, n);
    Product(start * m * n, m + 2.0 * n);
  }

  /** The matrix starts with the start value; down a column entries shrink by `r1`, along a row by its square. */
  lemma OuterIs(start: real, r: real, rows: nat, cols: nat, i: nat, j: nat)
    requires i < rows && j < cols
    ensures var m := Outer(start, r, rows, cols);
            && m[0][0] == start
            && (j > 0 ==> m[i][j] == m[i][j - 1] * (r * r))
            && (i > 0 ==> m[i][j] == m[i - 1][j] * r)
  {}
}
