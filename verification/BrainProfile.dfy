/** The brain profile metric D + (s/k) UᵀU over exact reals: how it is validated and built,
    and what its bilinear form and its cosine score are. */
module BrainProfile {

  const DIMENSIONS := 12
  const MAX_LOW_RANK := 4
  const MAX_INTENSITY := 0.35
  const MIN_WEIGHT := 0.05
  const MAX_WEIGHT := 20.0
  const MAX_FACTOR := 4.0
  const MAX_CONDITION := 500.0

  type Vector = seq<real>
  type Matrix = seq<seq<real>>

  // ----- Sums

  // Products are named so that the sums below stay linear for the solver.

  function Mul(a: real, b: real): real {
    a * b
  }

  function Quotient(a: real, b: real): real
    requires b != 0.0
  {
    a / b
  }

  function Mul3(a: real, b: real, c: real): real {
    a * b * c
  }

  /** The quadratic form a² xx + 2ab xy + b² yy. */
  function Quadratic(a: real, b: real, xx: real, xy: real, yy: real): real {
    a * a * xx + 2.0 * a * b * xy + b * b * yy
  }

  function DotTo(a: Vector, b: Vector, n: nat): real
    requires n <= |a| && n <= |b|
  {
    if n == 0 then 0.0 else DotTo(a, b, n - 1) + a[n - 1] * b[n - 1]
  }

  function Dot(a: Vector, b: Vector): real
    requires |a| == |b|
  {
    DotTo(a, b, |a|)
  }

  function WeightedTo(d: Vector, x: Vector, y: Vector, n: nat): real
    requires n <= |d| && n <= |x| && n <= |y|
  {
    if n == 0 then 0.0 else WeightedTo(d, x, y, n - 1) + Mul3(d[n - 1], x[n - 1], y[n - 1])
  }

  predicate Rows(rows: seq<Vector>, n: nat) {
    forall k :: 0 <= k < |rows| ==> |rows[k]| == n
  }

  /** Sum over the first k factors of (u·x)(u·y). */
  function Projections(u: seq<Vector>, x: Vector, y: Vector, k: nat): real
    requires k <= |u| && |x| == |y| && Rows(u, |x|)
  {
    if k == 0 then 0.0 else Projections(u, x, y, k - 1) + Mul(Dot(u[k - 1], x), Dot(u[k - 1], y))
  }

  function SquaresTo(u: seq<Vector>, k: nat): real
    requires k <= |u|
  {
    if k == 0 then 0.0 else SquaresTo(u, k - 1) + Dot(u[k - 1], u[k - 1])
  }

  /** The closed form: sum of d x y plus s times the projections. */
  function Form(d: Vector, u: seq<Vector>, s: real, x: Vector, y: Vector): real
    requires |d| == |x| == |y| && Rows(u, |d|)
  {
    WeightedTo(d, x, y, |d|) + Mul(s, Projections(u, x, y, |u|))
  }

  // ----- The matrix and its bilinear form

  /** One entry after the first k factors have been added. */
  function Entry(d: Vector, u: seq<Vector>, s: real, k: nat, row: nat, column: nat): real
    requires k <= |u| && Rows(u, |d|) && row < |d| && column < |d|
  {
    if k == 0 then (if row == column then d[row] else 0.0)
    else Entry(d, u, s, k - 1, row, column) + Mul3(s, u[k - 1][row], u[k - 1][column])
  }

  predicate Square(m: Matrix, n: nat) {
    |m| == n && forall r :: 0 <= r < n ==> |m[r]| == n
  }

  ghost predicate IsMetric(m: Matrix, d: Vector, u: seq<Vector>, s: real, k: nat) {
    && k <= |u| && Rows(u, |d|) && Square(m, |d|)
    && forall r, c :: 0 <= r < |d| && 0 <= c < |d| ==> m[r][c] == Entry(d, u, s, k, r, c)
  }

  function RowTo(a: real, row: Vector, y: Vector, n: nat): real
    requires n <= |row| && n <= |y|
  {
    if n == 0 then 0.0 else RowTo(a, row, y, n - 1) + Mul3(a, row[n - 1], y[n - 1])
  }

  function BilinearTo(m: Matrix, x: Vector, y: Vector, n: nat): real
    requires |x| == |y| && Square(m, |x|) && n <= |x|
  {
    if n == 0 then 0.0 else BilinearTo(m, x, y, n - 1) + RowTo(x[n - 1], m[n - 1], y, |y|)
  }

  function Bilinear(m: Matrix, x: Vector, y: Vector): real
    requires |x| == |y| && Square(m, |x|)
  {
    BilinearTo(m, x, y, |x|)
  }

  lemma {:induction false} DiagonalRow(a: real, row: Vector, y: Vector, r: nat, n: nat)
    requires |row| == |y| && r < |row| && n <= |row|
    requires forall c :: 0 <= c < |row| && c != r ==> row[c] == 0.0
    ensures RowTo(a, row, y, n) == if n <= r then 0.0 else Mul3(a, row[r], y[r])
  {
    if n > 0 {
      DiagonalRow(a, row, y, r, n - 1);
      if n - 1 != r { assert Mul3(a, row[n - 1], y[n - 1]) == 0.0; }
    }
  }

  lemma {:induction false} Mul3Swap(a: real, b: real, c: real)
    ensures Mul3(a, b, c) == Mul3(b, a, c) == Mul3(a, c, b)
  {
    assert a * b * c == b * a * c == a * c * b;
  }

  lemma {:induction false} DiagonalForm(m: Matrix, d: Vector, u: seq<Vector>, s: real, x: Vector, y: Vector, n: nat)
    requires IsMetric(m, d, u, s, 0) && |x| == |y| == |d| && n <= |d|
    ensures BilinearTo(m, x, y, n) == WeightedTo(d, x, y, n)
  {
    if n > 0 {
      DiagonalForm(m, d, u, s, x, y, n - 1);
      DiagonalRow(x[n - 1], m[n - 1], y, n - 1, |y|);
      Mul3Swap(x[n - 1], d[n - 1], y[n - 1]);
    }
  }

  lemma {:induction false} AddedTerm(a: real, b: real, s: real, p: real, q: real, y: real, t: real, t': real)
    requires t' == t + q * y
    ensures Mul3(a, b + Mul3(s, p, q), y) + Mul3(a, Mul3(s, p, t), 1.0) == Mul3(a, b, y) + Mul3(a, Mul3(s, p, t'), 1.0)
  {
    var o := s * p * q;
    assert a * (b + o) * y == a * b * y + a * o * y;
    assert a * o * y == a * (s * p * (q * y));
    assert a * (s * p * (t + q * y)) == a * (s * p * t) + a * (s * p * (q * y));
  }

  /** Adding s u_r u_c along a row adds a s u_r (u·y) to its sum. */
  lemma {:induction false} OuterRow(a: real, row: Vector, base: Vector, s: real, p: real, v: Vector, y: Vector, n: nat)
    requires |row| == |base| == |v| == |y| && n <= |y|
    requires forall c :: 0 <= c < |row| ==> row[c] == base[c] + Mul3(s, p, v[c])
    ensures RowTo(a, row, y, n) == RowTo(a, base, y, n) + Mul3(a, Mul3(s, p, DotTo(v, y, n)), 1.0)
  {
    if n > 0 {
      OuterRow(a, row, base, s, p, v, y, n - 1);
      AddedTerm(a, base[n - 1], s, p, v[n - 1], y[n - 1], DotTo(v, y, n - 1), DotTo(v, y, n));
    }
  }

  lemma {:induction false} Regroup(x: real, s: real, p: real, t: real, w: real, t': real)
    requires t' == t + p * x
    ensures Mul3(s, t, w) + Mul3(x, Mul3(s, p, w), 1.0) == Mul3(s, t', w)
  {
    assert x * (s * p * w) * 1.0 == s * (p * x) * w;
    assert s * (t + p * x) == s * t + s * (p * x);
    assert (s * t + s * (p * x)) * w == s * t * w + s * (p * x) * w;
  }

  lemma {:induction false} OuterForm(m: Matrix, base: Matrix, s: real, v: Vector, x: Vector, y: Vector, n: nat)
    requires |x| == |y| == |v| && Square(m, |x|) && Square(base, |x|) && n <= |x|
    requires forall r, c :: 0 <= r < |x| && 0 <= c < |x| ==> m[r][c] == base[r][c] + Mul3(s, v[r], v[c])
    ensures BilinearTo(m, x, y, n) == BilinearTo(base, x, y, n) + Mul3(s, DotTo(v, x, n), Dot(v, y))
  {
    if n == 0 {
    } else {
      hide Mul3;
      OuterForm(m, base, s, v, x, y, n - 1);
      forall c | 0 <= c < |x| ensures m[n - 1][c] == base[n - 1][c] + Mul3(s, v[n - 1], v[c]) { }
      OuterRow(x[n - 1], m[n - 1], base[n - 1], s, v[n - 1], v, y, |y|);
      Regroup(x[n - 1], s, v[n - 1], DotTo(v, x, n - 1), Dot(v, y), DotTo(v, x, n));
    }
  }

  /** The metric built so far, as a matrix. */
  ghost function MetricOf(d: Vector, u: seq<Vector>, s: real, k: nat): (m: Matrix)
    requires k <= |u| && Rows(u, |d|)
    ensures IsMetric(m, d, u, s, k)
  {
    seq(|d|, r requires 0 <= r < |d| => seq(|d|, c requires 0 <= c < |d| => Entry(d, u, s, k, r, c)))
  }

  lemma {:induction false} AddedProduct(s: real, t: real, p: real, q: real)
    ensures Mul(s, t + Mul(p, q)) == Mul(s, t) + Mul3(s, p, q)
  {
    assert s * (t + p * q) == s * t + s * (p * q);
  }

  /** The nested sum over the built matrix is the closed form. */
  lemma {:induction false} MatrixIsForm(m: Matrix, d: Vector, u: seq<Vector>, s: real, k: nat, x: Vector, y: Vector)
    requires IsMetric(m, d, u, s, k) && |x| == |y| == |d|
    ensures Bilinear(m, x, y) == WeightedTo(d, x, y, |d|) + Mul(s, Projections(u, x, y, k))
    ensures k == |u| ==> Bilinear(m, x, y) == Form(d, u, s, x, y)
    decreases k
  {
    if k == 0 {
      DiagonalForm(m, d, u, s, x, y, |d|);
    } else {
      hide Mul, Mul3;
      var base := MetricOf(d, u, s, k - 1);
      MatrixIsForm(base, d, u, s, k - 1, x, y);
      OuterForm(m, base, s, u[k - 1], x, y, |x|);
      AddedProduct(s, Projections(u, x, y, k - 1), Dot(u[k - 1], x), Dot(u[k - 1], y));
    }
  }

  lemma {:induction false} EntrySymmetric(d: Vector, u: seq<Vector>, s: real, k: nat, row: nat, column: nat)
    requires k <= |u| && Rows(u, |d|) && row < |d| && column < |d|
    ensures Entry(d, u, s, k, row, column) == Entry(d, u, s, k, column, row)
  {
    if k > 0 {
      EntrySymmetric(d, u, s, k - 1, row, column);
      var p, q := u[k - 1][row], u[k - 1][column];
      assert Mul3(s, p, q) == Mul3(s, q, p) by { assert s * p * q == s * q * p; }
    }
  }

  // ----- Bilinearity

  function Combine(a: real, x: Vector, b: real, y: Vector): (z: Vector)
    requires |x| == |y|
    ensures |z| == |x| && forall i :: 0 <= i < |x| ==> z[i] == a * x[i] + b * y[i]
  {
    seq(|x|, i requires 0 <= i < |x| => a * x[i] + b * y[i])
  }

  lemma {:induction false} DotCombine(v: Vector, a: real, x: Vector, b: real, y: Vector, n: nat)
    requires |v| == |x| == |y| && n <= |x|
    ensures DotTo(v, Combine(a, x, b, y), n) == a * DotTo(v, x, n) + b * DotTo(v, y, n)
  {
    if n > 0 {
      DotCombine(v, a, x, b, y, n - 1);
      var p, q, r := v[n - 1], x[n - 1], y[n - 1];
      assert p * (a * q + b * r) == a * (p * q) + b * (p * r);
      assert a * (DotTo(v, x, n - 1) + p * q) == a * DotTo(v, x, n - 1) + a * (p * q);
      assert b * (DotTo(v, y, n - 1) + p * r) == b * DotTo(v, y, n - 1) + b * (p * r);
    }
  }

  /** w (a p + b q)² expanded. */
  lemma {:induction false} SquareOfSum(w: real, a: real, p: real, b: real, q: real, z: real)
    requires z == a * p + b * q
    ensures Mul3(w, z, z) == Quadratic(a, b, Mul3(w, p, p), Mul3(w, p, q), Mul3(w, q, q))
  {
    var s, t := a * p, b * q;
    assert w * (s + t) * (s + t) == w * s * s + 2.0 * (w * s * t) + w * t * t;
    assert w * s * s == a * a * (w * p * p);
    assert w * s * t == a * b * (w * p * q);
    assert w * t * t == b * b * (w * q * q);
  }

  lemma {:induction false} QuadraticSum(a: real, b: real, xx: real, xy: real, yy: real, dxx: real, dxy: real, dyy: real)
    ensures Quadratic(a, b, xx + dxx, xy + dxy, yy + dyy)
        == Quadratic(a, b, xx, xy, yy) + Quadratic(a, b, dxx, dxy, dyy)
  {
    assert a * a * (xx + dxx) == a * a * xx + a * a * dxx;
    assert 2.0 * a * b * (xy + dxy) == 2.0 * a * b * xy + 2.0 * a * b * dxy;
    assert b * b * (yy + dyy) == b * b * yy + b * b * dyy;
  }

  lemma {:induction false} QuadraticScaled(s: real, a: real, b: real, xx: real, xy: real, yy: real)
    ensures Mul(s, Quadratic(a, b, xx, xy, yy)) == Quadratic(a, b, Mul(s, xx), Mul(s, xy), Mul(s, yy))
  {
    var p, q, r := a * a * xx, 2.0 * a * b * xy, b * b * yy;
    assert s * (p + q + r) == s * p + s * q + s * r;
    assert s * p == a * a * (s * xx);
    assert s * q == 2.0 * a * b * (s * xy);
    assert s * r == b * b * (s * yy);
  }

  lemma {:induction false} WeightedCombine(d: Vector, a: real, x: Vector, b: real, y: Vector, n: nat)
    requires |d| == |x| == |y| && n <= |x|
    ensures var z := Combine(a, x, b, y);
            WeightedTo(d, z, z, n)
                == Quadratic(a, b, WeightedTo(d, x, x, n), WeightedTo(d, x, y, n), WeightedTo(d, y, y, n))
  {
    if n == 0 {
    } else {
      hide Quadratic, Mul3;
      WeightedCombine(d, a, x, b, y, n - 1);
      var w, p, q := d[n - 1], x[n - 1], y[n - 1];
      SquareOfSum(w, a, p, b, q, Combine(a, x, b, y)[n - 1]);
      QuadraticSum(a, b, WeightedTo(d, x, x, n - 1), WeightedTo(d, x, y, n - 1), WeightedTo(d, y, y, n - 1),
          Mul3(w, p, p), Mul3(w, p, q), Mul3(w, q, q));
    }
  }

  lemma {:induction false} SquareOfSum1(a: real, p: real, b: real, q: real, z: real)
    requires z == a * p + b * q
    ensures Mul(z, z) == Quadratic(a, b, Mul(p, p), Mul(p, q), Mul(q, q))
  {
    SquareOfSum(1.0, a, p, b, q, z);
  }

  lemma {:induction false} ProjectionsCombine(u: seq<Vector>, a: real, x: Vector, b: real, y: Vector, k: nat)
    requires |x| == |y| && Rows(u, |x|) && k <= |u|
    ensures var z := Combine(a, x, b, y);
            Projections(u, z, z, k)
                == Quadratic(a, b, Projections(u, x, x, k), Projections(u, x, y, k), Projections(u, y, y, k))
  {
    if k == 0 {
    } else {
      hide Quadratic, Mul;
      ProjectionsCombine(u, a, x, b, y, k - 1);
      var p, q, t := Dot(u[k - 1], x), Dot(u[k - 1], y), Dot(u[k - 1], Combine(a, x, b, y));
      DotCombine(u[k - 1], a, x, b, y, |x|);
      SquareOfSum1(a, p, b, q, t);
      QuadraticSum(a, b, Projections(u, x, x, k - 1), Projections(u, x, y, k - 1), Projections(u, y, y, k - 1),
          Mul(p, p), Mul(p, q), Mul(q, q));
    }
  }

  lemma {:induction false} FormCombine(d: Vector, u: seq<Vector>, s: real, a: real, x: Vector, b: real, y: Vector)
    requires |d| == |x| == |y| && Rows(u, |d|)
    ensures var z := Combine(a, x, b, y);
            Form(d, u, s, z, z) == Quadratic(a, b, Form(d, u, s, x, x), Form(d, u, s, x, y), Form(d, u, s, y, y))
  {
    hide Quadratic, Mul;
    WeightedCombine(d, a, x, b, y, |d|);
    ProjectionsCombine(u, a, x, b, y, |u|);
    var pxx, pxy, pyy := Projections(u, x, x, |u|), Projections(u, x, y, |u|), Projections(u, y, y, |u|);
    QuadraticScaled(s, a, b, pxx, pxy, pyy);
    QuadraticSum(a, b, WeightedTo(d, x, x, |d|), WeightedTo(d, x, y, |d|), WeightedTo(d, y, y, |d|), Mul(s, pxx),
        Mul(s, pxy), Mul(s, pyy));
  }

  // ----- Positivity, bounds and Cauchy-Schwarz

  ghost predicate NonZero(x: Vector) {
    exists i :: 0 <= i < |x| && x[i] != 0.0
  }

  predicate Within(d: Vector, low: real, high: real) {
    forall i :: 0 <= i < |d| ==> low <= d[i] <= high
  }

  lemma {:induction false} SquareNonNegative(p: real)
    ensures Mul(p, p) >= 0.0
  {
  }

  lemma {:induction false} TermBounds(low: real, w: real, high: real, p: real)
    requires low <= w <= high
    ensures Mul(low, p * p) <= Mul3(w, p, p) <= Mul(high, p * p)
  {
    var q := p * p;
    assert q >= 0.0;
    assert low * q <= w * q <= high * q;
  }

  lemma {:induction false} MulAdd(a: real, p: real, q: real)
    ensures Mul(a, p + q) == Mul(a, p) + Mul(a, q)
  {
  }

  lemma {:induction false} WeightedBounds(d: Vector, low: real, high: real, x: Vector, n: nat)
    requires |d| == |x| && n <= |d| && Within(d, low, high)
    ensures Mul(low, DotTo(x, x, n)) <= WeightedTo(d, x, x, n) <= Mul(high, DotTo(x, x, n))
  {
    if n == 0 {
    } else {
      hide Mul, Mul3;
      WeightedBounds(d, low, high, x, n - 1);
      TermBounds(low, d[n - 1], high, x[n - 1]);
      MulAdd(low, DotTo(x, x, n - 1), x[n - 1] * x[n - 1]);
      MulAdd(high, DotTo(x, x, n - 1), x[n - 1] * x[n - 1]);
    }
  }

  lemma {:induction false} ProjectionsNonNegative(u: seq<Vector>, x: Vector, k: nat)
    requires k <= |u| && Rows(u, |x|)
    ensures Projections(u, x, x, k) >= 0.0
  {
    if k > 0 {
      ProjectionsNonNegative(u, x, k - 1);
      SquareNonNegative(Dot(u[k - 1], x));
    }
  }

  lemma {:induction false} SquarePositive(p: real)
    ensures p * p >= 0.0 && (p * p == 0.0 <==> p == 0.0)
  {
    if p > 0.0 { ProductPositive(p, p); }
    if p < 0.0 {
      ProductPositive(-p, -p);
      assert (-p) * (-p) == p * p;
    }
  }

  lemma {:induction false} DotPositive(x: Vector, n: nat)
    requires n <= |x|
    ensures DotTo(x, x, n) >= 0.0
    ensures DotTo(x, x, n) == 0.0 <==> forall i :: 0 <= i < n ==> x[i] == 0.0
  {
    if n > 0 {
      DotPositive(x, n - 1);
      var p := x[n - 1];
      SquarePositive(p);
    }
  }

  lemma {:induction false} ZeroDot(v: Vector, x: Vector, n: nat)
    requires n <= |v| && n <= |x| && forall i :: 0 <= i < n ==> x[i] == 0.0
    ensures DotTo(v, x, n) == 0.0
  {
    if n > 0 { ZeroDot(v, x, n - 1); }
  }

  lemma {:induction false} ZeroWeighted(d: Vector, x: Vector, y: Vector, n: nat)
    requires n <= |d| && n <= |x| && n <= |y| && forall i :: 0 <= i < n ==> y[i] == 0.0
    ensures WeightedTo(d, x, y, n) == 0.0
  {
    if n > 0 { ZeroWeighted(d, x, y, n - 1); }
  }

  lemma {:induction false} ZeroProjections(u: seq<Vector>, x: Vector, y: Vector, k: nat)
    requires |x| == |y| && k <= |u| && Rows(u, |x|) && forall i :: 0 <= i < |y| ==> y[i] == 0.0
    ensures Projections(u, x, y, k) == 0.0
  {
    if k > 0 {
      ZeroProjections(u, x, y, k - 1);
      ZeroDot(u[k - 1], y, |y|);
    }
  }

  predicate Metric(d: Vector, u: seq<Vector>, s: real) {
    Rows(u, |d|) && s >= 0.0 && forall i :: 0 <= i < |d| ==> d[i] > 0.0
  }

  function Least(d: Vector): (m: real)
    requires d != []
    ensures m in d && forall i :: 0 <= i < |d| ==> m <= d[i]
  {
    if |d| == 1 then d[0] else
      var rest := Least(d[1..]);
      assert forall i :: 1 <= i < |d| ==> d[i] == d[1..][i - 1];
      if d[0] < rest then d[0] else rest
  }

  function Greatest(d: Vector): (m: real)
    requires d != []
    ensures m in d && forall i :: 0 <= i < |d| ==> d[i] <= m
  {
    if |d| == 1 then d[0] else
      var rest := Greatest(d[1..]);
      assert forall i :: 1 <= i < |d| ==> d[i] == d[1..][i - 1];
      if d[0] > rest then d[0] else rest
  }

  lemma {:induction false} ProductNonNegative(a: real, b: real)
    requires a >= 0.0 && b >= 0.0
    ensures Mul(a, b) >= 0.0
  {
  }

  lemma {:induction false} ProductPositive(a: real, b: real)
    requires a > 0.0 && b > 0.0
    ensures Mul(a, b) > 0.0
  {
  }

  /** The form is positive definite. */
  lemma {:induction false} FormPositive(d: Vector, u: seq<Vector>, s: real, x: Vector)
    requires Metric(d, u, s) && |x| == |d|
    ensures Form(d, u, s, x, x) >= 0.0
    ensures Form(d, u, s, x, x) > 0.0 <==> NonZero(x)
  {
    ProjectionsNonNegative(u, x, |u|);
    ProductNonNegative(s, Projections(u, x, x, |u|));
    DotPositive(x, |x|);
    if d != [] {
      WeightedBounds(d, Least(d), Greatest(d), x, |x|);
      if NonZero(x) {
        ProductPositive(Least(d), Dot(x, x));
      } else {
        ZeroWeighted(d, x, x, |x|);
        ZeroProjections(u, x, x, |u|);
        assert Mul(s, 0.0) == 0.0;
      }
    } else {
      ZeroProjections(u, x, x, |u|);
      assert Mul(s, 0.0) == 0.0;
    }
  }

  lemma {:induction false} Discriminant(xx: real, xy: real, yy: real)
    requires yy > 0.0
    requires Quadratic(yy, -xy, xx, xy, yy) >= 0.0
    ensures xy * xy <= xx * yy
  {
    assert yy * yy * xx + 2.0 * yy * (-xy) * xy + (-xy) * (-xy) * yy == yy * (xx * yy - xy * xy);
    assert yy * (xx * yy - xy * xy) == -(yy * (xy * xy - xx * yy));
    if xx * yy - xy * xy < 0.0 { ProductPositive(yy, xy * xy - xx * yy); }
  }

  /** Cauchy-Schwarz for the metric. */
  lemma {:induction false} CauchySchwarz(d: Vector, u: seq<Vector>, s: real, x: Vector, y: Vector)
    requires Metric(d, u, s) && |x| == |y| == |d|
    ensures Form(d, u, s, x, y) * Form(d, u, s, x, y) <= Form(d, u, s, x, x) * Form(d, u, s, y, y)
  {
    hide Form, Quadratic;
    var xx, xy, yy := Form(d, u, s, x, x), Form(d, u, s, x, y), Form(d, u, s, y, y);
    FormPositive(d, u, s, x);
    FormPositive(d, u, s, y);
    if yy > 0.0 {
      FormCombine(d, u, s, yy, x, -xy, y);
      FormPositive(d, u, s, Combine(yy, x, -xy, y));
      Discriminant(xx, xy, yy);
    } else {
      FormOfZero(d, u, s, x, y);
    }
  }

  lemma {:induction false} FormOfZero(d: Vector, u: seq<Vector>, s: real, x: Vector, y: Vector)
    requires Rows(u, |d|) && |x| == |y| == |d| && !NonZero(y)
    ensures Form(d, u, s, x, y) == 0.0
  {
    ZeroWeighted(d, x, y, |d|);
    ZeroProjections(u, x, y, |u|);
  }

  lemma {:induction false} WeightedOnes(ones: Vector, x: Vector, y: Vector, n: nat)
    requires n <= |ones| && n <= |x| && n <= |y| && forall i :: 0 <= i < n ==> ones[i] == 1.0
    ensures WeightedTo(ones, x, y, n) == DotTo(x, y, n)
  {
    if n > 0 { WeightedOnes(ones, x, y, n - 1); }
  }

  /** Cauchy-Schwarz for the plain dot product, as the metric with unit weights. */
  lemma {:induction false} DotCauchySchwarz(x: Vector, y: Vector)
    requires |x| == |y|
    ensures Dot(x, y) * Dot(x, y) <= Dot(x, x) * Dot(y, y)
  {
    var ones := seq(|x|, i => 1.0);
    CauchySchwarz(ones, [], 0.0, x, y);
    WeightedOnes(ones, x, y, |x|);
    WeightedOnes(ones, x, x, |x|);
    WeightedOnes(ones, y, y, |x|);
  }

  lemma {:induction false} ProjectionsBound(u: seq<Vector>, x: Vector, k: nat)
    requires k <= |u| && Rows(u, |x|)
    ensures Projections(u, x, x, k) <= Mul(SquaresTo(u, k), Dot(x, x))
  {
    if k > 0 {
      ProjectionsBound(u, x, k - 1);
      DotCauchySchwarz(u[k - 1], x);
      var a, b, c := SquaresTo(u, k - 1), Dot(u[k - 1], u[k - 1]), Dot(x, x);
      assert (a + b) * c == a * c + b * c;
    }
  }

  // ----- The condition number

  function Upper(d: Vector, u: seq<Vector>, s: real): real
    requires d != []
  {
    Greatest(d) + Mul(s, SquaresTo(u, |u|))
  }

  /** min(d)|x|² <= form(x, x) <= (max(d) + s Σ|u_k|²)|x|². */
  lemma {:induction false} FormBounds(d: Vector, u: seq<Vector>, s: real, x: Vector)
    requires Metric(d, u, s) && d != [] && |x| == |d|
    ensures Mul(Least(d), Dot(x, x)) <= Form(d, u, s, x, x) <= Mul(Upper(d, u, s), Dot(x, x))
  {
    hide Mul;
    WeightedBounds(d, Least(d), Greatest(d), x, |x|);
    ProjectionsNonNegative(u, x, |u|);
    ProductNonNegative(s, Projections(u, x, x, |u|));
    ProjectionsBound(u, x, |u|);
    ScaledBound(s, Projections(u, x, x, |u|), Mul(SquaresTo(u, |u|), Dot(x, x)));
    Distribute(Greatest(d), s, SquaresTo(u, |u|), Dot(x, x), Upper(d, u, s));
  }

  lemma {:induction false} ScaledBound(s: real, p: real, q: real)
    requires s >= 0.0 && p <= q
    ensures Mul(s, p) <= Mul(s, q)
  {
  }

  lemma {:induction false} Distribute(g: real, s: real, t: real, c: real, up: real)
    requires up == g + Mul(s, t)
    ensures Mul(up, c) == Mul(g, c) + Mul(s, Mul(t, c))
  {
    assert (g + s * t) * c == g * c + s * t * c;
    assert s * t * c == s * (t * c);
  }

  lemma {:induction false} RatioBound(low: real, upper: real, bound: real, qx: real, qy: real, nx: real, ny: real)
    requires 0.0 <= nx && 0.0 <= ny && upper <= Mul(bound, low) && bound >= 0.0
    requires qx <= Mul(upper, nx) && Mul(low, ny) <= qy
    ensures qx * ny <= bound * qy * nx
  {
    var n := nx * ny;
    assert n >= 0.0;
    assert qx * ny <= upper * nx * ny;
    assert upper * n <= bound * low * n;
    assert bound * (low * ny) * nx == bound * low * n;
    assert bound * (low * ny) <= bound * qy;
    assert bound * (low * ny) * nx <= bound * qy * nx;
    assert upper * nx * ny == upper * n;
  }

  /** Where the gate passes, the ratio of the form to the squared length varies over all
      vectors by a factor of at most 500: the true condition number. */
  lemma {:induction false} ConditionNumber(d: Vector, u: seq<Vector>, s: real, x: Vector, y: Vector)
    requires Metric(d, u, s) && d != [] && |x| == |y| == |d|
    requires Upper(d, u, s) <= Mul(MAX_CONDITION, Least(d))
    ensures Form(d, u, s, x, x) * Dot(y, y) <= MAX_CONDITION * Form(d, u, s, y, y) * Dot(x, x)
  {
    hide Form, Upper, Mul;
    FormBounds(d, u, s, x);
    FormBounds(d, u, s, y);
    DotPositive(x, |x|);
    DotPositive(y, |y|);
    RatioBound(Least(d), Upper(d, u, s), MAX_CONDITION, Form(d, u, s, x, x), Form(d, u, s, y, y), Dot(x, x), Dot(y, y));
  }

  // ----- Validation and construction

  datatype ProfileError =
    | InvalidVectorLength | NonPositiveDiagonal | DiagonalOutOfBounds | RankExceeded | CoefficientOutOfBounds
    | IntensityOutOfBounds | IntensityWithoutFactors | ConditionExceeded

  datatype Built = Built(matrix: Matrix) | Rejected(error: ProfileError)

  predicate WeightsOk(d: Vector) {
    |d| == DIMENSIONS && forall i :: 0 <= i < |d| ==> MIN_WEIGHT <= d[i] <= MAX_WEIGHT
  }

  predicate FactorsBounded(u: seq<Vector>) {
    forall k, i :: 0 <= k < |u| && 0 <= i < |u[k]| ==> -MAX_FACTOR <= u[k][i] <= MAX_FACTOR
  }

  predicate FactorsOk(u: seq<Vector>) {
    |u| <= MAX_LOW_RANK && Rows(u, DIMENSIONS) && FactorsBounded(u)
  }

  predicate IntensityOk(u: seq<Vector>, intensity: real) {
    0.0 <= intensity <= MAX_INTENSITY && (u == [] ==> intensity == 0.0)
  }

  function Scale(u: seq<Vector>, intensity: real): real {
    if u == [] then 0.0 else Quotient(intensity, |u| as real)
  }

  /** The gate: the spectral upper bound over the least weight stays within the limit. */
  predicate ConditionOk(d: Vector, u: seq<Vector>, intensity: real)
    requires d != [] && Least(d) > 0.0
  {
    Quotient(Upper(d, u, Scale(u, intensity)), Least(d)) <= MAX_CONDITION
  }

  predicate Accepted(d: Vector, u: seq<Vector>, intensity: real) {
    WeightsOk(d) && FactorsOk(u) && IntensityOk(u, intensity) && ConditionOk(d, u, intensity)
  }

  /** What each rejection says: its own check failed after the earlier ones passed. */
  ghost predicate Justified(e: ProfileError, d: Vector, u: seq<Vector>, intensity: real) {
    match e
    case InvalidVectorLength => |d| != DIMENSIONS || (WeightsOk(d) && |u| <= MAX_LOW_RANK && !Rows(u, DIMENSIONS))
    case NonPositiveDiagonal => exists i :: 0 <= i < |d| && d[i] <= 0.0 && forall j :: 0 <= j < i ==>
        MIN_WEIGHT <= d[j] <= MAX_WEIGHT
    case DiagonalOutOfBounds =>
      exists i :: 0 <= i < |d| && d[i] > 0.0 && !(MIN_WEIGHT <= d[i] <= MAX_WEIGHT) && forall j :: 0 <= j < i ==>
          MIN_WEIGHT <= d[j] <= MAX_WEIGHT
    case RankExceeded => WeightsOk(d) && |u| > MAX_LOW_RANK
    case CoefficientOutOfBounds => WeightsOk(d) && |u| <= MAX_LOW_RANK && Rows(u, DIMENSIONS) && !FactorsBounded(u)
    case IntensityOutOfBounds => WeightsOk(d) && FactorsOk(u) && !(0.0 <= intensity <= MAX_INTENSITY)
    case IntensityWithoutFactors => WeightsOk(d) && FactorsOk(u) && u == [] && intensity != 0.0
    case ConditionExceeded => WeightsOk(d) && FactorsOk(u) && IntensityOk(u, intensity) && !ConditionOk(d, u, intensity)
  }

  method ValidateDiagonal(d: Vector) returns (error: seq<ProfileError>)
    ensures error == [] <==> WeightsOk(d)
    ensures error != [] ==> |error| == 1 && forall u, intensity :: Justified(error[0], d, u, intensity)
    ensures error != [] ==> error[0] in {InvalidVectorLength, NonPositiveDiagonal, DiagonalOutOfBounds}
  {
    if |d| != DIMENSIONS {
      return [InvalidVectorLength];
    }
    for i := 0 to |d|
      invariant forall j :: 0 <= j < i ==> MIN_WEIGHT <= d[j] <= MAX_WEIGHT
    {
      if d[i] <= 0.0 {
        return [NonPositiveDiagonal];
      }
      if d[i] < MIN_WEIGHT || d[i] > MAX_WEIGHT {
        return [DiagonalOutOfBounds];
      }
    }
    error := [];
  }

  method ValidateFactors(u: seq<Vector>) returns (error: seq<ProfileError>)
    ensures error == [] <==> FactorsOk(u)
    ensures error != [] ==> |error| == 1 && error[0] in {RankExceeded, InvalidVectorLength, CoefficientOutOfBounds}
    ensures error == [RankExceeded] ==> |u| > MAX_LOW_RANK
    ensures error == [InvalidVectorLength] ==> |u| <= MAX_LOW_RANK && !Rows(u, DIMENSIONS)
    ensures error == [CoefficientOutOfBounds] ==> |u| <= MAX_LOW_RANK && Rows(u, DIMENSIONS) && !FactorsBounded(u)
  {
    if |u| > MAX_LOW_RANK {
      return [RankExceeded];
    }
    for k := 0 to |u|
      invariant forall j :: 0 <= j < k ==> |u[j]| == DIMENSIONS
    {
      if |u[k]| != DIMENSIONS {
        return [InvalidVectorLength];
      }
    }
    for k := 0 to |u|
      invariant forall j, i :: 0 <= j < k && 0 <= i < |u[j]| ==> -MAX_FACTOR <= u[j][i] <= MAX_FACTOR
    {
      for c := 0 to |u[k]|
        invariant forall i :: 0 <= i < c ==> -MAX_FACTOR <= u[k][i] <= MAX_FACTOR
      {
        var value := u[k][c];
        if (if value < 0.0 then -value else value) > MAX_FACTOR {
          assert !(-MAX_FACTOR <= u[k][c] <= MAX_FACTOR);
          return [CoefficientOutOfBounds];
        }
      }
    }
    error := [];
  }

  method SumSquares(v: Vector) returns (t: real)
    ensures t == Dot(v, v)
  {
    t := 0.0;
    for i := 0 to |v|
      invariant t == DotTo(v, v, i)
    {
      t := t + v[i] * v[i];
    }
  }

  method Extremes(d: Vector) returns (least: real, greatest: real)
    requires d != []
    ensures least == Least(d) && greatest == Greatest(d)
  {
    least, greatest := d[0], d[0];
    for i := 1 to |d|
      invariant forall j :: 0 <= j < i ==> least <= d[j] <= greatest
      invariant least in d && greatest in d
    {
      if d[i] < least { least := d[i]; }
      if d[i] > greatest { greatest := d[i]; }
    }
  }

  method TotalSquares(u: seq<Vector>) returns (total: real)
    ensures total == SquaresTo(u, |u|)
  {
    total := 0.0;
    for k := 0 to |u|
      invariant total == SquaresTo(u, k)
    {
      var t := SumSquares(u[k]);
      total := total + t;
    }
  }

  /** `_validate_metric_condition`. */
  method ValidateCondition(d: Vector, u: seq<Vector>, intensity: real) returns (ok: bool)
    requires d != [] && Least(d) > 0.0
    ensures ok <==> ConditionOk(d, u, intensity)
  {
    hide Scale, Mul, Quotient;
    var least, greatest := Extremes(d);
    var total := TotalSquares(u);
    ok := Quotient(greatest + Mul(Scale(u, intensity), total), least) <= MAX_CONDITION;
  }

  /** The accumulation loops of `build_psd_metric_matrix`. */
  method Accumulate(d: Vector, u: seq<Vector>, s: real) returns (m: Matrix)
    requires Rows(u, |d|)
    ensures IsMetric(m, d, u, s, |u|)
  {
    var n := |d|;
    var a := new real[n, n]((i, j) requires 0 <= i < n && 0 <= j < n => if i == j then d[i] else 0.0);
    for k := 0 to |u|
      invariant forall r, c :: 0 <= r < n && 0 <= c < n ==> a[r, c] == Entry(d, u, s, k, r, c)
    {
      for row := 0 to n
        invariant forall r, c :: 0 <= r < row && 0 <= c < n ==> a[r, c] == Entry(d, u, s, k + 1, r, c)
        invariant forall r, c :: row <= r < n && 0 <= c < n ==> a[r, c] == Entry(d, u, s, k, r, c)
      {
        for column := 0 to n
          invariant forall r, c :: 0 <= r < row && 0 <= c < n ==> a[r, c] == Entry(d, u, s, k + 1, r, c)
          invariant forall c :: 0 <= c < column ==> a[row, c] == Entry(d, u, s, k + 1, row, c)
          invariant forall c :: column <= c < n ==> a[row, c] == Entry(d, u, s, k, row, c)
          invariant forall r, c :: row < r < n && 0 <= c < n ==> a[r, c] == Entry(d, u, s, k, r, c)
        {
          a[row, column] := a[row, column] + s * u[k][row] * u[k][column];
        }
      }
    }
    m := [];
    for r := 0 to n
      invariant |m| == r
      invariant forall i :: 0 <= i < r ==> |m[i]| == n && forall c :: 0 <= c < n ==> m[i][c] == a[i, c]
    {
      var row: Vector := [];
      for c := 0 to n
        invariant |row| == c && forall i :: 0 <= i < c ==> row[i] == a[r, i]
      {
        row := row + [a[r, c]];
      }
      m := m + [row];
    }
  }

  /** `build_psd_metric_matrix`: every rejection is justified by the first failing check, and
      an accepted input gives the metric. */
  method BuildMetric(d: Vector, u: seq<Vector>, intensity: real) returns (res: Built)
    ensures res.Built? <==> Accepted(d, u, intensity)
    ensures res.Built? ==> IsMetric(res.matrix, d, u, Scale(u, intensity), |u|)
    ensures res.Rejected? ==> Justified(res.error, d, u, intensity)
  {
    var error := ValidateDiagonal(d);
    if error != [] {
      return Rejected(error[0]);
    }
    error := ValidateFactors(u);
    if error != [] {
      return Rejected(error[0]);
    }
    if !(0.0 <= intensity <= MAX_INTENSITY) {
      return Rejected(IntensityOutOfBounds);
    }
    if u == [] && intensity != 0.0 {
      return Rejected(IntensityWithoutFactors);
    }
    var ok := ValidateCondition(d, u, intensity);
    if !ok {
      return Rejected(ConditionExceeded);
    }
    var m := Accumulate(d, u, Scale(u, intensity));
    res := Built(m);
  }

  lemma {:induction false} SignOfProduct(a: real, r: real)
    requires r > 0.0
    ensures a * r > 0.0 <==> a > 0.0
    ensures a * r < 0.0 <==> a < 0.0
  {
    if a > 0.0 { ProductPositive(a, r); }
    if a < 0.0 {
      ProductPositive(-a, r);
      assert (-a) * r == -(a * r);
    }
  }

  lemma {:induction false} QuotientBound(p: real, r: real, c: real)
    requires r > 0.0
    ensures Quotient(p, r) <= c <==> p <= Mul(c, r)
    ensures Quotient(p, r) >= c <==> p >= Mul(c, r)
    ensures Quotient(p, r) > 0.0 <==> p > 0.0
    ensures Quotient(p, r) * r == p
  {
    var q := p / r;
    assert q * r == p;
    assert (q - c) * r == p - c * r;
    SignOfProduct(q - c, r);
    SignOfProduct(q, r);
  }

  lemma {:induction false} ScaleNonNegative(u: seq<Vector>, intensity: real)
    requires intensity >= 0.0
    ensures Scale(u, intensity) >= 0.0
  {
    if u != [] { QuotientBound(intensity, |u| as real, 0.0); }
  }

  lemma {:induction false} AcceptedIsMetric(d: Vector, u: seq<Vector>, intensity: real)
    requires Accepted(d, u, intensity)
    ensures Metric(d, u, Scale(u, intensity)) && |d| == DIMENSIONS
    ensures Upper(d, u, Scale(u, intensity)) <= Mul(MAX_CONDITION, Least(d))
  {
    hide Scale, Upper, Quotient, Mul;
    ScaleNonNegative(u, intensity);
    QuotientBound(Upper(d, u, Scale(u, intensity)), Least(d), MAX_CONDITION);
  }

  /** What an accepted profile's matrix is: symmetric, equal as a form to the closed one,
      positive definite, bounded on both sides, and of condition number at most 500. */
  lemma {:induction false} BuiltMetricProperties(d: Vector, u: seq<Vector>, intensity: real, m: Matrix, x: Vector,
      y: Vector)
    requires Accepted(d, u, intensity) && IsMetric(m, d, u, Scale(u, intensity), |u|)
    requires |x| == |y| == DIMENSIONS
    ensures forall r, c :: 0 <= r < DIMENSIONS && 0 <= c < DIMENSIONS ==> m[r][c] == m[c][r]
    ensures Bilinear(m, x, y) == Form(d, u, Scale(u, intensity), x, y)
    ensures Bilinear(m, x, x) > 0.0 <==> NonZero(x)
    ensures Mul(Least(d), Dot(x, x)) <= Bilinear(m, x, x) <= Mul(Upper(d, u, Scale(u, intensity)), Dot(x, x))
    ensures Bilinear(m, x, x) * Dot(y, y) <= MAX_CONDITION * Bilinear(m, y, y) * Dot(x, x)
  {
    hide Form, Upper, Mul, Scale, Accepted, Bilinear, Least, Entry;
    var s := Scale(u, intensity);
    AcceptedIsMetric(d, u, intensity);
    forall r, c | 0 <= r < DIMENSIONS && 0 <= c < DIMENSIONS ensures m[r][c] == m[c][r] {
      EntrySymmetric(d, u, s, |u|, r, c);
    }
    MatrixIsForm(m, d, u, s, |u|, x, y);
    MatrixIsForm(m, d, u, s, |u|, x, x);
    MatrixIsForm(m, d, u, s, |u|, y, y);
    assert Bilinear(m, x, y) == Form(d, u, s, x, y) && Bilinear(m, x, x) == Form(d, u, s, x, x)
        && Bilinear(m, y, y) == Form(d, u, s, y, y);
    FormPositive(d, u, s, x);
    FormBounds(d, u, s, x);
    ConditionNumber(d, u, s, x, y);
  }

  // ----- The score

  /** The nested sum of `score_brain_profile_v1`. */
  method EvaluateBilinear(m: Matrix, x: Vector, y: Vector) returns (t: real)
    requires |x| == |y| && Square(m, |x|)
    ensures t == Bilinear(m, x, y)
  {
    t := 0.0;
    for row := 0 to |x|
      invariant t == BilinearTo(m, x, y, row)
    {
      for column := 0 to |y|
        invariant t == BilinearTo(m, x, y, row) + RowTo(x[row], m[row], y, column)
      {
        t := t + x[row] * m[row][column] * y[column];
      }
    }
  }

  /** `root` is the exact square root of the product of the two squared norms. */
  predicate IsRoot(root: real, xx: real, yy: real) {
    xx > 0.0 && yy > 0.0 ==> root > 0.0 && root * root == xx * yy
  }

  function Clamped(cosine: real): real {
    var low := if cosine > 0.0 then cosine else 0.0;
    if low < 1.0 then low else 1.0
  }

  function Cosine(xx: real, yy: real, xy: real, root: real): real
    requires IsRoot(root, xx, yy)
  {
    if xx <= 0.0 || yy <= 0.0 then 0.0 else Clamped(Quotient(xy, root))
  }

  function ScoreOf(m: Matrix, x: Vector, y: Vector, root: real): real
    requires |x| == |y| && Square(m, |x|) && IsRoot(root, Bilinear(m, x, x), Bilinear(m, y, y))
  {
    Cosine(Bilinear(m, x, x), Bilinear(m, y, y), Bilinear(m, x, y), root)
  }

  /** `score_brain_profile_v1`, on vectors already projected. */
  method Score(m: Matrix, x: Vector, y: Vector, root: real) returns (score: real)
    requires |x| == |y| && Square(m, |x|) && IsRoot(root, Bilinear(m, x, x), Bilinear(m, y, y))
    ensures score == ScoreOf(m, x, y, root)
  {
    var xx := EvaluateBilinear(m, x, x);
    var yy := EvaluateBilinear(m, y, y);
    if xx <= 0.0 || yy <= 0.0 {
      return 0.0;
    }
    var xy := EvaluateBilinear(m, x, y);
    var cosine := Quotient(xy, root);
    score := if cosine > 0.0 then cosine else 0.0;
    score := if score < 1.0 then score else 1.0;
  }

  lemma {:induction false} SquareOrder(a: real, b: real)
    requires a >= 0.0 && b >= 0.0
    ensures a * a <= b * b <==> a <= b
    ensures a * a == b * b <==> a == b
  {
    assert b * b - a * a == (b - a) * (b + a);
    if a < b { ProductPositive(b - a, b + a); }
    if b < a {
      ProductPositive(a - b, a + b);
      assert (b - a) * (b + a) == -((a - b) * (a + b));
    }
  }

  lemma {:induction false} RootBounds(xy: real, root: real, product: real)
    requires root > 0.0 && root * root == product && xy * xy <= product
    ensures Quotient(xy, root) <= 1.0
    ensures xy > 0.0 <==> Quotient(xy, root) > 0.0
  {
    var size := if xy < 0.0 then -xy else xy;
    assert size * size == xy * xy;
    SquareOrder(size, root);
    QuotientBound(xy, root, 1.0);
  }

  /** The score is a genuine cosine: the upper clamp never acts, and the score is zero exactly
      when an argument is zero or the form of the two is not positive. */
  lemma {:induction false} ScoreIsCosine(d: Vector, u: seq<Vector>, s: real, x: Vector, y: Vector, root: real)
    requires Metric(d, u, s) && |x| == |y| == |d|
    requires IsRoot(root, Form(d, u, s, x, x), Form(d, u, s, y, y))
    ensures var xy := Form(d, u, s, x, y);
            var score := Cosine(Form(d, u, s, x, x), Form(d, u, s, y, y), xy, root);
            && 0.0 <= score <= 1.0
            && (score == 0.0 <==> !NonZero(x) || !NonZero(y) || xy <= 0.0)
    ensures var xx, yy, xy := Form(d, u, s, x, x), Form(d, u, s, y, y), Form(d, u, s, x, y);
            && (xx > 0.0 <==> NonZero(x)) && (yy > 0.0 <==> NonZero(y))
            && (xx > 0.0 && yy > 0.0 ==> Quotient(xy, root) <= 1.0)
            && (xx > 0.0 && yy > 0.0 && xy > 0.0 ==> Cosine(xx, yy, xy, root) == Quotient(xy, root))
  {
    hide Form;
    FormPositive(d, u, s, x);
    FormPositive(d, u, s, y);
    if NonZero(x) && NonZero(y) {
      CauchySchwarz(d, u, s, x, y);
      RootBounds(Form(d, u, s, x, y), root, Form(d, u, s, x, x) * Form(d, u, s, y, y));
    }
  }

  lemma {:induction false} UniqueRoot(a: real, b: real, product: real)
    requires a > 0.0 && b > 0.0 && a * a == product && b * b == product
    ensures a == b
  {
    SquareOrder(a, b);
  }

  /** A non-zero vector scores 1 against itself. */
  lemma {:induction false} ScoreOfSelf(d: Vector, u: seq<Vector>, s: real, x: Vector, root: real)
    requires Metric(d, u, s) && |x| == |d| && NonZero(x)
    requires IsRoot(root, Form(d, u, s, x, x), Form(d, u, s, x, x))
    ensures Cosine(Form(d, u, s, x, x), Form(d, u, s, x, x), Form(d, u, s, x, x), root) == 1.0
  {
    hide Form;
    FormPositive(d, u, s, x);
    UniqueRoot(root, Form(d, u, s, x, x), root * root);
    QuotientBound(root, root, 1.0);
  }

  lemma {:induction false} WeightedSymmetric(d: Vector, x: Vector, y: Vector, n: nat)
    requires n <= |d| && n <= |x| && n <= |y|
    ensures WeightedTo(d, x, y, n) == WeightedTo(d, y, x, n)
  {
    if n > 0 {
      WeightedSymmetric(d, x, y, n - 1);
      Mul3Swap(d[n - 1], x[n - 1], y[n - 1]);
    }
  }

  lemma {:induction false} ProjectionsSymmetric(u: seq<Vector>, x: Vector, y: Vector, k: nat)
    requires |x| == |y| && k <= |u| && Rows(u, |x|)
    ensures Projections(u, x, y, k) == Projections(u, y, x, k)
  {
    if k > 0 { ProjectionsSymmetric(u, x, y, k - 1); }
  }

  lemma {:induction false} FormSymmetric(d: Vector, u: seq<Vector>, s: real, x: Vector, y: Vector)
    requires |x| == |y| == |d| && Rows(u, |d|)
    ensures Form(d, u, s, x, y) == Form(d, u, s, y, x)
  {
    WeightedSymmetric(d, x, y, |d|);
    ProjectionsSymmetric(u, x, y, |u|);
  }

  /** The score does not depend on the order of its arguments. */
  lemma {:induction false} ScoreSymmetric(d: Vector, u: seq<Vector>, s: real, x: Vector, y: Vector, root: real)
    requires Metric(d, u, s) && |x| == |y| == |d|
    requires IsRoot(root, Form(d, u, s, x, x), Form(d, u, s, y, y))
    ensures IsRoot(root, Form(d, u, s, y, y), Form(d, u, s, x, x))
    ensures Cosine(Form(d, u, s, x, x), Form(d, u, s, y, y), Form(d, u, s, x, y), root)
            == Cosine(Form(d, u, s, y, y), Form(d, u, s, x, x), Form(d, u, s, y, x), root)
  {
    hide Form;
    FormSymmetric(d, u, s, x, y);
  }

  // ----- Scaling

  function Scaled(a: real, x: Vector): (z: Vector)
    ensures |z| == |x| && forall i :: 0 <= i < |x| ==> z[i] == a * x[i]
  {
    seq(|x|, i requires 0 <= i < |x| => a * x[i])
  }

  lemma {:induction false} ScaledTerm(a: real, w: real, p: real, q: real, z: real)
    requires z == a * p
    ensures Mul3(w, z, q) == Mul(a, Mul3(w, p, q))
  {
    assert w * (a * p) * q == a * (w * p * q);
  }

  lemma {:induction false} WeightedScaled(d: Vector, a: real, x: Vector, y: Vector, n: nat)
    requires n <= |d| && n <= |x| && n <= |y|
    ensures WeightedTo(d, Scaled(a, x), y, n) == Mul(a, WeightedTo(d, x, y, n))
  {
    if n == 0 {
    } else {
      hide Mul, Mul3;
      WeightedScaled(d, a, x, y, n - 1);
      ScaledTerm(a, d[n - 1], x[n - 1], y[n - 1], Scaled(a, x)[n - 1]);
      MulAdd(a, WeightedTo(d, x, y, n - 1), Mul3(d[n - 1], x[n - 1], y[n - 1]));
    }
  }

  lemma {:induction false} DotScaled(v: Vector, a: real, x: Vector, n: nat)
    requires n <= |v| && n <= |x|
    ensures DotTo(v, Scaled(a, x), n) == Mul(a, DotTo(v, x, n))
  {
    if n > 0 {
      DotScaled(v, a, x, n - 1);
      var p, q := v[n - 1], x[n - 1];
      assert p * (a * q) == a * (p * q);
      MulAdd(a, DotTo(v, x, n - 1), p * q);
    }
  }

  lemma {:induction false} ProjectionsScaled(u: seq<Vector>, a: real, x: Vector, y: Vector, k: nat)
    requires |x| == |y| && k <= |u| && Rows(u, |x|)
    ensures Projections(u, Scaled(a, x), y, k) == Mul(a, Projections(u, x, y, k))
  {
    if k > 0 {
      ProjectionsScaled(u, a, x, y, k - 1);
      DotScaled(u[k - 1], a, x, |x|);
      var p, q := Dot(u[k - 1], x), Dot(u[k - 1], y);
      assert a * p * q == a * (p * q);
      MulAdd(a, Projections(u, x, y, k - 1), Mul(p, q));
    }
  }

  lemma {:induction false} FormScaled(d: Vector, u: seq<Vector>, s: real, a: real, x: Vector, y: Vector)
    requires |x| == |y| == |d| && Rows(u, |d|)
    ensures Form(d, u, s, Scaled(a, x), y) == Mul(a, Form(d, u, s, x, y))
  {
    WeightedScaled(d, a, x, y, |d|);
    ProjectionsScaled(u, a, x, y, |u|);
    var w, p := WeightedTo(d, x, y, |d|), Projections(u, x, y, |u|);
    assert s * (a * p) == a * (s * p);
    MulAdd(a, w, Mul(s, p));
  }

  lemma {:induction false} ScaledRatio(a: real, xx: real, yy: real, xy: real, root: real, root': real)
    requires a > 0.0 && xx > 0.0 && yy > 0.0 && root > 0.0 && root' > 0.0
    requires root * root == xx * yy && root' * root' == Mul(a, Mul(a, xx)) * yy
    ensures Quotient(Mul(a, xy), root') == Quotient(xy, root)
  {
    assert a * (a * xx) * yy == a * a * (xx * yy);
    assert (a * root) * (a * root) == a * a * (root * root);
    ProductPositive(a, root);
    UniqueRoot(root', a * root, root' * root');
    var q := xy / root;
    assert q * root == xy;
    assert q * (a * root) == a * xy;
    assert q * root' == a * xy;
  }

  /** The score does not change when an argument is scaled by a positive factor. */
  lemma {:induction false} ScoreScaleInvariant(d: Vector, u: seq<Vector>, s: real, a: real, x: Vector, y: Vector,
      root: real, root': real)
    requires Metric(d, u, s) && |x| == |y| == |d| && a > 0.0
    requires IsRoot(root, Form(d, u, s, x, x), Form(d, u, s, y, y))
    requires IsRoot(root', Form(d, u, s, Scaled(a, x), Scaled(a, x)), Form(d, u, s, y, y))
    ensures Cosine(Form(d, u, s, Scaled(a, x), Scaled(a, x)), Form(d, u, s, y, y), Form(d, u, s, Scaled(a, x), y),
        root')
            == Cosine(Form(d, u, s, x, x), Form(d, u, s, y, y), Form(d, u, s, x, y), root)
  {
    hide Form, Mul;
    var z := Scaled(a, x);
    var xx, yy, xy := Form(d, u, s, x, x), Form(d, u, s, y, y), Form(d, u, s, x, y);
    FormScaled(d, u, s, a, x, y);
    FormScaled(d, u, s, a, x, z);
    FormSymmetric(d, u, s, x, z);
    FormScaled(d, u, s, a, x, x);
    assert Form(d, u, s, z, z) == Mul(a, Mul(a, xx));
    FormPositive(d, u, s, x);
    if xx > 0.0 {
      ProductPositive(a, xx);
      ProductPositive(a, Mul(a, xx));
      if yy > 0.0 { ScaledRatio(a, xx, yy, xy, root, root'); }
    } else {
      assert xx == 0.0;
      ZeroMul(a);
    }
  }

  lemma {:induction false} ZeroMul(a: real)
    ensures Mul(a, 0.0) == 0.0
  {
  }

  // ----- The score of an accepted profile

  /** On the matrix of an accepted profile the score is a cosine: in range, with an upper clamp
      that never acts, zero exactly when an argument is zero or the form of the two is not
      positive, independent of the order, and 1 for a non-zero vector against itself. */
  lemma {:induction false} AcceptedScore(d: Vector, u: seq<Vector>, intensity: real, m: Matrix, x: Vector, y: Vector,
      root: real)
    requires Accepted(d, u, intensity) && IsMetric(m, d, u, Scale(u, intensity), |u|)
    requires |x| == |y| == DIMENSIONS && IsRoot(root, Bilinear(m, x, x), Bilinear(m, y, y))
    ensures var score, xy := ScoreOf(m, x, y, root), Bilinear(m, x, y);
            && 0.0 <= score <= 1.0
            && (score == 0.0 <==> !NonZero(x) || !NonZero(y) || xy <= 0.0)
            && (NonZero(x) && NonZero(y) && xy > 0.0 ==> score == Quotient(xy, root))
            && ScoreOf(m, y, x, root) == score
            && (x == y && NonZero(x) ==> score == 1.0)
  {
    hide Form, Scale, Accepted, Bilinear, Upper, Least, Entry, Metric, Cosine, IsRoot;
    var s := Scale(u, intensity);
    AcceptedIsMetric(d, u, intensity);
    MetricRows(d, u, s);
    MatrixIsForm(m, d, u, s, |u|, x, x);
    MatrixIsForm(m, d, u, s, |u|, y, y);
    MatrixIsForm(m, d, u, s, |u|, x, y);
    MatrixIsForm(m, d, u, s, |u|, y, x);
    ScoreIsCosine(d, u, s, x, y, root);
    ScoreSymmetric(d, u, s, x, y, root);
    if x == y && NonZero(x) { ScoreOfSelf(d, u, s, x, root); }
  }

  lemma {:induction false} MetricRows(d: Vector, u: seq<Vector>, s: real)
    requires Metric(d, u, s)
    ensures Rows(u, |d|)
  {
  }

  /** Nor does scaling an argument by a positive factor change it. */
  lemma {:induction false} AcceptedScoreScaled(d: Vector, u: seq<Vector>, intensity: real, m: Matrix, a: real,
      x: Vector, y: Vector, root: real, root': real)
    requires Accepted(d, u, intensity) && IsMetric(m, d, u, Scale(u, intensity), |u|)
    requires |x| == |y| == DIMENSIONS && a > 0.0 && IsRoot(root, Bilinear(m, x, x), Bilinear(m, y, y))
    requires IsRoot(root', Bilinear(m, Scaled(a, x), Scaled(a, x)), Bilinear(m, y, y))
    ensures ScoreOf(m, Scaled(a, x), y, root') == ScoreOf(m, x, y, root)
  {
    hide Form, Scale, Accepted, Bilinear, Upper, Least, Entry, Metric, Cosine, IsRoot;
    var s, z := Scale(u, intensity), Scaled(a, x);
    AcceptedIsMetric(d, u, intensity);
    MetricRows(d, u, s);
    MatrixIsForm(m, d, u, s, |u|, x, x);
    MatrixIsForm(m, d, u, s, |u|, y, y);
    MatrixIsForm(m, d, u, s, |u|, x, y);
    MatrixIsForm(m, d, u, s, |u|, z, z);
    MatrixIsForm(m, d, u, s, |u|, z, y);
    ScoreScaleInvariant(d, u, s, a, x, y, root, root');
  }
}
