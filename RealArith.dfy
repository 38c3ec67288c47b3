/**
 * Facts about real arithmetic used by the controller proofs.  Each nonlinear
 * step is stated here over plain reals, so that the lemmas about the
 * controller only have to rewrite with them.
 */
module RealArith {

  function Abs(x: real): real { if x < 0.0 then -x else x }

  function Pow(r: real, n: nat): real
  {
    if n == 0 then 1.0 else r * Pow(r, n - 1)
  }

  lemma MulLe(x: real, y: real, k: real)
    requires x <= y && k >= 0.0
    ensures x * k <= y * k
  {
  }

  lemma MulLt(x: real, y: real, k: real)
    requires x < y && k > 0.0
    ensures x * k < y * k
  {
  }

  lemma AbsMul(x: real, y: real)
    ensures Abs(x * y) == Abs(x) * Abs(y)
  {
    if x < 0.0 {
      if y < 0.0 { assert x * y == (-x) * (-y); } else { assert -(x * y) == (-x) * y; }
    } else {
      if y < 0.0 { assert -(x * y) == x * (-y); }
    }
  }

  /** Two increments e dt and r dt add up to (e + r) dt. */
  lemma Accumulate(i0: real, i1: real, i2: real, e: real, r: real, sum: real, dt: real)
    requires i1 == i0 + e * dt && i2 - i1 == r * dt && sum == e + r
    ensures i2 == i0 + sum * dt
  {
  }

  /** Dividing numerator and denominator by the same nonzero factor. */
  lemma CancelCommon(k: real, a: real, b: real)
    requires k != 0.0 && b != 0.0
    ensures k * b != 0.0
    ensures (k * a) / (k * b) == a / b
  {
    var q := a / b;
    assert q * b == a;
    assert (k * b) * q == k * a;
  }

  // ----------------------------------------------------------------------
  // First-order difference equations a0 y + a1 q == b0 x + b1 p

  /** For a0 != 0 the equation has exactly one solution y. */
  lemma UniqueSolution(a0: real, a1: real, b0: real, b1: real, x: real, p: real, q: real, y: real)
    requires a0 != 0.0
    ensures a0 * y + a1 * q == b0 * x + b1 * p <==> y == (b0 * x + b1 * p - a1 * q) / a0
  {
    var f := (b0 * x + b1 * p - a1 * q) / a0;
    assert a0 * f == b0 * x + b1 * p - a1 * q;
    if a0 * y + a1 * q == b0 * x + b1 * p {
      assert a0 * (y - f) == 0.0;
    }
  }

  /** Division by a0 is the inverse of multiplication by a0. */
  lemma DivideBack(n: real, a0: real, v: real)
    requires a0 != 0.0 && a0 * v == n
    ensures n / a0 == v
  {
  }

  /**
   * The solution for a linear combination of inputs and memories is the same
   * combination of the two solutions.
   */
  lemma SuperposeSolutions(a0: real, a1: real, b0: real, b1: real, alpha: real, beta: real,
                           x1: real, p1: real, q1: real, x2: real, p2: real, q2: real)
    requires a0 != 0.0
    ensures (b0 * (alpha * x1 + beta * x2) + b1 * (alpha * p1 + beta * p2) - a1 * (alpha * q1 + beta * q2)) / a0
         == alpha * ((b0 * x1 + b1 * p1 - a1 * q1) / a0) + beta * ((b0 * x2 + b1 * p2 - a1 * q2) / a0)
  {
    var n1, n2 := b0 * x1 + b1 * p1 - a1 * q1, b0 * x2 + b1 * p2 - a1 * q2;
    var n := b0 * (alpha * x1 + beta * x2) + b1 * (alpha * p1 + beta * p2) - a1 * (alpha * q1 + beta * q2);
    assert n == alpha * n1 + beta * n2;
    var f1, f2 := n1 / a0, n2 / a0;
    assert a0 * f1 == n1 && a0 * f2 == n2;
    assert a0 * (alpha * f1 + beta * f2) == alpha * (a0 * f1) + beta * (a0 * f2);
    DivideBack(n, a0, alpha * f1 + beta * f2);
  }

  /**
   * With b0 + b1 - a1 == a0 and the input held at u (x == p == u), the
   * deviation of the solution from u is -a1 / a0 times the previous deviation.
   */
  lemma HeldSolution(a0: real, a1: real, b0: real, b1: real, u: real, q: real, y: real)
    requires a0 != 0.0 && b0 + b1 - a1 == a0
    requires a0 * y + a1 * q == b0 * u + b1 * u
    ensures y - u == (-a1 / a0) * (q - u)
  {
    assert (b0 + b1) * u == (a0 + a1) * u;
    assert a0 * (y - u) == -a1 * (q - u);
    var r := -a1 / a0;
    assert r * a0 == -a1;
    assert a0 * (r * (q - u)) == (r * a0) * (q - u);
  }

  // ----------------------------------------------------------------------
  // The bilinear substitution

  /**
   * With s = (2 / dt) (z - 1) / (z + 1) and k = dt (z + 1):
   * (2 T + dt) z + (dt - 2 T) == k (1 + T s), which is how the coefficients of
   * a factor 1 + T s are obtained.
   */
  lemma BilinearFactor(T: real, dt: real, z: real, s: real, k: real)
    requires dt != 0.0 && z != -1.0
    requires s == (2.0 / dt) * ((z - 1.0) / (z + 1.0)) && k == dt * (z + 1.0)
    ensures (2.0 * T + dt) * z + (dt - 2.0 * T) == k * (1.0 + T * s)
  {
    var p, q := 2.0 / dt, (z - 1.0) / (z + 1.0);
    assert p * dt == 2.0;
    assert q * (z + 1.0) == z - 1.0;
    assert k * s == (p * dt) * (q * (z + 1.0));
    assert k * s == 2.0 * (z - 1.0);
    assert k * (T * s) == T * (k * s);
  }

  /**
   * The bilinear substitution maps (1 + T1 s) / (1 + T2 s) to
   * ((2 T1 + dt) z + (dt - 2 T1)) / ((2 T2 + dt) z + (dt - 2 T2)).
   */
  lemma BilinearRatio(T1: real, T2: real, dt: real, z: real, s: real)
    requires dt != 0.0 && z != -1.0 && s == (2.0 / dt) * ((z - 1.0) / (z + 1.0))
    requires (2.0 * T2 + dt) * z + (dt - 2.0 * T2) != 0.0
    ensures 1.0 + T2 * s != 0.0
    ensures ((2.0 * T1 + dt) * z + (dt - 2.0 * T1)) / ((2.0 * T2 + dt) * z + (dt - 2.0 * T2))
         == (1.0 + T1 * s) / (1.0 + T2 * s)
  {
    var k := dt * (z + 1.0);
    BilinearFactor(T1, dt, z, s, k);
    BilinearFactor(T2, dt, z, s, k);
    var num, den := 1.0 + T1 * s, 1.0 + T2 * s;
    assert den != 0.0;
    assert k != 0.0;
    CancelCommon(k, num, den);
  }

  // ----------------------------------------------------------------------
  // Powers

  lemma {:induction false} PowAbs(r: real, n: nat)
    ensures Abs(Pow(r, n)) == Pow(Abs(r), n)
  {
    if n > 0 {
      PowAbs(r, n - 1);
      AbsMul(r, Pow(r, n - 1));
    }
  }

  /** |r^n d| == |r|^n |d|. */
  lemma PowScaledAbs(x: real, r: real, n: nat, d: real)
    requires x == Pow(r, n) * d
    ensures Abs(x) == Pow(Abs(r), n) * Abs(d)
  {
    PowAbs(r, n);
    AbsMul(Pow(r, n), d);
  }

  /** Scaling r^n d once more by r gives r^(n+1) d. */
  lemma PowStep(r: real, n: nat, d: real, x: real, y: real)
    requires x == Pow(r, n) * d && y == r * x
    ensures y == Pow(r, n + 1) * d
  {
    var p := Pow(r, n);
    assert Pow(r, n + 1) == r * p;
    assert r * (p * d) == (r * p) * d;
  }

  /** Powers of reciprocals are reciprocal. */
  lemma {:induction false} PowReciprocal(a: real, b: real, n: nat)
    requires a * b == 1.0
    ensures Pow(a, n) * Pow(b, n) == 1.0
  {
    if n > 0 {
      PowReciprocal(a, b, n - 1);
      var p, q := Pow(a, n - 1), Pow(b, n - 1);
      assert Pow(a, n) == a * p && Pow(b, n) == b * q;
      assert (a * p) * (b * q) == (a * b) * (p * q);
    }
  }

  lemma {:induction false} PowNonNegative(r: real, n: nat)
    requires r >= 0.0
    ensures Pow(r, n) >= 0.0
  {
    if n > 0 {
      PowNonNegative(r, n - 1);
      MulLe(0.0, Pow(r, n - 1), r);
    }
  }

  /** Bernoulli's inequality: (1 + d)^n >= 1 + n d for d >= 0. */
  lemma {:induction false} Bernoulli(d: real, n: nat)
    requires d >= 0.0
    ensures Pow(1.0 + d, n) >= 1.0 + n as real * d
  {
    if n > 0 {
      Bernoulli(d, n - 1);
      var p := Pow(1.0 + d, n - 1);
      var k := (n - 1) as real;
      MulLe(1.0 + k * d, p, 1.0 + d);
      assert (1.0 + k * d) * (1.0 + d) == 1.0 + (k + 1.0) * d + k * (d * d);
      MulLe(0.0, k, d * d);
    }
  }

  /** For 0 <= q < 1, q^n d eventually stays below any eps > 0. */
  lemma PowDecay(q: real, d: real, eps: real) returns (N: nat)
    requires 0.0 <= q < 1.0 && d >= 0.0 && eps > 0.0
    ensures forall n: nat :: N <= n ==> Pow(q, n) * d < eps
  {
    if q == 0.0 {
      N := 1;
      forall n: nat | N <= n ensures Pow(q, n) * d < eps {
        assert Pow(q, n) == q * Pow(q, n - 1);
      }
    } else {
      var g := (1.0 - q) / q;
      assert g * q == 1.0 - q;
      MulLt(0.0, g * q, 1.0 / q);
      assert g > 0.0;
      assert q * (1.0 + g) == 1.0;
      MulLt(0.0, eps, g);
      var bound := d / (eps * g);
      assert bound >= 0.0;
      N := bound.Floor as nat + 1;
      forall n: nat | N <= n ensures Pow(q, n) * d < eps {
        PastBound(d, eps * g, n);
        GeometricBound(q, g, d, eps, n);
      }
    }
  }

  /** For -1 < r < 1, r^n d eventually stays strictly between -eps and eps. */
  lemma GeometricDecay(r: real, d: real, eps: real) returns (N: nat)
    requires -1.0 < r < 1.0 && eps > 0.0
    ensures forall n: nat :: N <= n ==> -eps < Pow(r, n) * d < eps
  {
    N := PowDecay(Abs(r), Abs(d), eps);
    forall n: nat | N <= n ensures -eps < Pow(r, n) * d < eps {
      PowScaledAbs(Pow(r, n) * d, r, n, d);
    }
  }

  /** Every k above floor(d / w) satisfies k w > d. */
  lemma PastBound(d: real, w: real, k: nat)
    requires d >= 0.0 && w > 0.0 && k > (d / w).Floor
    ensures k as real * w > d
  {
    var bound := d / w;
    assert bound * w == d;
    assert k as real > bound;
    MulLt(bound, k as real, w);
  }

  /** If q (1 + g) == 1 with g > 0 and k eps g > d, then q^k d < eps. */
  lemma GeometricBound(q: real, g: real, d: real, eps: real, k: nat)
    requires q > 0.0 && g > 0.0 && q * (1.0 + g) == 1.0
    requires d >= 0.0 && eps > 0.0 && k as real * (eps * g) > d
    ensures Pow(q, k) * d < eps
  {
    GrowthExceeds(g, d, eps, k);
    ShrinkBelow(q, g, d, eps, k);
  }

  /** If q (1 + g) == 1 with q > 0 and d < (1 + g)^k eps, then q^k d < eps. */
  lemma ShrinkBelow(q: real, g: real, d: real, eps: real, k: nat)
    requires q > 0.0 && q * (1.0 + g) == 1.0 && d < Pow(1.0 + g, k) * eps
    ensures Pow(q, k) * d < eps
  {
    PowReciprocal(q, 1.0 + g, k);
    PowNonNegative(q, k);
    ReciprocalBound(Pow(q, k), Pow(1.0 + g, k), d, eps);
  }

  /** If g > 0 and k eps g > d, then d < (1 + g)^k eps. */
  lemma GrowthExceeds(g: real, d: real, eps: real, k: nat)
    requires g > 0.0 && eps > 0.0 && k as real * (eps * g) > d
    ensures d < Pow(1.0 + g, k) * eps
  {
    Bernoulli(g, k);
    BeyondLinear(Pow(1.0 + g, k), g, k as real, eps, d);
  }

  lemma BeyondLinear(gk: real, g: real, k: real, eps: real, d: real)
    requires gk >= 1.0 + k * g && eps > 0.0 && k * (eps * g) > d
    ensures d < gk * eps
  {
    MulLe(1.0 + k * g, gk, eps);
    assert (1.0 + k * g) * eps == eps + k * (eps * g);
  }

  lemma ReciprocalBound(qk: real, gk: real, d: real, eps: real)
    requires qk * gk == 1.0 && d < gk * eps
    requires qk >= 0.0
    ensures qk * d < eps
  {
    assert qk != 0.0;
    MulLt(d, gk * eps, qk);
    assert (gk * eps) * qk == (qk * gk) * eps;
  }
}
