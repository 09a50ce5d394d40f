/** The statistics that `calc` prints for a block of samples, over exact reals, and what makes them a regression. */
module Regression {
  import opened Basics

  // ---------------------------------------------------------------- sums

  function Sum(a: seq<real>): real {
    if a == [] then 0.0 else Sum(a[..|a| - 1]) + a[|a| - 1]
  }

  function Times(a: real, b: real): real {
    a * b
  }

  function Square(r: real): real {
    r * r
  }

  lemma {:induction false} TimesSign(a: real, b: real)
    ensures a > 0.0 && b > 0.0 ==> Times(a, b) > 0.0
    ensures a < 0.0 && b < 0.0 ==> Times(a, b) > 0.0
    ensures a == 0.0 ==> Times(a, b) == 0.0
  {
  }

  lemma {:induction false} SquareZeroIff(r: real)
    ensures Square(r) >= 0.0 && (Square(r) == 0.0 <==> r == 0.0)
  {
    TimesSign(r, r);
    assert Square(r) == Times(r, r);
  }

  /** The sum of products of two columns. */
  function Dot(x: seq<real>, y: seq<real>): real
    requires |x| == |y|
  {
    if x == [] then 0.0 else Dot(x[..|x| - 1], y[..|y| - 1]) + Times(x[|x| - 1], y[|y| - 1])
  }

  /** How far the line m * x + c passes above the point. */
  function Gap(m: real, c: real, x: real, y: real): real {
    m * x + c - y
  }

  /** The sum of the squared distances of `y` from the line m * x + c. */
  function Residual(x: seq<real>, y: seq<real>, m: real, c: real): real
    requires |x| == |y|
  {
    if x == [] then 0.0
    else Residual(x[..|x| - 1], y[..|y| - 1], m, c) + Square(Gap(m, c, x[|x| - 1], y[|y| - 1]))
  }

  /** Every element moved by `d`. */
  function Shift(a: seq<real>, d: real): (s: seq<real>)
    ensures |s| == |a| && forall i :: 0 <= i < |a| ==> s[i] == a[i] + d
  {
    seq(|a|, i requires 0 <= i < |a| => a[i] + d)
  }

  lemma {:induction false} SumOfShift(a: seq<real>, d: real)
    ensures Sum(Shift(a, d)) == Sum(a) + |a| as real * d
  {
    if a != [] {
      var b := a[..|a| - 1];
      SumOfShift(b, d);
      assert Shift(a, d)[..|a| - 1] == Shift(b, d);
      assert |a| as real * d == |b| as real * d + d;
    }
  }

  lemma {:induction false} GapOfShift(m: real, c: real, x: real, y: real, dx: real, dy: real)
    ensures Gap(m, c, x + dx, y + dy) == Gap(m, c + m * dx - dy, x, y)
  {
    assert m * (x + dx) == m * x + m * dx;
  }

  /** Moving both columns moves the line with them. */
  lemma {:induction false} ResidualOfShift(x: seq<real>, y: seq<real>, dx: real, dy: real, m: real, c: real)
    requires |x| == |y|
    ensures Residual(Shift(x, dx), Shift(y, dy), m, c) == Residual(x, y, m, c + m * dx - dy)
  {
    if x != [] {
      var n := |x| - 1;
      ResidualOfShift(x[..n], y[..n], dx, dy, m, c);
      hide Gap, Square;
      assert Shift(x, dx)[..n] == Shift(x[..n], dx) && Shift(y, dy)[..n] == Shift(y[..n], dy);
      GapOfShift(m, c, x[n], y[n], dx, dy);
    }
  }

  // ---------------------------------------------------------------- the residual as a polynomial

  /** The sums that `calc` accumulates. */
  datatype Moments = Moments(n: real, sx: real, sy: real, sxx: real, sxy: real, syy: real)

  function MomentsOf(x: seq<real>, y: seq<real>): Moments
    requires |x| == |y|
  {
    Moments(|x| as real, Sum(x), Sum(y), Dot(x, x), Dot(x, y), Dot(y, y))
  }

  function Polynomial(k: Moments, m: real, c: real): real {
    m * m * k.sxx + 2.0 * m * c * k.sx + c * c * k.n - 2.0 * m * k.sxy - 2.0 * c * k.sy + k.syy
  }

  lemma {:induction false} PolynomialStep(k: Moments, x: real, y: real, m: real, c: real)
    ensures Polynomial(Moments(k.n + 1.0, k.sx + x, k.sy + y, k.sxx + Times(x, x), k.sxy + Times(x, y), k.syy + Times(y, y)), m, c) ==
            Polynomial(k, m, c) + Square(Gap(m, c, x, y))
  {
    var e := m * x + c - y;
    assert Square(e) == m * m * (x * x) + 2.0 * m * c * x + c * c - 2.0 * m * (x * y) - 2.0 * c * y + y * y;
    assert m * m * (k.sxx + x * x) == m * m * k.sxx + m * m * (x * x);
    assert 2.0 * m * c * (k.sx + x) == 2.0 * m * c * k.sx + 2.0 * m * c * x;
    assert c * c * (k.n + 1.0) == c * c * k.n + c * c;
    assert 2.0 * m * (k.sxy + x * y) == 2.0 * m * k.sxy + 2.0 * m * (x * y);
    assert 2.0 * c * (k.sy + y) == 2.0 * c * k.sy + 2.0 * c * y;
  }

  lemma {:induction false} PolynomialOfNothing(m: real, c: real)
    ensures Polynomial(Moments(0.0, 0.0, 0.0, 0.0, 0.0, 0.0), m, c) == 0.0
  {
  }

  lemma {:induction false} ResidualIsPolynomial(x: seq<real>, y: seq<real>, m: real, c: real)
    requires |x| == |y|
    ensures Residual(x, y, m, c) == Polynomial(MomentsOf(x, y), m, c)
  {
    if x != [] {
      var n := |x| - 1;
      ResidualIsPolynomial(x[..n], y[..n], m, c);
      hide Polynomial, Square, Gap, Times;
      var k := MomentsOf(x[..n], y[..n]);
      assert MomentsOf(x, y) ==
             Moments(k.n + 1.0, k.sx + x[n], k.sy + y[n], k.sxx + Times(x[n], x[n]), k.sxy + Times(x[n], y[n]), k.syy + Times(y[n], y[n]));
      PolynomialStep(k, x[n], y[n], m, c);
    } else {
      PolynomialOfNothing(m, c);
    }
  }

  lemma {:induction false} ResidualNonNegative(x: seq<real>, y: seq<real>, m: real, c: real)
    requires |x| == |y|
    ensures Residual(x, y, m, c) >= 0.0
  {
    if x != [] {
      ResidualNonNegative(x[..|x| - 1], y[..|y| - 1], m, c);
      SquareZeroIff(Gap(m, c, x[|x| - 1], y[|y| - 1]));
    }
  }

  // ---------------------------------------------------------------- the spread of a column

  predicate AllEqual(a: seq<real>) {
    forall i, j :: 0 <= i < j < |a| ==> a[i] == a[j]
  }

  /** n * sum of squares - square of the sum: the denominator of the slope. */
  function Spread(a: seq<real>): real {
    |a| as real * Dot(a, a) - Sum(a) * Sum(a)
  }

  /** The squared distances of `a` from a point. */
  function Around(a: seq<real>, p: real): real {
    if a == [] then 0.0 else Around(a[..|a| - 1], p) + Square(a[|a| - 1] - p)
  }

  function AroundSums(n: real, s: real, d: real, p: real): real {
    d - 2.0 * p * s + n * p * p
  }

  lemma {:induction false} AroundSumsStep(n: real, s: real, d: real, p: real, v: real)
    ensures AroundSums(n + 1.0, s + v, d + Times(v, v), p) == AroundSums(n, s, d, p) + Square(v - p)
  {
    assert Square(v - p) == v * v - 2.0 * p * v + p * p;
    assert 2.0 * p * (s + v) == 2.0 * p * s + 2.0 * p * v;
    assert (n + 1.0) * p * p == n * p * p + p * p;
  }

  lemma {:induction false} AroundIs(a: seq<real>, p: real)
    ensures Around(a, p) == AroundSums(|a| as real, Sum(a), Dot(a, a), p)
  {
    if a != [] {
      hide AroundSums, Square;
      var n := |a| - 1;
      AroundIs(a[..n], p);
      AroundSumsStep(n as real, Sum(a[..n]), Dot(a[..n], a[..n]), p, a[n]);
      assert |a| as real == n as real + 1.0;
    } else {
      assert AroundSums(0.0, 0.0, 0.0, p) == 0.0;
    }
  }

  lemma {:induction false} AroundZeroIff(a: seq<real>, p: real)
    ensures Around(a, p) >= 0.0
    ensures Around(a, p) == 0.0 <==> forall i :: 0 <= i < |a| ==> a[i] == p
  {
    if a != [] {
      var n := |a| - 1;
      AroundZeroIff(a[..n], p);
      SquareZeroIff(a[n] - p);
      if forall i :: 0 <= i < |a| ==> a[i] == p {
        assert forall i :: 0 <= i < n ==> a[..n][i] == a[i];
      } else if Around(a, p) == 0.0 {
        assert forall i :: 0 <= i < n ==> a[i] == a[..n][i];
      }
    }
  }

  /** One more element adds its squared distances from the others. */
  lemma {:induction false} SpreadStep(a: seq<real>)
    requires a != []
    ensures Spread(a) == Spread(a[..|a| - 1]) + Around(a[..|a| - 1], a[|a| - 1])
  {
    hide Around, AroundSums, Times;
    var b, v := a[..|a| - 1], a[|a| - 1];
    AroundIs(b, v);
    SpreadSums(|b| as real, Sum(b), Dot(b, b), v);
    assert |a| as real == |b| as real + 1.0;
  }

  lemma {:induction false} SpreadSums(k: real, s: real, d: real, v: real)
    ensures (k + 1.0) * (d + Times(v, v)) - (s + v) * (s + v) == (k * d - s * s) + AroundSums(k, s, d, v)
  {
    assert (k + 1.0) * (d + v * v) == k * d + k * v * v + d + v * v;
    assert (s + v) * (s + v) == s * s + 2.0 * v * s + v * v;
  }

  /** The denominator is positive exactly when the column is not constant. */
  lemma {:induction false} SpreadPositiveIff(a: seq<real>)
    ensures Spread(a) >= 0.0
    ensures Spread(a) > 0.0 <==> !AllEqual(a)
  {
    if a != [] {
      var n := |a| - 1;
      var b := a[..n];
      SpreadPositiveIff(b);
      SpreadStep(a);
      AroundZeroIff(b, a[n]);
      AllEqualStep(a);
    }
  }

  lemma {:induction false} AllEqualStep(a: seq<real>)
    requires a != []
    ensures var b := a[..|a| - 1];
            AllEqual(a) <==> AllEqual(b) && forall i :: 0 <= i < |b| ==> b[i] == a[|a| - 1]
  {
    var b := a[..|a| - 1];
    assert forall i :: 0 <= i < |b| ==> b[i] == a[i];
  }

  // ---------------------------------------------------------------- the least squares line

  /** n * sum of products - product of sums: the numerator of slope and correlation. */
  function Joint(k: Moments): real {
    k.n * k.sxy - k.sx * k.sy
  }

  function SpreadX(k: Moments): real {
    k.n * k.sxx - k.sx * k.sx
  }

  function SpreadY(k: Moments): real {
    k.n * k.syy - k.sy * k.sy
  }

  /** The slope and the intercept as `calc` computes them. */
  function Slope(k: Moments): real
    requires SpreadX(k) > 0.0
  {
    Joint(k) / SpreadX(k)
  }

  function Intercept(k: Moments): real
    requires SpreadX(k) > 0.0 && k.n > 0.0
  {
    (k.sy - Slope(k) * k.sx) / k.n
  }

  /** The normal equations. */
  ghost predicate Normal(k: Moments, m: real, c: real) {
    m * k.sx + c * k.n == k.sy && m * k.sxx + c * k.sx == k.sxy
  }

  lemma {:induction false} SolvesNormal(k: Moments)
    requires SpreadX(k) > 0.0 && k.n > 0.0
    ensures Normal(k, Slope(k), Intercept(k))
    ensures Slope(k) * SpreadX(k) == Joint(k)
  {
    var m, c := Slope(k), Intercept(k);
    assert m * SpreadX(k) == Joint(k);
    assert c * k.n == k.sy - m * k.sx;
    SecondEquation(k, m, c);
  }

  lemma {:induction false} SecondEquation(k: Moments, m: real, c: real)
    requires k.n > 0.0 && c * k.n == k.sy - m * k.sx && m * SpreadX(k) == Joint(k)
    ensures m * k.sxx + c * k.sx == k.sxy
  {
    var e := m * k.sxx + c * k.sx - k.sxy;
    assert e * k.n == m * (k.n * k.sxx) + (c * k.n) * k.sx - k.n * k.sxy;
    assert (c * k.n) * k.sx == k.sy * k.sx - m * (k.sx * k.sx);
    assert m * SpreadX(k) == m * (k.n * k.sxx) - m * (k.sx * k.sx);
    assert e * k.n == 0.0;
    Cancel(e, k.n);
  }

  lemma {:induction false} Cancel(e: real, n: real)
    requires n > 0.0 && e * n == 0.0
    ensures e == 0.0
  {
    Product(e, n);
    Product(-e, n);
    assert (-e) * n == -(e * n);
  }

  /** Away from the line of the normal equations the residual grows by a square and a multiple of the spread. */
  lemma {:induction false} Excess(k: Moments, m: real, c: real, dm: real, dc: real)
    requires Normal(k, m, c)
    ensures k.n * (Polynomial(k, m + dm, c + dc) - Polynomial(k, m, c)) ==
            Square(k.n * dc + dm * k.sx) + dm * dm * SpreadX(k)
  {
    ExcessTerms(k, m, c, dm, dc);
    var u := dm * dm * k.sxx + 2.0 * dm * dc * k.sx + dc * dc * k.n;
    assert Square(k.n * dc + dm * k.sx) == k.n * k.n * dc * dc + 2.0 * k.n * dc * dm * k.sx + dm * dm * (k.sx * k.sx);
    assert dm * dm * SpreadX(k) == dm * dm * (k.n * k.sxx) - dm * dm * (k.sx * k.sx);
    assert k.n * u == dm * dm * (k.n * k.sxx) + 2.0 * k.n * dc * dm * k.sx + k.n * k.n * dc * dc;
  }

  lemma {:induction false} ExcessTerms(k: Moments, m: real, c: real, dm: real, dc: real)
    requires Normal(k, m, c)
    ensures Polynomial(k, m + dm, c + dc) - Polynomial(k, m, c) == dm * dm * k.sxx + 2.0 * dm * dc * k.sx + dc * dc * k.n
  {
    var e1, e2 := m * k.sxx + c * k.sx - k.sxy, m * k.sx + c * k.n - k.sy;
    assert 2.0 * dm * e1 == 0.0 && 2.0 * dc * e2 == 0.0;
    assert (m + dm) * (m + dm) * k.sxx == m * m * k.sxx + 2.0 * dm * (m * k.sxx) + dm * dm * k.sxx;
    assert 2.0 * (m + dm) * (c + dc) * k.sx ==
           2.0 * m * c * k.sx + 2.0 * dm * (c * k.sx) + 2.0 * dc * (m * k.sx) + 2.0 * dm * dc * k.sx;
    assert (c + dc) * (c + dc) * k.n == c * c * k.n + 2.0 * dc * (c * k.n) + dc * dc * k.n;
    assert 2.0 * (m + dm) * k.sxy == 2.0 * m * k.sxy + 2.0 * dm * k.sxy;
    assert 2.0 * (c + dc) * k.sy == 2.0 * c * k.sy + 2.0 * dc * k.sy;
    assert 2.0 * dm * e1 == 2.0 * dm * (m * k.sxx) + 2.0 * dm * (c * k.sx) - 2.0 * dm * k.sxy;
    assert 2.0 * dc * e2 == 2.0 * dc * (m * k.sx) + 2.0 * dc * (c * k.n) - 2.0 * dc * k.sy;
  }

  /** No line has a smaller residual, and only the line itself has the same one. */
  lemma {:induction false} NormalIsLeast(k: Moments, m: real, c: real, m': real, c': real)
    requires SpreadX(k) > 0.0 && k.n > 0.0 && Normal(k, m, c)
    ensures Polynomial(k, m, c) <= Polynomial(k, m', c')
    ensures Polynomial(k, m, c) == Polynomial(k, m', c') <==> m == m' && c == c'
  {
    var dm, dc := m' - m, c' - c;
    assert m' == m + dm && c' == c + dc;
    hide Polynomial;
    Excess(k, m, c, dm, dc);
    var d := Polynomial(k, m', c') - Polynomial(k, m, c);
    ExcessSign(k.n, dm, dc, k.sx, SpreadX(k), d);
  }

  lemma {:induction false} ExcessSign(n: real, dm: real, dc: real, sx: real, spread: real, d: real)
    requires n > 0.0 && spread > 0.0 && n * d == Square(n * dc + dm * sx) + dm * dm * spread
    ensures d >= 0.0 && (d == 0.0 <==> dm == 0.0 && dc == 0.0)
  {
    var q := n * dc + dm * sx;
    SquareZeroIff(q);
    SquareZeroIff(dm);
    var p := Square(dm);
    assert dm * dm * spread == p * spread;
    Product(p, spread);
    if d < 0.0 {
      Product(-d, n);
      assert (-d) * n == -(n * d);
    }
    if dm == 0.0 && q == 0.0 {
      assert n * dc == 0.0;
      Cancel(dc, n);
    }
    if n * d == 0.0 {
      Cancel(d, n);
    }
  }

  lemma {:induction false} Product(p: real, s: real)
    requires s > 0.0
    ensures p >= 0.0 ==> p * s >= 0.0
    ensures p > 0.0 ==> p * s > 0.0
    ensures p == 0.0 ==> p * s == 0.0
  {
  }

  /** What the least residual is: the spread of y, less what the line explains. */
  lemma {:induction false} LeastResidual(k: Moments, m: real, c: real)
    requires Normal(k, m, c) && m * SpreadX(k) == Joint(k)
    ensures k.n * Polynomial(k, m, c) == SpreadY(k) - m * Joint(k)
    ensures k.n * Polynomial(k, m, c) * SpreadX(k) == SpreadX(k) * SpreadY(k) - Joint(k) * Joint(k)
  {
    assert m * (m * k.sx + c * k.n) == m * k.sy;
    var p := Polynomial(k, m, c);
    assert m * m * k.sxx + m * c * k.sx == m * (m * k.sxx + c * k.sx) == m * k.sxy;
    assert m * c * k.sx + c * c * k.n == c * (m * k.sx + c * k.n) == c * k.sy;
    assert p == k.syy - m * k.sxy - c * k.sy;
    assert k.n * (c * k.sy) == (k.sy - m * k.sx) * k.sy == k.sy * k.sy - m * (k.sx * k.sy);
    assert m * Joint(k) == m * (k.n * k.sxy) - m * (k.sx * k.sy);
    assert k.n * p == k.n * k.syy - m * (k.n * k.sxy) - k.n * (c * k.sy);
    var sx, j, sy := SpreadX(k), Joint(k), SpreadY(k);
    assert (sy - m * j) * sx == sx * sy - (m * sx) * j;
  }

  // ---------------------------------------------------------------- the summary of a block

  /** A value of the summary that can fail to be a number has `None` for it. */
  datatype Summary = Summary(sd: real, avr: real, line: Option<Line>, rsq: Option<real>)

  /** The slope, the intercept in the shifted coordinates of `calc`, and the root mean square distance. */
  datatype Line = Line(slope: real, inter: real, av: real)

  /** The intercept of the line in the coordinates of the samples. */
  function Offset(r: Summary, t0: real): real
    requires r.line.Some?
  {
    Back(r.line.value.slope, r.line.value.inter, t0, r.avr)
  }

  /** `sqrt`, as far as it matters: the non-negative root. */
  ghost predicate IsRoot(sqrt: real -> real) {
    forall v: real :: v >= 0.0 ==> sqrt(v) >= 0.0 && sqrt(v) * sqrt(v) == v
  }

  /**
   What the printed numbers mean for samples `a` at times `t`: mean and deviation, the least squares line and the
   deviation from it, and the correlation, which relates the two deviations.
   */
  ghost predicate Summarizes(r: Summary, t: seq<real>, a: seq<real>)
    requires |t| == |a| > 0
  {
    var n := |a| as real;
    && r.avr * n == Sum(a)
    && r.sd >= 0.0 && r.sd * r.sd * n == Around(a, r.avr)
    && (r.line.None? <==> AllEqual(t))
    && (r.rsq.None? <==> AllEqual(t) || AllEqual(a))
    && (r.line.Some? ==>
          var best := Residual(t, a, r.line.value.slope, Offset(r, t[0]));
          && (forall m, c :: best <= Residual(t, a, m, c))
          && r.line.value.av >= 0.0 && r.line.value.av * r.line.value.av * n == best)
    && (r.line.Some? && r.rsq.Some? ==>
          && Square(r.rsq.value) <= 1.0
          && Square(r.line.value.av) == Square(r.sd) * (1.0 - Square(r.rsq.value))
          && (r.rsq.value >= 0.0 <==> r.line.value.slope >= 0.0))
  }

  /** The columns in the coordinates that `calc` moves them to. */
  function Centred(t: seq<real>, a: seq<real>, avr: real): Moments
    requires |t| == |a| > 0
  {
    MomentsOf(Shift(t, -t[0]), Shift(a, -avr))
  }

  lemma {:induction false} SpreadOfShift(a: seq<real>, d: real)
    ensures AllEqual(Shift(a, d)) <==> AllEqual(a)
  {
    var s := Shift(a, d);
    if AllEqual(s) {
      forall i, j | 0 <= i < j < |a| ensures a[i] == a[j] {
        assert s[i] == s[j];
      }
    }
  }

  /** Around the mean the sum of the second column vanishes. */
  lemma {:induction false} CentredFacts(t: seq<real>, a: seq<real>, avr: real)
    requires |t| == |a| > 0 && avr * |a| as real == Sum(a)
    ensures var k := Centred(t, a, avr);
            && k.n == |a| as real > 0.0 && k.sy == 0.0 && k.syy == Around(a, avr)
            && SpreadX(k) >= 0.0 && (SpreadX(k) > 0.0 <==> !AllEqual(t))
            && SpreadY(k) >= 0.0 && (SpreadY(k) > 0.0 <==> !AllEqual(a))
  {
    hide Sum, Dot, Around, AllEqual;
    var x, e := Shift(t, -t[0]), Shift(a, -avr);
    assert Sum(e) == 0.0 by {
      SumOfShift(a, -avr);
      assert |a| as real * -avr == -(avr * |a| as real);
    }
    assert SpreadX(MomentsOf(x, e)) == Spread(x) && SpreadY(MomentsOf(x, e)) == Spread(e);
    SpreadPositiveIff(x);
    SpreadPositiveIff(e);
    SpreadOfShift(t, -t[0]);
    SpreadOfShift(a, -avr);
    DotIsAround(a, avr);
  }

  lemma {:induction false} DotIsAround(a: seq<real>, avr: real)
    ensures Dot(Shift(a, -avr), Shift(a, -avr)) == Around(a, avr)
  {
    if a != [] {
      var n := |a| - 1;
      DotIsAround(a[..n], avr);
      assert Shift(a, -avr)[..n] == Shift(a[..n], -avr);
    }
  }

  /** The intercept in the coordinates of the samples, of a line in those of `calc`. */
  function Back(m: real, c: real, t0: real, avr: real): real {
    c + avr - m * t0
  }

  /** The other way round. */
  function Forth(m: real, c: real, t0: real, avr: real): real {
    c - avr + m * t0
  }

  lemma {:induction false} Coordinates(m: real, c: real, t0: real, avr: real)
    ensures c + m * (-t0) - (-avr) == Back(m, c, t0, avr)
    ensures Back(m, Forth(m, c, t0, avr), t0, avr) == c
  {
    assert m * (-t0) == -(m * t0);
  }

  /** The residual of a line is the polynomial of the moments that `calc` accumulates. */
  lemma {:induction false} ResidualHere(t: seq<real>, a: seq<real>, avr: real, m: real, c: real)
    requires |t| == |a| > 0
    ensures Polynomial(Centred(t, a, avr), m, c) == Residual(t, a, m, Back(m, c, t[0], avr))
  {
    hide Polynomial, Residual, Shift, Back;
    var dx, dy := -t[0], -avr;
    ResidualIsPolynomial(Shift(t, dx), Shift(a, dy), m, c);
    ResidualOfShift(t, a, dx, dy, m, c);
    assert c + m * dx - dy == Back(m, c, t[0], avr) by { Coordinates(m, c, t[0], avr); }
  }

  /** The line of `calc` has the least residual of all lines through the samples, and no other line has it. */
  lemma {:induction false} LeastSquares(t: seq<real>, a: seq<real>, avr: real, m: real, c: real)
    requires |t| == |a| > 0 && avr * |a| as real == Sum(a) && !AllEqual(t)
    ensures var k := Centred(t, a, avr);
            && SpreadX(k) > 0.0 && k.n > 0.0
            && var best := Residual(t, a, Slope(k), Back(Slope(k), Intercept(k), t[0], avr));
            && best <= Residual(t, a, m, c)
            && (best == Residual(t, a, m, c) ==> m == Slope(k) && c == Back(Slope(k), Intercept(k), t[0], avr))
  {
    hide Polynomial, Residual, Slope, Intercept, SpreadX, SpreadY, Normal, Back, Forth, Centred;
    var k := Centred(t, a, avr);
    CentredFacts(t, a, avr);
    SolvesNormal(k);
    var c' := Forth(m, c, t[0], avr);
    Coordinates(m, c, t[0], avr);
    ResidualHere(t, a, avr, Slope(k), Intercept(k));
    ResidualHere(t, a, avr, m, c');
    NormalIsLeast(k, Slope(k), Intercept(k), m, c');
  }

  lemma {:induction false} Quotient(j: real, d: real, q: real)
    requires d > 0.0 && q == j / d
    ensures q * d == j && Square(q) * Square(d) == Square(j)
    ensures q >= 0.0 <==> j >= 0.0
  {
    assert q * d == j;
    assert Square(q) * Square(d) == (q * d) * (q * d);
    Product(q, d);
    Product(-q, d);
    assert (-q) * d == -(q * d);
  }

  lemma {:induction false} RootsMultiply(rx: real, ry: real, sx: real, sy: real)
    requires rx >= 0.0 && rx * rx == sx > 0.0 && ry >= 0.0 && ry * ry == sy > 0.0
    ensures rx * ry > 0.0 && Square(rx * ry) == sx * sy
  {
    assert rx == 0.0 ==> rx * rx == 0.0;
    assert ry == 0.0 ==> ry * ry == 0.0;
    Product(rx, ry);
    assert Square(rx * ry) == (rx * rx) * (ry * ry);
  }

  lemma {:induction false} ShareAtMostOne(q: real, s: real, p: real)
    requires s > 0.0 && p >= 0.0 && p == s - q * s
    ensures q <= 1.0
  {
    assert p == (1.0 - q) * s;
    Product(q - 1.0, s);
    assert (q - 1.0) * s == -p;
  }

  lemma {:induction false} Share(av2: real, sd2: real, q: real, n: real, sx: real, p: real, sy: real)
    requires n > 0.0 && sx > 0.0 && av2 * n == p && n * (sd2 * n) == sy
    requires n * p * sx == sx * sy - q * (sx * sy)
    ensures av2 == sd2 * (1.0 - q)
  {
    SquareZeroIff(n);
    var e, w := av2 - sd2 * (1.0 - q), Square(n);
    Product(w, sx);
    assert n * p == av2 * w && sy == sd2 * w;
    assert e * w == n * p - (1.0 - q) * sy;
    assert e * (w * sx) == (e * w) * sx == (n * p) * sx - (1.0 - q) * sy * sx;
    assert (1.0 - q) * sy * sx == sx * sy - q * (sx * sy);
    Cancel(e, w * sx);
  }

  /** Cauchy-Schwarz, and the share of the deviation that the line leaves. */
  lemma {:induction false} Correlation(k: Moments, rx: real, ry: real, av: real, sd: real)
    requires k.n > 0.0 && k.sy == 0.0 && SpreadX(k) > 0.0 && SpreadY(k) > 0.0
    requires rx >= 0.0 && rx * rx == SpreadX(k) && ry >= 0.0 && ry * ry == SpreadY(k)
    requires av * av * k.n == Polynomial(k, Slope(k), Intercept(k)) >= 0.0 && sd * sd * k.n == k.syy
    ensures rx * ry > 0.0
    ensures Square(Joint(k) / (rx * ry)) <= 1.0
    ensures Square(av) == Square(sd) * (1.0 - Square(Joint(k) / (rx * ry)))
    ensures Joint(k) / (rx * ry) >= 0.0 <==> Slope(k) >= 0.0
  {
    hide Polynomial, Normal, Joint, SpreadX;
    var sx, sy, j := SpreadX(k), SpreadY(k), Joint(k);
    RootsMultiply(rx, ry, sx, sy);
    var q := j / (rx * ry);
    Quotient(j, rx * ry, q);
    Quotient(j, sx, Slope(k));
    SolvesNormal(k);
    LeastResidual(k, Slope(k), Intercept(k));
    var p := Polynomial(k, Slope(k), Intercept(k));
    Product(sx, sy);
    Product(p, k.n);
    Product(p * k.n, sx);
    assert k.n * p * sx == sx * sy - Square(q) * (sx * sy);
    ShareAtMostOne(Square(q), sx * sy, k.n * p * sx);
    assert sy == k.n * (Square(sd) * k.n);
    Share(Square(av), Square(sd), Square(q), k.n, sx, p, sy);
  }

  /** There is one least squares line: the summary fixes it. */
  lemma {:induction false} LineIsUnique(t: seq<real>, a: seq<real>, m: real, c: real, m': real, c': real)
    requires |t| == |a| > 0 && !AllEqual(t)
    requires forall m0, c0 :: Residual(t, a, m, c) <= Residual(t, a, m0, c0)
    requires forall m0, c0 :: Residual(t, a, m', c') <= Residual(t, a, m0, c0)
    ensures m == m' && c == c'
  {
    hide Residual, Slope, Intercept, Centred, Back;
    var n := |a| as real;
    var avr := Sum(a) / n;
    assert avr * n == Sum(a);
    LeastSquares(t, a, avr, m, c);
    LeastSquares(t, a, avr, m', c');
  }

  // ---------------------------------------------------------------- calc

  lemma {:induction false} SumStep(a: seq<real>, i: nat)
    requires i < |a|
    ensures Sum(a[..i + 1]) == Sum(a[..i]) + a[i]
  {
    assert a[..i + 1][..i] == a[..i];
  }

  lemma {:induction false} DotStep(x: seq<real>, y: seq<real>, i: nat)
    requires i < |x| == |y|
    ensures Dot(x[..i + 1], y[..i + 1]) == Dot(x[..i], y[..i]) + x[i] * y[i]
  {
    assert x[..i + 1][..i] == x[..i] && y[..i + 1][..i] == y[..i];
  }

  lemma {:induction false} ResidualStep(x: seq<real>, y: seq<real>, m: real, c: real, i: nat)
    requires i < |x| == |y|
    ensures Residual(x[..i + 1], y[..i + 1], m, c) == Residual(x[..i], y[..i], m, c) + Square(m * x[i] + c - y[i])
  {
    assert x[..i + 1][..i] == x[..i] && y[..i + 1][..i] == y[..i];
  }

  /** The loops that add up a column and divide by the number of samples. */
  method Mean(a: array<real>, number: nat) returns (avr: real)
    requires 0 < number <= a.Length
    ensures avr * number as real == Sum(a[..number])
  {
    ghost var col := a[..number];
    avr := 0.0;
    var i := 0;
    while i < number
      invariant 0 <= i <= number && avr == Sum(col[..i])
    {
      SumStep(col, i);
      avr := avr + a[i];
      i := i + 1;
    }
    assert col[..number] == col;
    avr := avr / number as real;
  }

  /** The loop that removes the rough average and the first time. */
  method RemoveBias(t: array<real>, a: array<real>, b: array<real>, x: array<real>, number: nat, avr1: real)
    requires 0 < number <= t.Length && number <= a.Length && number <= b.Length && number <= x.Length
    requires b != x && a != b && a != x && t != b && t != x
    modifies b, x
    ensures b[..number] == Shift(a[..number], -avr1) && x[..number] == Shift(t[..number], -t[0])
  {
    var i := 0;
    while i < number
      invariant 0 <= i <= number
      invariant forall j :: 0 <= j < i ==> b[j] == a[j] + -avr1 && x[j] == t[j] + -t[0]
      invariant forall j :: 0 <= j < number ==> a[j] == old(a[j]) && t[j] == old(t[j])
    {
      b[i] := a[i] - avr1;
      x[i] := t[i] - t[0];
      i := i + 1;
    }
  }

  lemma {:induction false} DotAdd(x: seq<real>, y: seq<real>, i: nat, v: real, w: real)
    requires i < |x| == |y| && v == x[i] && w == y[i]
    ensures Dot(x[..i + 1], y[..i + 1]) == Dot(x[..i], y[..i]) + Times(v, w)
  {
    hide Dot;
    DotStep(x, y, i);
  }

  lemma {:induction false} EmptyColumns()
    ensures Sum([]) == 0.0 && Dot([], []) == 0.0
  {
  }

  /** The loop that accumulates the moments. */
  method Accumulate(a: array<real>, x: array<real>, number: nat, avr: real) returns (sd: real, k: Moments)
    requires 0 < number <= a.Length && number <= x.Length
    ensures k == MomentsOf(x[..number], Shift(a[..number], -avr)) && sd == k.syy
  {
    hide Sum, Dot, Times;
    EmptyColumns();
    ghost var xs, es := x[..number], Shift(a[..number], -avr);
    assert xs[..0] == [] && es[..0] == [];
    sd := 0.0;
    var sx, sy, sxy, sx2, sy2 := 0.0, 0.0, 0.0, 0.0, 0.0;
    var i := 0;
    while i < number
      invariant 0 <= i <= number
      invariant sx == Sum(xs[..i]) && sy == Sum(es[..i])
      invariant sxy == Dot(xs[..i], es[..i]) && sx2 == Dot(xs[..i], xs[..i]) && sy2 == sd == Dot(es[..i], es[..i])
    {
      var err := a[i] - avr;
      assert err == es[i] && x[i] == xs[i];
      SumStep(xs, i);
      SumStep(es, i);
      DotAdd(xs, es, i, x[i], err);
      DotAdd(xs, xs, i, x[i], x[i]);
      DotAdd(es, es, i, err, err);
      sd := sd + Times(err, err);
      sx := sx + x[i];
      sy := sy + err;
      sxy := sxy + Times(x[i], err);
      sx2 := sx2 + Times(x[i], x[i]);
      sy2 := sy2 + Times(err, err);
      i := i + 1;
    }
    assert xs[..number] == xs && es[..number] == es;
    k := Moments(number as real, sx, sy, sx2, sxy, sy2);
  }

  /** The loop over the distances from the line. */
  method Deviation(a: array<real>, x: array<real>, number: nat, avr: real, slope: real, inter: real) returns (av: real)
    requires 0 < number <= a.Length && number <= x.Length
    ensures av == Residual(x[..number], Shift(a[..number], -avr), slope, inter)
  {
    ghost var xs, es := x[..number], Shift(a[..number], -avr);
    av := 0.0;
    var i := 0;
    while i < number
      invariant 0 <= i <= number && av == Residual(xs[..i], es[..i], slope, inter)
    {
      var err := x[i] * slope + inter - (a[i] - avr);
      assert err == slope * xs[i] + inter - es[i];
      ResidualStep(xs, es, slope, inter, i);
      av := av + err * err;
      i := i + 1;
    }
    assert xs[..number] == xs && es[..number] == es;
  }

  /** A quotient that may fail to be a number. */
  function Ratio(p: real, q: real): Option<real> {
    if q == 0.0 then None else Some(p / q)
  }

  /** The first half of `calc`: a rough mean, and the mean of what it leaves. */
  method TwoPass(t: array<real>, a: array<real>, b: array<real>, x: array<real>, number: nat) returns (avr: real)
    requires 0 < number <= t.Length && number <= a.Length && number <= b.Length && number <= x.Length
    requires b != x && a != b && a != x && t != b && t != x
    modifies b, x
    ensures t[..number] == old(t[..number]) && a[..number] == old(a[..number])
    ensures x[..number] == Shift(t[..number], -t[0])
    ensures avr * number as real == Sum(a[..number])
  {
    hide Sum;
    ghost var ts, vs := t[..number], a[..number];
    var avr1 := Mean(a, number);
    RemoveBias(t, a, b, x, number, avr1);
    assert t[..number] == ts && a[..number] == vs;
    avr := Mean(b, number);
    avr := avr + avr1;
    TwoPassMean(vs, avr1, avr);
  }

  /** `calc`: the mean, the moments, the line and the deviation from it. A denominator of zero gives no number. */
  method Calc(t: array<real>, a: array<real>, b: array<real>, x: array<real>, number: nat, sqrt: real -> real)
      returns (r: Summary)
    requires 0 < number <= t.Length && number <= a.Length && number <= b.Length && number <= x.Length
    requires b != x && a != b && a != x && t != b && t != x && IsRoot(sqrt)
    modifies b, x
    ensures Summarizes(r, old(t[..number]), old(a[..number]))
  {
    hide Residual, Around, Sum, Dot, AllEqual, Polynomial, IsRoot, Summarizes, Shift, Joint, SpreadX, SpreadY;
    ghost var ts, vs := t[..number], a[..number];
    var avr := TwoPass(t, a, b, x, number);
    var sd, k := Accumulate(a, x, number, avr);
    CentredFacts(ts, vs, avr);
    sd := sqrt(sd / number as real);
    if SpreadX(k) == 0.0 {
      r := Summary(sd, avr, None, None);
      ConstantTimes(r, ts, vs, sqrt);
    } else {
      var slope := Joint(k) / SpreadX(k);
      var inter := (k.sy - slope * k.sx) / number as real;
      var rsq := Ratio(Joint(k), sqrt(SpreadX(k)) * sqrt(SpreadY(k)));
      var av := Deviation(a, x, number, avr, slope, inter);
      ResidualIsPolynomial(x[..number], Shift(vs, -avr), slope, inter);
      av := sqrt(av / number as real);
      r := Summary(sd, avr, Some(Line(slope, inter, av)), rsq);
      FittedLine(r, ts, vs, sqrt, k);
    }
  }

  lemma {:induction false} TwoPassMean(a: seq<real>, avr1: real, avr: real)
    requires a != [] && avr1 * |a| as real == Sum(a) && (avr - avr1) * |a| as real == Sum(Shift(a, -avr1))
    ensures avr * |a| as real == Sum(a)
  {
    hide Sum;
    var n := |a| as real;
    assert (avr - avr1) * n == avr * n - avr1 * n;
    SumOfShift(a, -avr1);
    assert n * -avr1 == -(avr1 * n);
    MeanOfBias(Sum(a), avr1, avr, n);
  }

  lemma {:induction false} MeanOfBias(sum: real, avr1: real, avr: real, n: real)
    requires avr1 * n == sum && (avr - avr1) * n == sum + n * -avr1
    ensures avr * n == sum
  {
    assert (avr - avr1) * n == avr * n - avr1 * n;
    assert n * -avr1 == -(avr1 * n);
  }

  /** The deviation that `calc` computes. */
  ghost predicate HasDeviation(r: Summary, t: seq<real>, a: seq<real>, sqrt: real -> real)
    requires |t| == |a| > 0
  {
    r.avr * |a| as real == Sum(a) && r.sd == sqrt(Centred(t, a, r.avr).syy / |a| as real)
  }

  lemma {:induction false} RootOfMean(v: real, n: real, sqrt: real -> real)
    requires IsRoot(sqrt) && v >= 0.0 && n > 0.0
    ensures var s := sqrt(v / n); s >= 0.0 && s * s * n == v
  {
    var q := v / n;
    assert q * n == v;
    assert q >= 0.0 by {
      Product(-q, n);
      assert (-q) * n == -v;
    }
    var s := sqrt(q);
    assert s * s == q;
  }

  lemma {:induction false} AroundNonNegative(a: seq<real>, p: real)
    ensures Around(a, p) >= 0.0
  {
    AroundZeroIff(a, p);
  }

  lemma {:induction false} ConstantTimes(r: Summary, t: seq<real>, a: seq<real>, sqrt: real -> real)
    requires |t| == |a| > 0 && IsRoot(sqrt) && HasDeviation(r, t, a, sqrt)
    requires SpreadX(Centred(t, a, r.avr)) == 0.0 && r.line.None? && r.rsq.None?
    ensures Summarizes(r, t, a)
  {
    hide Residual, Around, Sum, Polynomial, SpreadX, SpreadY, Joint, Centred, AllEqual, Back;
    CentredFacts(t, a, r.avr);
    AroundNonNegative(a, r.avr);
    RootOfMean(Around(a, r.avr), |a| as real, sqrt);
  }

  lemma {:induction false} FittedLine(r: Summary, t: seq<real>, a: seq<real>, sqrt: real -> real, k: Moments)
    requires |t| == |a| > 0 && IsRoot(sqrt) && HasDeviation(r, t, a, sqrt)
    requires k == Centred(t, a, r.avr) && k.n > 0.0 && SpreadX(k) > 0.0 && r.line.Some?
    requires && r.line.value.slope == Slope(k) && r.line.value.inter == Intercept(k)
             && r.line.value.av == sqrt(Polynomial(k, Slope(k), Intercept(k)) / |a| as real)
             && r.rsq == Ratio(Joint(k), sqrt(SpreadX(k)) * sqrt(SpreadY(k)))
    ensures Summarizes(r, t, a)
  {
    hide Residual, Around, Sum, Polynomial, IsRoot, Slope, Intercept, SpreadX, SpreadY, Joint, Centred, AllEqual, Back;
    var n := |a| as real;
    CentredFacts(t, a, r.avr);
    AroundNonNegative(a, r.avr);
    RootOfMean(Around(a, r.avr), n, sqrt);
    ResidualHere(t, a, r.avr, Slope(k), Intercept(k));
    ResidualNonNegative(t, a, Slope(k), Back(Slope(k), Intercept(k), t[0], r.avr));
    RootOfMean(Polynomial(k, Slope(k), Intercept(k)), n, sqrt);
    forall m, c ensures Residual(t, a, Slope(k), Offset(r, t[0])) <= Residual(t, a, m, c) {
      LeastSquares(t, a, r.avr, m, c);
    }
    Roots(sqrt, SpreadX(k), SpreadY(k));
    if SpreadY(k) > 0.0 {
      Correlation(k, sqrt(SpreadX(k)), sqrt(SpreadY(k)), r.line.value.av, r.sd);
    }
  }

  lemma {:induction false} Roots(sqrt: real -> real, sx: real, sy: real)
    requires IsRoot(sqrt) && sx > 0.0 && sy >= 0.0
    ensures sqrt(sx) >= 0.0 && sqrt(sx) * sqrt(sx) == sx && sqrt(sy) >= 0.0 && sqrt(sy) * sqrt(sy) == sy
    ensures sqrt(sx) * sqrt(sy) == 0.0 <==> sy == 0.0
  {
    var rx, ry := sqrt(sx), sqrt(sy);
    if sy > 0.0 {
      RootsMultiply(rx, ry, sx, sy);
    } else {
      TimesSign(ry, ry);
      SquareZeroIff(ry);
      assert ry == 0.0;
    }
  }
}
