/** Sums over sequences, and what is linear about them. */
module Sums {
  import opened Reals

  /** The sum of f over the items. */
  function SumOf<T>(s: seq<T>, f: T -> real): real {
    if s == [] then 0.0 else SumOf(s[..|s| - 1], f) + f(s[|s| - 1])
  }

  function Minus<T>(f: T -> real, c: real): T -> real { t => f(t) - c }

  function Times<T>(f: T -> real, g: T -> real): T -> real { t => f(t) * g(t) }

  function Linear<T>(c: real, f: T -> real, d: real, g: T -> real): T -> real { t => c * f(t) + d * g(t) }

  function Difference<T>(f: T -> real, g: T -> real): T -> real { t => f(t) - g(t) }

  function One<T>(): T -> real { t => 1.0 }

  lemma {:induction false} SumSame<T>(s: seq<T>, f: T -> real, g: T -> real)
    requires forall i :: 0 <= i < |s| ==> f(s[i]) == g(s[i])
    ensures SumOf(s, f) == SumOf(s, g)
  {
    if s != [] { SumSame(s[..|s| - 1], f, g); }
  }

  /** The sum of a combination is the combination of the sums. */
  lemma {:induction false} SumLinear<T>(s: seq<T>, c: real, f: T -> real, d: real, g: T -> real)
    ensures SumOf(s, Linear(c, f, d, g)) == c * SumOf(s, f) + d * SumOf(s, g)
  {
    if s != [] {
      var n := |s| - 1;
      SumLinear(s[..n], c, f, d, g);
      Distribute(c, SumOf(s[..n], f), f(s[n]));
      Distribute(d, SumOf(s[..n], g), g(s[n]));
    }
  }

  lemma {:induction false} SumOne<T>(s: seq<T>)
    ensures SumOf(s, One()) == |s| as real
  {
    if s != [] { SumOne(s[..|s| - 1]); }
  }

  /** A sum of terms that are not negative is zero only when every term is. */
  lemma {:induction false} SumNonNegative<T>(s: seq<T>, f: T -> real)
    requires forall i :: 0 <= i < |s| ==> f(s[i]) >= 0.0
    ensures SumOf(s, f) >= 0.0
    ensures SumOf(s, f) == 0.0 <==> forall i :: 0 <= i < |s| ==> f(s[i]) == 0.0
  {
    if s != [] {
      var init := s[..|s| - 1];
      SumNonNegative(init, f);
      assert forall i :: 0 <= i < |init| ==> init[i] == s[i];
    }
  }

  lemma SumOfSquares<T>(s: seq<T>, f: T -> real)
    ensures SumOf(s, Times(f, f)) >= 0.0
    ensures SumOf(s, Times(f, f)) == 0.0 <==> forall i :: 0 <= i < |s| ==> f(s[i]) == 0.0
  {
    forall i | 0 <= i < |s| ensures Times(f, f)(s[i]) >= 0.0 && (Times(f, f)(s[i]) == 0.0 <==> f(s[i]) == 0.0) {
      SquareSign(f(s[i]), Times(f, f)(s[i]));
    }
    SumNonNegative(s, Times(f, f));
  }

  /** Deviations from a mean add up to nothing. */
  lemma Centred<T>(s: seq<T>, f: T -> real, mean: real)
    requires mean * |s| as real == SumOf(s, f)
    ensures SumOf(s, Minus(f, mean)) == 0.0
  {
    SumOne(s);
    var minus := -mean;
    SumLinear(s, 1.0, f, minus, One());
    SumSame(s, Minus(f, mean), Linear(1.0, f, minus, One()));
    assert minus * |s| as real == -(mean * |s| as real);
  }

  /** The squares of r - v, from those of r and v and their product. */
  lemma SquaredDifference<T>(s: seq<T>, r: T -> real, v: T -> real)
    ensures SumOf(s, Times(Difference(r, v), Difference(r, v)))
         == SumOf(s, Times(r, r)) - 2.0 * SumOf(s, Times(r, v)) + SumOf(s, Times(v, v))
  {
    var two := Linear(1.0, Times(r, r), -2.0, Times(r, v));
    SumLinear(s, 1.0, Times(r, r), -2.0, Times(r, v));
    SumLinear(s, 1.0, two, 1.0, Times(v, v));
    DifferenceTerms(s, r, v);
  }

  lemma DifferenceTerms<T>(s: seq<T>, r: T -> real, v: T -> real)
    ensures var two, far := Linear(1.0, Times(r, r), -2.0, Times(r, v)), Difference(r, v);
      SumOf(s, Times(far, far)) == SumOf(s, Linear(1.0, two, 1.0, Times(v, v)))
  {
    var two, far := Linear(1.0, Times(r, r), -2.0, Times(r, v)), Difference(r, v);
    forall i | 0 <= i < |s| ensures Times(far, far)(s[i]) == Linear(1.0, two, 1.0, Times(v, v))(s[i]) {
      SquareOfDifference(r(s[i]), v(s[i]));
    }
    SumSame(s, Times(far, far), Linear(1.0, two, 1.0, Times(v, v)));
  }

  lemma SquareOfDifference(a: real, b: real)
    ensures (a - b) * (a - b) == a * a - 2.0 * (a * b) + b * b
  {}

  /** The squares of e + c*d, where d adds up to nothing. */
  lemma SquaredLine<T>(s: seq<T>, d: T -> real, e: real, c: real)
    requires SumOf(s, d) == 0.0
    ensures var v := Linear(e, One(), c, d);
      SumOf(s, Times(v, v)) == |s| as real * (e * e) + c * c * SumOf(s, Times(d, d))
  {
    var v := Linear(e, One(), c, d);
    var flat := Linear(e * e, One(), 2.0 * e * c, d);
    SumOne(s);
    SumLinear(s, e * e, One(), 2.0 * e * c, d);
    SumLinear(s, 1.0, flat, c * c, Times(d, d));
    SquaredTerms(s, d, e, c);
    SumSame(s, Times(v, v), Linear(1.0, flat, c * c, Times(d, d)));
  }

  lemma SquaredTerms<T>(s: seq<T>, d: T -> real, e: real, c: real)
    ensures var v, flat := Linear(e, One(), c, d), Linear(e * e, One(), 2.0 * e * c, d);
      forall i :: 0 <= i < |s| ==> Times(v, v)(s[i]) == Linear(1.0, flat, c * c, Times(d, d))(s[i])
  {
    var v, flat := Linear(e, One(), c, d), Linear(e * e, One(), 2.0 * e * c, d);
    forall i | 0 <= i < |s| ensures Times(v, v)(s[i]) == Linear(1.0, flat, c * c, Times(d, d))(s[i]) {
      SquareOfLine(v(s[i]), e, c, d(s[i]));
      assert flat(s[i]) == e * e + 2.0 * e * c * d(s[i]);
    }
  }

  lemma SquareOfLine(x: real, e: real, c: real, d: real)
    requires x == e + c * d
    ensures x * x == e * e + 2.0 * e * c * d + c * c * (d * d)
  {}

  /** r is orthogonal to e + c*d when it is to the constants and to d. */
  lemma CrossedLine<T>(s: seq<T>, r: T -> real, d: T -> real, e: real, c: real)
    requires SumOf(s, r) == 0.0 && SumOf(s, Times(r, d)) == 0.0
    ensures SumOf(s, Times(r, Linear(e, One(), c, d))) == 0.0
  {
    SumLinear(s, e, r, c, Times(r, d));
    forall i | 0 <= i < |s| ensures Times(r, Linear(e, One(), c, d))(s[i]) == Linear(e, r, c, Times(r, d))(s[i]) {
      Crossed(r(s[i]), d(s[i]), e, c);
    }
    SumSame(s, Times(r, Linear(e, One(), c, d)), Linear(e, r, c, Times(r, d)));
  }

  lemma Crossed(r: real, d: real, e: real, c: real)
    ensures r * (e * 1.0 + c * d) == e * r + c * (r * d)
  {}

  /** Squares of deviations moved off an orthogonal fit. */
  lemma Shifted<T>(s: seq<T>, r: T -> real, d: T -> real, e: real, c: real)
    requires SumOf(s, r) == 0.0 && SumOf(s, Times(r, d)) == 0.0 && SumOf(s, d) == 0.0
    ensures var far := Difference(r, Linear(e, One(), c, d));
      SumOf(s, Times(far, far)) == SumOf(s, Times(r, r)) + |s| as real * (e * e) + c * c * SumOf(s, Times(d, d))
  {
    CrossedLine(s, r, d, e, c);
    SquaredLine(s, d, e, c);
    SquaredDifference(s, r, Linear(e, One(), c, d));
  }

  /** What the source relies on `x ** 0.5` and `math.sqrt` for. */
  ghost predicate IsRoot(sqrt: real -> real) {
    forall x {:trigger sqrt(x)} :: x >= 0.0 ==> sqrt(x) >= 0.0 && sqrt(x) * sqrt(x) == x
  }

  /** Squares order numbers that are not negative. */
  lemma SquareOrder(a: real, b: real)
    requires a >= 0.0 && b >= 0.0
    ensures a < b <==> a * a < b * b
    ensures a == b <==> a * a == b * b
  {
    var d, e := b - a, b + a;
    assert d * e == b * b - a * a;
    if d != 0.0 { SignOf(d, e); }
  }

  lemma SquareSign(a: real, q: real)
    requires q == a * a
    ensures q >= 0.0 && (q == 0.0 <==> a == 0.0)
  {
    if a > 0.0 { PositiveProduct(a, a, q); }
    if a < 0.0 {
      var x := -a;
      PositiveProduct(x, x, q);
    }
  }

  lemma PositiveProduct(a: real, b: real, q: real)
    requires a > 0.0 && b > 0.0 && q == a * b
    ensures q > 0.0
  {}

  /** A weighted sum of two squares, each given with what it is the square of. */
  lemma TwoSquares(n: real, e: real, p: real, w: real, c: real, q: real)
    requires n > 0.0 && w > 0.0 && p >= 0.0 && q >= 0.0
    requires (p == 0.0 <==> e == 0.0) && (q == 0.0 <==> c == 0.0)
    ensures n * p + q * w >= 0.0 && (n * p + q * w == 0.0 <==> e == 0.0 && c == 0.0)
  {
    SignOf(n, p);
    SignOf(w, q);
  }
}

/** The energy baseline: ordinary least squares of energy on production. */
module Baselines {
  import opened Options
  import opened Reals
  import opened Sums

  const MIN_BASELINE_POINTS := 8
  const PLACES := 1000000.0
  const R2_PLACES := 10000.0
  const ANOMALY_SIGMA := 3.0

  /** One period: units produced and energy used. */
  datatype Point = Point(x: real, y: real)

  datatype Baseline = Baseline(intercept: real, slope: real, r2: Option<real>, residualStd: real, n: nat) {
    function Expected(units: real): real { intercept + slope * units }

    /** How many residual deviations the actual value sits above the expected one. */
    function ResidualSigma(units: real, actual: real): real {
      if residualStd <= 0.0 then 0.0 else (actual - Expected(units)) / residualStd
    }
  }

  // ---- The quantities a fit is about ----

  function X(): Point -> real { (p: Point) => p.x }
  function Y(): Point -> real { (p: Point) => p.y }

  function Mean(ps: seq<Point>, f: Point -> real): real
    requires ps != []
  {
    Quotient(SumOf(ps, f), |ps| as real)
  }

  function DX(ps: seq<Point>): Point -> real
    requires ps != []
  {
    Minus(X(), Mean(ps, X()))
  }

  function DY(ps: seq<Point>): Point -> real
    requires ps != []
  {
    Minus(Y(), Mean(ps, Y()))
  }

  function Residual(a: real, b: real): Point -> real { (p: Point) => p.y - (a + b * p.x) }

  /** The sum of squared residuals of the line y = a + b*x. */
  function SquaredError(ps: seq<Point>, a: real, b: real): real {
    SumOf(ps, Times(Residual(a, b), Residual(a, b)))
  }

  function Sxx(ps: seq<Point>): real
    requires ps != []
  {
    SumOf(ps, Times(DX(ps), DX(ps)))
  }

  function Syy(ps: seq<Point>): real
    requires ps != []
  {
    SumOf(ps, Times(DY(ps), DY(ps)))
  }

  function SlopeOf(ps: seq<Point>): real
    requires ps != [] && Sxx(ps) != 0.0
  {
    Quotient(SumOf(ps, Times(DX(ps), DY(ps))), Sxx(ps))
  }

  function InterceptOf(ps: seq<Point>): real
    requires ps != [] && Sxx(ps) != 0.0
  {
    Mean(ps, Y()) - SlopeOf(ps) * Mean(ps, X())
  }

  /** What the fit returns, as sums over the points. */
  function Fitted(ps: seq<Point>, sqrt: real -> real): Option<Baseline> {
    if |ps| < MIN_BASELINE_POINTS || Sxx(ps) <= 0.0 then None
    else
      var a, b := InterceptOf(ps), SlopeOf(ps);
      var error := SquaredError(ps, a, b);
      Some(Baseline(a, b, if Syy(ps) > 0.0 then Some(1.0 - Quotient(error, Syy(ps))) else None,
                    sqrt(Quotient(error, (|ps| - 2) as real)), |ps|))
  }

  /** A baseline as it is kept: r2 to four places, the rest to six. */
  function Stored(f: Baseline): Baseline {
    Baseline(Rounded(f.intercept, PLACES), Rounded(f.slope, PLACES),
             if f.r2.Some? then Some(Rounded(f.r2.value, R2_PLACES)) else None, Rounded(f.residualStd, PLACES), f.n)
  }

  /** x has been rounded to this many places: a whole number of them, and none nearer. */
  predicate Places(x: real, r: real, scale: real) {
    && (r * scale).Floor as real == r * scale
    && -0.5 <= r * scale - x * scale <= 0.5
  }

  /** Every coefficient that is kept is rounded, r2 to four places and the others to six. */
  lemma StoredPlaces(f: Baseline)
    ensures var g := Stored(f);
      && Places(f.intercept, g.intercept, 1000000.0) && Places(f.slope, g.slope, 1000000.0)
      && Places(f.residualStd, g.residualStd, 1000000.0) && g.n == f.n
      && (g.r2.Some? <==> f.r2.Some?) && (f.r2.Some? ==> Places(f.r2.value, g.r2.value, 10000.0))
  {
    RoundedPlaces(f.intercept, PLACES);
    RoundedPlaces(f.slope, PLACES);
    RoundedPlaces(f.residualStd, PLACES);
    if f.r2.Some? { RoundedPlaces(f.r2.value, R2_PLACES); }
  }

  lemma RoundedPlaces(x: real, scale: real)
    requires scale > 0.0
    ensures Places(x, Rounded(x, scale), scale)
  {
    var n := Nearest(x * scale);
    assert Rounded(x, scale) * scale == n as real;
    assert (n as real).Floor == n;
  }

  /** What is kept expects what the fit does, within half a unit of the last place for each coefficient. */
  lemma StoredIsNear(f: Baseline, units: real)
    requires units >= 0.0
    ensures var h := 0.5 / PLACES;
      -h * (1.0 + units) <= Stored(f).Expected(units) - f.Expected(units) <= h * (1.0 + units)
  {
    var h, a, b := 0.5 / PLACES, Stored(f).intercept - f.intercept, Stored(f).slope - f.slope;
    RoundedIsNear(f.intercept, PLACES);
    RoundedIsNear(f.slope, PLACES);
    assert -0.5 / PLACES == -h;
    ErrorGrows(a, b, units, h);
    Differ(f.intercept, Stored(f).intercept, f.slope, Stored(f).slope, units);
  }

  lemma ErrorGrows(a: real, b: real, x: real, h: real)
    requires x >= 0.0 && -h <= a <= h && -h <= b <= h
    ensures -h * (1.0 + x) <= a + b * x <= h * (1.0 + x)
  {
    if b != h { SignOf(h - b, x); }
    if b != -h { SignOf(b + h, x); }
    assert (h - b) * x == h * x - b * x && (b + h) * x == b * x + h * x;
  }

  lemma Differ(a: real, a': real, b: real, b': real, x: real)
    ensures (a' + b' * x) - (a + b * x) == (a' - a) + (b' - b) * x
  {}

  method FitBaseline(ps: seq<Point>, sqrt: real -> real) returns (r: Option<Baseline>)
    ensures r == if Fitted(ps, sqrt).Some? then Some(Stored(Fitted(ps, sqrt).value)) else None
  {
    if |ps| < MIN_BASELINE_POINTS { return None; }
    var n := |ps| as real;
    var sumX := Total(ps, X());
    var sumY := Total(ps, Y());
    var mx, my := Quotient(sumX, n), Quotient(sumY, n);
    assert Minus(X(), mx) == DX(ps) && Minus(Y(), my) == DY(ps);
    var sxx := Total(ps, Times(Minus(X(), mx), Minus(X(), mx)));
    if sxx <= 0.0 { return None; }
    var sxy := Total(ps, Times(Minus(X(), mx), Minus(Y(), my)));
    var slope := Quotient(sxy, sxx);
    var intercept := my - slope * mx;
    assert slope == SlopeOf(ps) && intercept == InterceptOf(ps);
    var residuals := Residual(intercept, slope);
    var ssRes := Total(ps, Times(residuals, residuals));
    var ssTot := Total(ps, Times(Minus(Y(), my), Minus(Y(), my)));
    var r2 := if ssTot > 0.0 then Some(1.0 - Quotient(ssRes, ssTot)) else None;
    var residualStd := sqrt(Quotient(ssRes, (|ps| - 2) as real));
    assert Fitted(ps, sqrt) == Some(Baseline(intercept, slope, r2, residualStd, |ps|));
    r := Some(Baseline(Rounded(intercept, PLACES), Rounded(slope, PLACES),
                       if r2.Some? then Some(Rounded(r2.value, R2_PLACES)) else None,
                       Rounded(residualStd, PLACES), |ps|));
  }

  /** `sum(f(p) for p in points)`. */
  method Total(ps: seq<Point>, f: Point -> real) returns (total: real)
    ensures total == SumOf(ps, f)
  {
    total := 0.0;
    for i := 0 to |ps|
      invariant total == SumOf(ps[..i], f)
    {
      assert ps[..i + 1][..i] == ps[..i];
      total := total + f(ps[i]);
    }
    assert ps[..|ps|] == ps;
  }

  // ---- The normal equations ----

  /** The fitted line goes through the means, with the slope that makes the residuals orthogonal. */
  ghost predicate IsFit(ps: seq<Point>, a: real, b: real) {
    && ps != []
    && b * Sxx(ps) == SumOf(ps, Times(DX(ps), DY(ps)))
    && a == Mean(ps, Y()) - b * Mean(ps, X())
  }

  lemma FittedIsFit(ps: seq<Point>, sqrt: real -> real)
    requires Fitted(ps, sqrt).Some?
    ensures IsFit(ps, Fitted(ps, sqrt).value.intercept, Fitted(ps, sqrt).value.slope) && Sxx(ps) > 0.0
  {}

  lemma MeanIs(ps: seq<Point>, f: Point -> real)
    requires ps != []
    ensures Mean(ps, f) * |ps| as real == SumOf(ps, f)
    ensures SumOf(ps, Minus(f, Mean(ps, f))) == 0.0
  {
    Centred(ps, f, Mean(ps, f));
  }

  lemma ResidualIs(p: Point, mx: real, my: real, a: real, b: real)
    requires a == my - b * mx
    ensures Residual(a, b)(p) == 1.0 * (p.y - my) + (-b) * (p.x - mx)
    ensures Residual(a, b)(p) * (p.x - mx) == 1.0 * ((p.x - mx) * (p.y - my)) + (-b) * ((p.x - mx) * (p.x - mx))
  {}

  lemma ResidualsCancel(ps: seq<Point>, a: real, b: real)
    requires IsFit(ps, a, b)
    ensures SumOf(ps, Residual(a, b)) == 0.0
  {
    MeanIs(ps, X());
    MeanIs(ps, Y());
    CancelAt(ps, Mean(ps, X()), Mean(ps, Y()), a, b);
  }

  lemma CancelAt(ps: seq<Point>, mx: real, my: real, a: real, b: real)
    requires a == my - b * mx
    requires SumOf(ps, Minus(X(), mx)) == 0.0 && SumOf(ps, Minus(Y(), my)) == 0.0
    ensures SumOf(ps, Residual(a, b)) == 0.0
  {
    SumLinear(ps, 1.0, Minus(Y(), my), -b, Minus(X(), mx));
    ResidualTerms(ps, mx, my, a, b);
    Nothing(SumOf(ps, Minus(Y(), my)), -b, SumOf(ps, Minus(X(), mx)));
  }

  lemma Nothing(x: real, c: real, y: real)
    requires x == 0.0 && y == 0.0
    ensures 1.0 * x + c * y == 0.0
  {}

  lemma ResidualTerms(ps: seq<Point>, mx: real, my: real, a: real, b: real)
    requires a == my - b * mx
    ensures SumOf(ps, Residual(a, b)) == SumOf(ps, Linear(1.0, Minus(Y(), my), -b, Minus(X(), mx)))
  {
    var line := Linear(1.0, Minus(Y(), my), -b, Minus(X(), mx));
    forall i | 0 <= i < |ps| ensures Residual(a, b)(ps[i]) == line(ps[i]) { ResidualIs(ps[i], mx, my, a, b); }
    SumSame(ps, Residual(a, b), line);
  }

  lemma Orthogonal(ps: seq<Point>, a: real, b: real)
    requires IsFit(ps, a, b)
    ensures SumOf(ps, Times(Residual(a, b), DX(ps))) == 0.0
  {
    OrthogonalAt(ps, Mean(ps, X()), Mean(ps, Y()), a, b, DX(ps), DY(ps));
  }

  lemma OrthogonalAt(ps: seq<Point>, mx: real, my: real, a: real, b: real, dx: Point -> real, dy: Point -> real)
    requires dx == Minus(X(), mx) && dy == Minus(Y(), my) && a == my - b * mx
    requires b * SumOf(ps, Times(dx, dx)) == SumOf(ps, Times(dx, dy))
    ensures SumOf(ps, Times(Residual(a, b), dx)) == 0.0
  {
    LineBalances(ps, Times(dx, dy), Times(dx, dx), b);
    OrthogonalTerms(ps, mx, my, a, b);
  }

  lemma LineBalances(ps: seq<Point>, f: Point -> real, g: Point -> real, b: real)
    requires b * SumOf(ps, g) == SumOf(ps, f)
    ensures SumOf(ps, Linear(1.0, f, -b, g)) == 0.0
  {
    SumLinear(ps, 1.0, f, -b, g);
    Balances(SumOf(ps, f), b, SumOf(ps, g));
  }

  lemma Balances(x: real, c: real, y: real)
    requires c * y == x
    ensures 1.0 * x + (-c) * y == 0.0
  {}

  lemma OrthogonalTerms(ps: seq<Point>, mx: real, my: real, a: real, b: real)
    requires a == my - b * mx
    ensures var dx, dy := Minus(X(), mx), Minus(Y(), my);
      SumOf(ps, Times(Residual(a, b), dx)) == SumOf(ps, Linear(1.0, Times(dx, dy), -b, Times(dx, dx)))
  {
    var dx, dy := Minus(X(), mx), Minus(Y(), my);
    var xy, xx := Times(dx, dy), Times(dx, dx);
    forall i | 0 <= i < |ps| ensures Times(Residual(a, b), dx)(ps[i]) == Linear(1.0, xy, -b, xx)(ps[i]) {
      ResidualIs(ps[i], mx, my, a, b);
    }
    SumSame(ps, Times(Residual(a, b), dx), Linear(1.0, xy, -b, xx));
  }

  /** The residuals of a fit add up to nothing and are orthogonal to x. */
  lemma NormalEquations(ps: seq<Point>, sqrt: real -> real)
    requires Fitted(ps, sqrt).Some?
    ensures var f := Fitted(ps, sqrt).value;
      && SumOf(ps, Residual(f.intercept, f.slope)) == 0.0
      && SumOf(ps, Times(Residual(f.intercept, f.slope), X())) == 0.0
  {
    var f := Fitted(ps, sqrt).value;
    FittedIsFit(ps, sqrt);
    ResidualsCancel(ps, f.intercept, f.slope);
    Orthogonal(ps, f.intercept, f.slope);
    AgainstX(ps, Residual(f.intercept, f.slope), DX(ps), Mean(ps, X()));
  }

  lemma AgainstX(ps: seq<Point>, r: Point -> real, dx: Point -> real, mx: real)
    requires dx == Minus(X(), mx) && SumOf(ps, r) == 0.0 && SumOf(ps, Times(r, dx)) == 0.0
    ensures SumOf(ps, Times(r, X())) == 0.0
  {
    SumLinear(ps, 1.0, Times(r, dx), mx, r);
    forall i | 0 <= i < |ps| ensures Times(r, X())(ps[i]) == Linear(1.0, Times(r, dx), mx, r)(ps[i]) {
      Distribute(r(ps[i]), ps[i].x - mx, mx);
    }
    SumSame(ps, Times(r, X()), Linear(1.0, Times(r, dx), mx, r));
  }

  // ---- Least squares ----

  lemma OtherResidual(p: Point, mx: real, a: real, b: real, a2: real, b2: real, e: real, c: real)
    requires c == b2 - b && e == a2 - a + c * mx
    ensures Residual(a2, b2)(p) == Residual(a, b)(p) - (e * 1.0 + c * (p.x - mx))
  {}

  /** What a line e off at the mean of x and c off in slope adds to the squared error. */
  function Excess(n: real, e: real, c: real, sxx: real): real { n * (e * e) + c * c * sxx }

  /** The squared error of any line, from that of the fitted one. */
  lemma ErrorOfAnyLine(ps: seq<Point>, a: real, b: real, a2: real, b2: real, e: real, c: real)
    requires IsFit(ps, a, b)
    requires c == b2 - b && e == a2 - a + c * Mean(ps, X())
    ensures SquaredError(ps, a2, b2) == SquaredError(ps, a, b) + Excess(|ps| as real, e, c, Sxx(ps))
  {
    ResidualsCancel(ps, a, b);
    Orthogonal(ps, a, b);
    MeanIs(ps, X());
    OtherError(ps, Mean(ps, X()), a, b, a2, b2, e, c);
    ErrorMoves(ps, Residual(a, b), DX(ps), e, c);
  }

  lemma ErrorMoves(ps: seq<Point>, r: Point -> real, d: Point -> real, e: real, c: real)
    requires SumOf(ps, r) == 0.0 && SumOf(ps, Times(r, d)) == 0.0 && SumOf(ps, d) == 0.0
    ensures var far := Difference(r, Linear(e, One(), c, d));
      SumOf(ps, Times(far, far)) == SumOf(ps, Times(r, r)) + Excess(|ps| as real, e, c, SumOf(ps, Times(d, d)))
  {
    Shifted(ps, r, d, e, c);
  }

  lemma OtherError(ps: seq<Point>, mx: real, a: real, b: real, a2: real, b2: real, e: real, c: real)
    requires c == b2 - b && e == a2 - a + c * mx
    ensures var far := Difference(Residual(a, b), Linear(e, One(), c, Minus(X(), mx)));
      SquaredError(ps, a2, b2) == SumOf(ps, Times(far, far))
  {
    var far := Difference(Residual(a, b), Linear(e, One(), c, Minus(X(), mx)));
    forall i | 0 <= i < |ps|
      ensures Times(Residual(a2, b2), Residual(a2, b2))(ps[i]) == Times(far, far)(ps[i])
    {
      OtherResidual(ps[i], mx, a, b, a2, b2, e, c);
    }
    SumSame(ps, Times(Residual(a2, b2), Residual(a2, b2)), Times(far, far));
  }

  /** The fit is the one line of least squared error among all lines. */
  lemma FitIsLeastSquares(ps: seq<Point>, sqrt: real -> real, a2: real, b2: real)
    requires Fitted(ps, sqrt).Some?
    ensures var f := Fitted(ps, sqrt).value;
      && SquaredError(ps, f.intercept, f.slope) <= SquaredError(ps, a2, b2)
      && (SquaredError(ps, f.intercept, f.slope) == SquaredError(ps, a2, b2) <==> a2 == f.intercept && b2 == f.slope)
  {
    var f := Fitted(ps, sqrt).value;
    FittedIsFit(ps, sqrt);
    var c := b2 - f.slope;
    var e := a2 - f.intercept + c * Mean(ps, X());
    ErrorOfAnyLine(ps, f.intercept, f.slope, a2, b2, e, c);
    SquareSign(e, e * e);
    SquareSign(c, c * c);
    TwoSquares(|ps| as real, e, e * e, Sxx(ps), c, c * c);
    OffsetZero(a2 - f.intercept, c, Mean(ps, X()));
  }

  lemma OffsetZero(d: real, c: real, m: real)
    ensures d + c * m == 0.0 && c == 0.0 <==> d == 0.0 && c == 0.0
  {}

  /** Total squares are explained squares plus residual squares. */
  lemma SquaresSplit(ps: seq<Point>, a: real, b: real)
    requires IsFit(ps, a, b)
    ensures Syy(ps) == b * b * Sxx(ps) + SquaredError(ps, a, b)
  {
    var my := Mean(ps, Y());
    ErrorOfAnyLine(ps, a, b, my, 0.0, 0.0, -b);
    forall i | 0 <= i < |ps|
      ensures Times(Residual(my, 0.0), Residual(my, 0.0))(ps[i]) == Times(DY(ps), DY(ps))(ps[i])
    {}
    SumSame(ps, Times(Residual(my, 0.0), Residual(my, 0.0)), Times(DY(ps), DY(ps)));
    var c := -b;
    assert c * c == b * b;
  }

  lemma Ratio(error: real, total: real, explained: real)
    requires total > 0.0 && error >= 0.0 && explained >= 0.0 && total == explained + error
    ensures 0.0 <= 1.0 - Quotient(error, total) <= 1.0 && (1.0 - Quotient(error, total) == 1.0 <==> error == 0.0)
    ensures 1.0 - Quotient(error, total) == 0.0 <==> explained == 0.0
  {
    var q := Quotient(error, total);
    assert q * total == error;
    SignOfFactor(q, total, error);
    var p := 1.0 - q;
    assert p * total == explained;
    SignOfFactor(p, total, explained);
  }

  /**
   * r2 is a fraction; it is 1 exactly when every point is on the line and 0 exactly when the line is
   * flat; it is missing exactly when the energy never varies.
   */
  lemma R2IsAFraction(ps: seq<Point>, sqrt: real -> real)
    requires Fitted(ps, sqrt).Some?
    ensures var f := Fitted(ps, sqrt).value;
      && (f.r2.None? <==> forall i :: 0 <= i < |ps| ==> ps[i].y == Mean(ps, Y()))
      && (f.r2.Some? ==> 0.0 <= f.r2.value <= 1.0)
      && (f.r2.Some? ==> (f.r2.value == 1.0 <==> forall i :: 0 <= i < |ps| ==> ps[i].y == f.Expected(ps[i].x)))
      && (f.r2.Some? ==> (f.r2.value == 0.0 <==> f.slope == 0.0))
  {
    var f := Fitted(ps, sqrt).value;
    var error, total := SquaredError(ps, f.intercept, f.slope), Syy(ps);
    FittedIsFit(ps, sqrt);
    R2Is(ps, sqrt);
    AllOnLine(ps, f);
    AllAtMean(ps);
    SquaresSplit(ps, f.intercept, f.slope);
    Explained(f.slope, Sxx(ps));
    if total > 0.0 { Ratio(error, total, f.slope * f.slope * Sxx(ps)); }
  }

  lemma R2Is(ps: seq<Point>, sqrt: real -> real)
    requires Fitted(ps, sqrt).Some?
    ensures var f := Fitted(ps, sqrt).value;
      f.r2 == if Syy(ps) > 0.0 then Some(1.0 - Quotient(SquaredError(ps, f.intercept, f.slope), Syy(ps))) else None
  {}

  lemma Explained(b: real, sxx: real)
    requires sxx > 0.0
    ensures b * b * sxx >= 0.0 && (b * b * sxx == 0.0 <==> b == 0.0)
  {
    SquareSign(b, b * b);
    TwoSquares(1.0, 0.0, 0.0, sxx, b, b * b);
  }

  lemma AllOnLine(ps: seq<Point>, f: Baseline)
    ensures SquaredError(ps, f.intercept, f.slope) >= 0.0
    ensures SquaredError(ps, f.intercept, f.slope) == 0.0 <==>
      forall i :: 0 <= i < |ps| ==> ps[i].y == f.Expected(ps[i].x)
  {
    SumOfSquares(ps, Residual(f.intercept, f.slope));
    assert forall i :: 0 <= i < |ps| ==>
      (Residual(f.intercept, f.slope)(ps[i]) == 0.0 <==> ps[i].y == f.Expected(ps[i].x));
  }

  lemma AllAtMean(ps: seq<Point>)
    requires ps != []
    ensures Syy(ps) >= 0.0 && (Syy(ps) == 0.0 <==> forall i :: 0 <= i < |ps| ==> ps[i].y == Mean(ps, Y()))
  {
    SumOfSquares(ps, DY(ps));
    assert forall i :: 0 <= i < |ps| ==> (DY(ps)(ps[i]) == 0.0 <==> ps[i].y == Mean(ps, Y()));
  }

  /** There is no baseline exactly when there are too few points or production never varies. */
  lemma NoBaselineIff(ps: seq<Point>, sqrt: real -> real)
    ensures Fitted(ps, sqrt).None? <==>
      |ps| < MIN_BASELINE_POINTS || forall i, j :: 0 <= i < |ps| && 0 <= j < |ps| ==> ps[i].x == ps[j].x
  {
    if |ps| >= MIN_BASELINE_POINTS {
      SumOfSquares(ps, DX(ps));
      assert forall i :: 0 <= i < |ps| ==> (DX(ps)(ps[i]) == 0.0 <==> ps[i].x == Mean(ps, X()));
      if forall i, j :: 0 <= i < |ps| && 0 <= j < |ps| ==> ps[i].x == ps[j].x { FlatMean(ps, ps[0].x); }
    }
  }

  lemma FlatMean(ps: seq<Point>, c: real)
    requires ps != [] && forall i :: 0 <= i < |ps| ==> ps[i].x == c
    ensures Mean(ps, X()) == c
  {
    SumOne(ps);
    SumLinear(ps, c, One(), 0.0, One());
    SumSame(ps, X(), Linear(c, One(), 0.0, One()));
    FractionUnique(SumOf(ps, X()), |ps| as real, c);
  }

  // ---- Anomalies ----

  /** The observations whose consumption exceeds the baseline by more than sigma deviations. */
  function Anomalies(f: Baseline, obs: seq<Point>, sigma: real): seq<Point> {
    if obs == [] then []
    else
      var last := obs[|obs| - 1];
      Anomalies(f, obs[..|obs| - 1], sigma) + if f.ResidualSigma(last.x, last.y) > sigma then [last] else []
  }

  method FindAnomalies(f: Baseline, obs: seq<Point>, sigma: real) returns (out: seq<Point>)
    ensures out == Anomalies(f, obs, sigma)
  {
    out := [];
    for i := 0 to |obs|
      invariant out == Anomalies(f, obs[..i], sigma)
    {
      assert obs[..i + 1][..i] == obs[..i];
      if f.ResidualSigma(obs[i].x, obs[i].y) > sigma { out := out + [obs[i]]; }
    }
    assert obs[..|obs|] == obs;
  }

  /** The anomalies of some observations and then others are theirs, in that order. */
  lemma {:induction false} AnomaliesAppend(f: Baseline, a: seq<Point>, b: seq<Point>, sigma: real)
    ensures Anomalies(f, a + b, sigma) == Anomalies(f, a, sigma) + Anomalies(f, b, sigma)
    decreases |b|
  {
    if b == [] {
      assert a + b == a;
    } else {
      assert (a + b)[..|a + b| - 1] == a + b[..|b| - 1];
      AnomaliesAppend(f, a, b[..|b| - 1], sigma);
    }
  }

  /** And one observation is one exactly when it is more than sigma deviations above the line. */
  lemma AnomalyOfOne(f: Baseline, p: Point, sigma: real)
    requires sigma >= 0.0
    ensures Anomalies(f, [p], sigma) ==
      if f.residualStd > 0.0 && p.y - (f.intercept + f.slope * p.x) > sigma * f.residualStd then [p] else []
  {
    FlaggedIff(f, p.x, p.y, sigma);
    assert [p][..0] == [];
  }

  /** A flagged observation is above the line, by more than sigma standard deviations. */
  lemma FlaggedIff(f: Baseline, units: real, actual: real, sigma: real)
    requires sigma >= 0.0
    ensures f.ResidualSigma(units, actual) > sigma <==>
      f.residualStd > 0.0 && actual - f.Expected(units) > sigma * f.residualStd
  {
    if f.residualStd > 0.0 {
      var q, s := f.ResidualSigma(units, actual), f.residualStd;
      assert q * s == actual - f.Expected(units);
      assert (q - sigma) * s == actual - f.Expected(units) - sigma * s;
      SignOfFactor(q - sigma, s, actual - f.Expected(units) - sigma * s);
    }
  }

  /** Whatever g flags lies more than m above the line of f. */
  predicate FarAbove(f: Baseline, g: Baseline, ps: seq<Point>, sigma: real, m: real) {
    forall i :: 0 <= i < |ps| ==> FarAboveAt(f, g, ps[i], sigma, m)
  }

  predicate FarAboveAt(f: Baseline, g: Baseline, p: Point, sigma: real, m: real) {
    g.ResidualSigma(p.x, p.y) > sigma ==> Residual(f.intercept, f.slope)(p) > m
  }

  /** The error holds k times t, and more if there is anything to hold. */
  predicate Covers(k: real, t: real, error: real) { k * t <= error && (k > 0.0 ==> k * t < error) }

  /** The squared residuals of the flagged points are part of the whole error. */
  lemma {:induction false} FlaggedError(f: Baseline, g: Baseline, ps: seq<Point>, sigma: real, m: real, t: real)
    requires m >= 0.0 && t == m * m && FarAbove(f, g, ps, sigma, m)
    ensures Covers(|Anomalies(g, ps, sigma)| as real, t, SquaredError(ps, f.intercept, f.slope))
  {
    if ps != [] {
      var init, last := ps[..|ps| - 1], ps[|ps| - 1];
      FlaggedError(f, g, init, sigma, m, t);
      AnomaliesSnoc(g, ps, sigma);
      var q := ErrorSnoc(f, g, ps, sigma, m, t);
      OneMore(|Anomalies(g, init, sigma)| as real, t, SquaredError(init, f.intercept, f.slope), q,
              g.ResidualSigma(last.x, last.y) > sigma);
    }
  }

  lemma ErrorSnoc(f: Baseline, g: Baseline, ps: seq<Point>, sigma: real, m: real, t: real) returns (q: real)
    requires ps != [] && m >= 0.0 && t == m * m && FarAbove(f, g, ps, sigma, m)
    ensures var n := |ps| - 1;
      && SquaredError(ps, f.intercept, f.slope) == SquaredError(ps[..n], f.intercept, f.slope) + q
      && q >= 0.0 && (g.ResidualSigma(ps[n].x, ps[n].y) > sigma ==> q > t)
  {
    var last := ps[|ps| - 1];
    var r := Residual(f.intercept, f.slope)(last);
    q := r * r;
    FarSquare(f, g, last, sigma, m, t, q);
  }

  lemma AnomaliesSnoc(g: Baseline, ps: seq<Point>, sigma: real)
    requires ps != []
    ensures var n := |ps| - 1;
      |Anomalies(g, ps, sigma)| as real ==
        |Anomalies(g, ps[..n], sigma)| as real + if g.ResidualSigma(ps[n].x, ps[n].y) > sigma then 1.0 else 0.0
  {}

  lemma FarSquare(f: Baseline, g: Baseline, p: Point, sigma: real, m: real, t: real, q: real)
    requires m >= 0.0 && t == m * m && FarAboveAt(f, g, p, sigma, m)
    requires q == Residual(f.intercept, f.slope)(p) * Residual(f.intercept, f.slope)(p)
    ensures q >= 0.0 && (g.ResidualSigma(p.x, p.y) > sigma ==> q > t)
  {
    var r := Residual(f.intercept, f.slope)(p);
    SquareSign(r, q);
    if g.ResidualSigma(p.x, p.y) > sigma { SquareOrder(m, r); }
  }

  lemma OneMore(k: real, t: real, error: real, q: real, flagged: bool)
    requires k >= 0.0 && Covers(k, t, error) && q >= 0.0 && (flagged ==> q > t)
    ensures Covers(k + if flagged then 1.0 else 0.0, t, error + q)
  {
    assert (k + 1.0) * t == k * t + t;
  }

  lemma FlaggedIsFar(f: Baseline, ps: seq<Point>, sigma: real)
    requires sigma >= 0.0
    ensures FarAbove(f, f, ps, sigma, sigma * f.residualStd)
  {
    forall i | 0 <= i < |ps| ensures FarAboveAt(f, f, ps[i], sigma, sigma * f.residualStd) {
      FlaggedIff(f, ps[i].x, ps[i].y, sigma);
    }
  }

  /**
   * Of the points a baseline was fitted on, fewer than (n - 2) / sigma^2 can be anomalies; with
   * three deviations no baseline of at most eleven points has one.
   */
  lemma FewAnomalies(ps: seq<Point>, sqrt: real -> real, sigma: real)
    requires IsRoot(sqrt) && Fitted(ps, sqrt).Some? && sigma >= 0.0
    requires Anomalies(Fitted(ps, sqrt).value, ps, sigma) != []
    ensures |Anomalies(Fitted(ps, sqrt).value, ps, sigma)| as real * (sigma * sigma) < (|ps| - 2) as real
  {
    var f := Fitted(ps, sqrt).value;
    StdIs(ps, sqrt);
    SomeFlagged(f, ps, sigma);
    FewFlagged(f, ps, sigma, f.residualStd, |Anomalies(f, ps, sigma)| as real, (|ps| - 2) as real);
  }

  lemma FewFlagged(f: Baseline, ps: seq<Point>, sigma: real, s: real, k: real, m: real)
    requires sigma >= 0.0 && s == f.residualStd > 0.0 && k == |Anomalies(f, ps, sigma)| as real > 0.0
    requires s * s * m == SquaredError(ps, f.intercept, f.slope)
    ensures k * (sigma * sigma) < m
  {
    SignOf(s, sigma);
    FlaggedIsFar(f, ps, sigma);
    FewFar(f, ps, sigma, s, sigma * s, k, m, SquaredError(ps, f.intercept, f.slope));
  }

  lemma FewFar(f: Baseline, ps: seq<Point>, sigma: real, s: real, far: real, k: real, m: real, error: real)
    requires far >= 0.0 && FarAbove(f, f, ps, sigma, far) && far == sigma * s && s > 0.0 && s * s * m == error
    requires k == |Anomalies(f, ps, sigma)| as real > 0.0 && error == SquaredError(ps, f.intercept, f.slope)
    ensures k * (sigma * sigma) < m
  {
    FlaggedError(f, f, ps, sigma, far, far * far);
    Fewer(k, sigma, s, m, error, far);
  }

  lemma StdIs(ps: seq<Point>, sqrt: real -> real)
    requires IsRoot(sqrt) && Fitted(ps, sqrt).Some?
    ensures var f := Fitted(ps, sqrt).value;
      f.residualStd * f.residualStd * (|ps| - 2) as real == SquaredError(ps, f.intercept, f.slope)
  {
    var f := Fitted(ps, sqrt).value;
    var error, m := SquaredError(ps, f.intercept, f.slope), (|ps| - 2) as real;
    AllOnLine(ps, f);
    var v := Quotient(error, m);
    assert v * m == error;
    SignOfFactor(v, m, error);
    assert f.residualStd == sqrt(v);
  }

  lemma Fewer(k: real, sigma: real, s: real, m: real, error: real, far: real)
    requires s > 0.0 && far == sigma * s && k * (far * far) < error && s * s * m == error
    ensures k * (sigma * sigma) < m
  {
    SignOf(s, s);
    assert far * far == sigma * sigma * (s * s);
    Smaller(k, sigma * sigma, s * s, m, error);
  }

  lemma Smaller(k: real, q: real, v: real, m: real, error: real)
    requires v > 0.0 && k * (q * v) < error && v * m == error
    ensures k * q < m
  {
    assert (m - k * q) * v == error - k * (q * v);
    SignOfFactor(m - k * q, v, error - k * (q * v));
  }

  lemma {:induction false} SomeFlagged(f: Baseline, ps: seq<Point>, sigma: real)
    requires sigma >= 0.0 && Anomalies(f, ps, sigma) != []
    ensures f.residualStd > 0.0
  {
    var last := ps[|ps| - 1];
    FlaggedIff(f, last.x, last.y, sigma);
    if !(f.ResidualSigma(last.x, last.y) > sigma) { SomeFlagged(f, ps[..|ps| - 1], sigma); }
  }

  lemma NoAnomalyInSmallBaselines(ps: seq<Point>, sqrt: real -> real)
    requires IsRoot(sqrt) && Fitted(ps, sqrt).Some? && |ps| <= 11
    ensures Anomalies(Fitted(ps, sqrt).value, ps, ANOMALY_SIGMA) == []
  {
    var found := Anomalies(Fitted(ps, sqrt).value, ps, ANOMALY_SIGMA);
    if found != [] {
      FewAnomalies(ps, sqrt, ANOMALY_SIGMA);
      assert false;
    }
  }

  // ---- Anomalies under the baseline as it is kept ----

  /** What more than sigma of the kept deviations sets above the kept line is at least m above the fitted one. */
  lemma StoredIsFar(f: Baseline, g: Baseline, ps: seq<Point>, sigma: real, m: real, units: real)
    requires g == Stored(f) && sigma >= 0.0 && forall i :: 0 <= i < |ps| ==> 0.0 <= ps[i].x <= units
    requires m == sigma * g.residualStd - 0.5 / PLACES * (1.0 + units)
    ensures FarAbove(f, g, ps, sigma, m)
  {
    forall i | 0 <= i < |ps| ensures FarAboveAt(f, g, ps[i], sigma, m) {
      if g.ResidualSigma(ps[i].x, ps[i].y) > sigma {
        FlaggedIff(g, ps[i].x, ps[i].y, sigma);
        StoredIsNear(f, ps[i].x);
        StillAbove(ps[i].y, f.Expected(ps[i].x), g.Expected(ps[i].x), sigma * g.residualStd, ps[i].x, units,
                   0.5 / PLACES);
      }
    }
  }

  lemma StillAbove(y: real, e: real, e': real, far: real, x: real, units: real, h: real)
    requires y - e' > far && e' - e >= -h * (1.0 + x) && x <= units && h > 0.0
    ensures y - e > far - h * (1.0 + units)
  {
    SignOf(h, units - x);
    assert h * (1.0 + units) == h * (1.0 + x) + h * (units - x);
  }

  /** The kept deviation is the fitted one, give or take half a unit of the sixth place. */
  lemma StoredStd(f: Baseline, g: Baseline, error: real, n: real, top: real, bound: real)
    requires f.residualStd >= 0.0 && n > 0.0 && f.residualStd * f.residualStd * n == error
    requires g == Stored(f) && top == g.residualStd + 0.5 / PLACES && bound == n * (top * top)
    ensures error <= bound
  {
    RoundedIsNear(f.residualStd, PLACES);
    assert -0.5 / PLACES == -(0.5 / PLACES);
    SquareBound(f.residualStd, top, n, error);
  }

  lemma SquareBound(s: real, top: real, n: real, error: real)
    requires 0.0 <= s <= top && n > 0.0 && s * s * n == error
    ensures error <= n * (top * top)
  {
    SquareOrder(s, top);
    AtMost(s * s, top * top, n);
  }

  lemma AtMost(a: real, b: real, n: real)
    requires a <= b && n > 0.0
    ensures a * n <= n * b
  {
    if a < b { SignOf(b - a, n); }
    assert (b - a) * n == n * b - a * n;
  }

  /**
   * What the code promises of the baseline it keeps, by what it keeps alone: of the points it was fitted on,
   * with units up to a bound, the flagged ones are fewer than rounding and sigma leave room for.
   */
  lemma FewStoredAnomalies(ps: seq<Point>, sqrt: real -> real, sigma: real, units: real,
        f: Baseline, g: Baseline, m: real, top: real, k: real, n: real)
    requires IsRoot(sqrt) && Fitted(ps, sqrt) == Some(f) && g == Stored(f)
    requires sigma >= 0.0 && InUnits(ps, units) && IsMargin(g, sigma, units, m, top)
    requires k == |Anomalies(g, ps, sigma)| as real && n == (g.n - 2) as real
    ensures m >= 0.0 && k > 0.0 ==> k * (m * m) < n * (top * top)
  {
    FittedStd(ps, sqrt, f, n);
    if m >= 0.0 && k > 0.0 { FewStored(f, g, ps, sigma, units, m, top, k, n); }
  }

  predicate InUnits(ps: seq<Point>, units: real) { forall i :: 0 <= i < |ps| ==> 0.0 <= ps[i].x <= units }

  /** sigma kept deviations less what rounding may take from them, and the kept deviation with what it may add. */
  predicate IsMargin(g: Baseline, sigma: real, units: real, m: real, top: real) {
    m == sigma * g.residualStd - 0.5 / PLACES * (1.0 + units) && top == g.residualStd + 0.5 / PLACES
  }

  lemma FittedStd(ps: seq<Point>, sqrt: real -> real, f: Baseline, n: real)
    requires IsRoot(sqrt) && Fitted(ps, sqrt) == Some(f) && n == (|ps| - 2) as real
    ensures HasStd(f, ps, n)
  {
    StdIs(ps, sqrt);
    StdIsNotNegative(ps, sqrt);
  }

  lemma FewStored(f: Baseline, g: Baseline, ps: seq<Point>, sigma: real, units: real,
        m: real, top: real, k: real, n: real)
    requires g == Stored(f) && sigma >= 0.0 && InUnits(ps, units) && IsMargin(g, sigma, units, m, top)
    requires m >= 0.0 && k == |Anomalies(g, ps, sigma)| as real > 0.0
    requires HasStd(f, ps, n)
    ensures k * (m * m) < n * (top * top)
  {
    StoredStd(f, g, SquaredError(ps, f.intercept, f.slope), n, top, n * (top * top));
    StoredIsFar(f, g, ps, sigma, m, units);
    FewBelow(f, g, ps, sigma, m, k, n * (top * top));
  }

  predicate HasStd(f: Baseline, ps: seq<Point>, n: real) {
    n > 0.0 && f.residualStd >= 0.0 && f.residualStd * f.residualStd * n == SquaredError(ps, f.intercept, f.slope)
  }

  lemma FewBelow(f: Baseline, g: Baseline, ps: seq<Point>, sigma: real, m: real, k: real, bound: real)
    requires m >= 0.0 && FarAbove(f, g, ps, sigma, m) && k == |Anomalies(g, ps, sigma)| as real > 0.0
    requires SquaredError(ps, f.intercept, f.slope) <= bound
    ensures k * (m * m) < bound
  {
    FlaggedError(f, g, ps, sigma, m, m * m);
  }

  lemma StdIsNotNegative(ps: seq<Point>, sqrt: real -> real)
    requires IsRoot(sqrt) && Fitted(ps, sqrt).Some?
    ensures Fitted(ps, sqrt).value.residualStd >= 0.0
  {
    var f := Fitted(ps, sqrt).value;
    var error, m := SquaredError(ps, f.intercept, f.slope), (|ps| - 2) as real;
    AllOnLine(ps, f);
    var v := Quotient(error, m);
    assert v * m == error;
    SignOfFactor(v, m, error);
    assert f.residualStd == sqrt(v);
  }

  lemma SumEight(ps: seq<Point>, f: Point -> real)
    requires |ps| == 8
    ensures SumOf(ps, f) ==
      f(ps[0]) + f(ps[1]) + f(ps[2]) + f(ps[3]) + f(ps[4]) + f(ps[5]) + f(ps[6]) + f(ps[7])
  {
    SumFour(ps[..4], f);
    assert ps[..8] == ps && ps[..8][..7] == ps[..7] && ps[..7][..6] == ps[..6] && ps[..6][..5] == ps[..5];
    assert ps[..5][..4] == ps[..4];
    assert SumOf(ps[..5], f) == SumOf(ps[..4], f) + f(ps[4]);
    assert SumOf(ps[..6], f) == SumOf(ps[..5], f) + f(ps[5]);
    assert SumOf(ps[..7], f) == SumOf(ps[..6], f) + f(ps[6]);
  }

  lemma SumFour(ps: seq<Point>, f: Point -> real)
    requires |ps| == 4
    ensures SumOf(ps, f) == f(ps[0]) + f(ps[1]) + f(ps[2]) + f(ps[3])
  {
    assert ps[..3][..2] == ps[..2] && ps[..2][..1] == ps[..1] && ps[..1][..0] == [];
    assert SumOf(ps[..1], f) == SumOf(ps[..0], f) + f(ps[0]);
    assert SumOf(ps[..2], f) == SumOf(ps[..1], f) + f(ps[1]);
    assert SumOf(ps[..3], f) == SumOf(ps[..2], f) + f(ps[2]);
  }

  /** Three points at no units, one high and two low, and five on the line at one unit. */
  predicate Eight(ps: seq<Point>, c: real, u: real) {
    && |ps| == 8 && ps[0] == Point(0.0, c + 2.0 * u) && ps[1] == ps[2] == Point(0.0, c - u)
    && forall i :: 3 <= i < 8 ==> ps[i] == Point(1.0, c)
  }

  lemma EightMeans(ps: seq<Point>, c: real, u: real)
    requires Eight(ps, c, u)
    ensures Mean(ps, X()) == 0.625 && Mean(ps, Y()) == c
  {
    SumEight(ps, X());
    SumEight(ps, Y());
  }

  lemma EightFit(ps: seq<Point>, c: real, u: real)
    requires Eight(ps, c, u)
    ensures Sxx(ps) == 1.875 && SlopeOf(ps) == 0.0 && InterceptOf(ps) == c
    ensures SquaredError(ps, c, 0.0) == 6.0 * (u * u)
  {
    EightMeans(ps, c, u);
    SumEight(ps, Times(DX(ps), DX(ps)));
    SumEight(ps, Times(DX(ps), DY(ps)));
    SumEight(ps, Times(Residual(c, 0.0), Residual(c, 0.0)));
  }

  /** Rounding alone can flag a point of eight: three kept deviations are not three fitted ones. */
  lemma RoundingFlags(ps: seq<Point>, sqrt: real -> real)
    requires IsRoot(sqrt) && Eight(ps, 1.0000004, 0.00000149)
    ensures Fitted(ps, sqrt).Some? && Anomalies(Fitted(ps, sqrt).value, ps, ANOMALY_SIGMA) == []
    ensures Anomalies(Stored(Fitted(ps, sqrt).value), ps, ANOMALY_SIGMA) != []
  {
    EightFit(ps, 1.0000004, 0.00000149);
    var u := 0.00000149;
    NoAnomalyInSmallBaselines(ps, sqrt);
    assert Quotient(6.0 * (u * u), 6.0) == u * u;
    SquareOrder(u, sqrt(u * u));
    var g := Stored(Fitted(ps, sqrt).value);
    assert g.intercept == 1.0 && g.slope == 0.0 && g.residualStd == 0.000001;
    StaysFlagged(g, ps, ANOMALY_SIGMA, 0);
  }

  lemma {:induction false} StaysFlagged(g: Baseline, ps: seq<Point>, sigma: real, i: nat)
    requires i < |ps| && g.ResidualSigma(ps[i].x, ps[i].y) > sigma
    ensures Anomalies(g, ps, sigma) != []
    decreases |ps|
  {
    if i < |ps| - 1 { StaysFlagged(g, ps[..|ps| - 1], sigma, i); }
  }
}
