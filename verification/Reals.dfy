/** Signs, products and quotients of reals. */
module Reals {

  function Min(a: real, b: real): real { if a <= b then a else b }
  function Max(a: real, b: real): real { if a >= b then a else b }
  function Quotient(a: real, b: real): real
    requires b != 0.0
  {
    a / b
  }

  /** `round(x * scale) / scale`: to the nearest, a half to the even one. */
  function Rounded(x: real, scale: real): real
    requires scale > 0.0
  {
    Nearest(x * scale) as real / scale
  }

  function Nearest(y: real): (n: int)
    ensures -0.5 <= n as real - y <= 0.5
    ensures y - y.Floor as real == 0.5 ==> n % 2 == 0
  {
    var d := y - y.Floor as real;
    if d < 0.5 || (d == 0.5 && y.Floor % 2 == 0) then y.Floor else y.Floor + 1
  }

  lemma RoundedIsNear(x: real, scale: real)
    requires scale > 0.0
    ensures -0.5 / scale <= Rounded(x, scale) - x <= 0.5 / scale
  {
    var n, h := Nearest(x * scale) as real, 0.5 / scale;
    var q := n / scale;
    assert q * scale == n && h * scale == 0.5;
    assert (q - x - h) * scale == n - x * scale - 0.5;
    SignOfFactor(q - x - h, scale, n - x * scale - 0.5);
    assert (q - x + h) * scale == n - x * scale + 0.5;
    SignOfFactor(q - x + h, scale, n - x * scale + 0.5);
    assert -0.5 / scale == -h by { FractionUnique(-0.5, scale, -h); }
  }

  function Clamp(x: real): real { Min(Max(x, 0.0), 1.0) }

  lemma Distribute(c: real, a: real, b: real)
    ensures c * (a + b) == c * a + c * b
  {}

  lemma NonZero(a: real, b: real)
    requires a != 0.0 && b > 0.0
    ensures a * b != 0.0 && (a > 0.0 <==> a * b > 0.0)
  {
    if a > 0.0 { assert a * b > 0.0; } else { assert (-a) * b > 0.0; }
  }

  lemma SignOfFactor(d: real, p: real, c: real)
    requires p > 0.0 && d * p == c
    ensures (d < 0.0 <==> c < 0.0) && (d > 0.0 <==> c > 0.0)
  {
    if d != 0.0 { NonZero(d, p); }
  }

  lemma SignOf(d: real, x: real)
    requires d != 0.0 && x >= 0.0
    ensures if d < 0.0 then d * x <= 0.0 else d * x >= 0.0
    ensures x > 0.0 ==> if d < 0.0 then d * x < 0.0 else d * x > 0.0
  {
    if x > 0.0 { NonZero(d, x); }
  }

  lemma Cancel(a: real, b: real, p: real)
    requires p != 0.0 && a * p == b * p
    ensures a == b
  {
    assert (a - b) * p == 0.0;
  }

  lemma FractionUnique(x: real, p: real, d: real)
    requires p != 0.0 && x == d * p
    ensures x / p == d
  {
    Cancel(x / p, d, p);
  }

  lemma FractionIn(a: real, lo: real, hi: real)
    requires lo < hi && lo <= a <= hi
    ensures 0.0 <= (a - lo) / (hi - lo) <= 1.0 && ((a - lo) / (hi - lo) == 1.0 <==> a == hi)
    ensures lo + (a - lo) / (hi - lo) * (hi - lo) == a
  {
    var q := (a - lo) / (hi - lo);
    assert q * (hi - lo) == a - lo;
    SignOfFactor(q, hi - lo, a - lo);
    assert (q - 1.0) * (hi - lo) == a - hi;
    SignOfFactor(q - 1.0, hi - lo, a - hi);
  }

  lemma BetweenIs(x: real, d: real, lo: real, hi: real)
    requires lo < hi && 0.0 <= d <= 1.0 && x == lo + d * (hi - lo)
    ensures lo <= x <= hi && (x - lo) / (hi - lo) == d
  {
    var w := hi - lo;
    SignOf(w, d);
    SignOf(w, 1.0 - d);
    assert x - lo == d * w;
    FractionUnique(x - lo, w, d);
  }

  /** What is left of r after d at a rate, in time. */
  lemma TimeLeft(r: real, rest: real, rate: real, d: real)
    requires rate > 0.0 && r >= 0.0 && rest == Max(r - d * rate, 0.0)
    ensures Quotient(r, rate) >= 0.0 && (rest == 0.0 <==> d >= Quotient(r, rate))
    ensures Quotient(rest, rate) == Max(Quotient(r, rate) - d, 0.0)
  {
    var x := r / rate;
    assert x * rate == r;
    SignOfFactor(x, rate, r);
    assert (d - x) * rate == d * rate - r;
    SignOfFactor(d - x, rate, d * rate - r);
    FractionUnique(rest, rate, Max(x - d, 0.0));
  }

  /** Speeding up by (r / rate) / t leaves exactly t. */
  lemma SpeedUp(r: real, rul: real, pace: real, m: real, t: real, n: real)
    requires pace * m > 0.0 && m > 0.0 && t > 0.0 && rul == Quotient(r, pace * m) && rul > t
    requires n == m * (rul / t)
    ensures n >= m && pace * n > 0.0 && Quotient(r, pace * n) == t
  {
    var rate, q := pace * m, rul / t;
    assert q * t == rul && rul * rate == r;
    assert (q - 1.0) * t == rul - t;
    SignOfFactor(q - 1.0, t, rul - t);
    SignOf(m, q - 1.0);
    assert m * (q - 1.0) == n - m;
    SignOf(rate, q);
    assert pace * n == rate * q;
    assert t * (pace * n) == (q * t) * rate == r;
    FractionUnique(r, pace * n, t);
  }

  /** A line p + d*x leaves p and meets c at x = r. */
  lemma LineMeets(d: real, r: real, x: real, p: real, c: real)
    requires d != 0.0 && d * r == c - p
    ensures x >= r <==> if d < 0.0 then p + d * x <= c else p + d * x >= c
    ensures c - (p + d * x) == (r - x) * d
  {
    assert d * (r - x) == c - p - d * x;
    if x >= r { SignOf(d, x - r); assert d * (x - r) == -(d * (r - x)); } else { SignOf(d, r - x); }
  }
}
