/** Easing curves (render/animation.c), over exact reals: the 64-step bisection that
    inverts a cubic Bezier curve, and the frames that are computed from it. */
module Easing {
  import opened Forms
  import opened Ints
  import opened Reals

  const STEPS: nat := 64

  datatype Curve = Curve(x1: real, y1: real, x2: real, y2: real) {
    /** What the configuration demands of the horizontal handles. */
    predicate Configured() {
      0.0 <= x1 <= 1.0 && 0.0 <= x2 <= 1.0
    }

    /** The vertical handles keep the curve in [0, 1]. */
    predicate Inside() {
      NeverNegative(y1, y2) && NeverNegative(1.0 - y2, 1.0 - y1)
    }

    /** The vertical handles keep the curve from going back. */
    predicate Rises() {
      Rising(y1, y2)
    }

    function X(u: real): real { Bezier(x1, x2, u) }
    function Y(u: real): real { Bezier(y1, y2, u) }
  }

  function Bezier(a: real, b: real, t: real): real {
    var inverse := 1.0 - t;
    3.0 * t * inverse * inverse * a + 3.0 * t * t * inverse * b + t * t * t
  }

  // ----- When a curve stays inside ------------------------------------------------------------

  predicate NeverNegative(a: real, b: real) {
    0.0 <= a && (0.0 <= b || 3.0 * (b * b) <= 4.0 * a)
  }

  lemma BezierIsForm(a: real, b: real, u: real)
    ensures Bezier(a, b, u) == u * Along(3.0 * a, 3.0 * b, 1.0, u)
  {
    var v := 1.0 - u;
    assert u * (3.0 * a * (v * v)) == 3.0 * u * v * v * a;
    assert u * (3.0 * b * (u * v)) == 3.0 * u * u * v * b;
  }

  /** A curve is never negative exactly when its handles say so. */
  lemma NeverNegativeExactly(a: real, b: real)
    ensures NeverNegative(a, b) <==> forall u :: 0.0 <= u <= 1.0 ==> 0.0 <= Bezier(a, b, u)
  {
    FormExactly(3.0 * a, 3.0 * b, 1.0);
    NeverNegativeIsForm(a, b);
    if NeverNegative(a, b) {
      forall u | 0.0 <= u <= 1.0
        ensures 0.0 <= Bezier(a, b, u)
      {
        BezierIsForm(a, b, u);
        if 0.0 < u {
          Product(u, Along(3.0 * a, 3.0 * b, 1.0, u));
        }
      }
    } else {
      var u :| 0.0 < u <= 1.0 && Along(3.0 * a, 3.0 * b, 1.0, u) < 0.0;
      BezierIsForm(a, b, u);
      var x := PositiveProduct(u, -Along(3.0 * a, 3.0 * b, 1.0, u));
      Opposite(u, Along(3.0 * a, 3.0 * b, 1.0, u), x);
    }
  }

  lemma NeverNegativeIsForm(a: real, b: real)
    ensures NeverNegative(a, b) <==> NonNegative(3.0 * a, 3.0 * b, 1.0)
  {
    assert (3.0 * b) * (3.0 * b) == 9.0 * (b * b);
  }

  lemma Opposite(u: real, y: real, x: real)
    requires x == u * -y && 0.0 < x
    ensures u * y < 0.0
  {
    assert u * y == -x;
  }

  /** Turned by half a circle a curve is the curve of the mirrored handles. */
  lemma Mirror(a: real, b: real, u: real)
    ensures 1.0 - Bezier(a, b, u) == Bezier(1.0 - b, 1.0 - a, 1.0 - u)
  {
    var v := 1.0 - u;
    assert 3.0 * v * u * u * (1.0 - b) == 3.0 * v * u * u - 3.0 * u * u * v * b;
    assert 3.0 * v * v * u * (1.0 - a) == 3.0 * v * v * u - 3.0 * u * v * v * a;
    assert 3.0 * v * u * u + 3.0 * v * v * u == 3.0 * v * u * (u + v);
    assert u * u * u + v * v * v + 3.0 * v * u == 1.0;
  }

  /** A curve stays in [0, 1] exactly when its vertical handles say so. */
  lemma InsideExactly(c: Curve)
    ensures c.Inside() <==> forall u :: 0.0 <= u <= 1.0 ==> 0.0 <= c.Y(u) <= 1.0
  {
    NeverNegativeExactly(c.y1, c.y2);
    NeverNegativeExactly(1.0 - c.y2, 1.0 - c.y1);
    forall u
      ensures Bezier(1.0 - c.y2, 1.0 - c.y1, 1.0 - u) == 1.0 - c.Y(u)
    {
      Mirror(c.y1, c.y2, u);
    }
    if c.Inside() {
      forall u | 0.0 <= u <= 1.0
        ensures 0.0 <= c.Y(u) <= 1.0
      {
        assert 0.0 <= Bezier(c.y1, c.y2, u) && 0.0 <= Bezier(1.0 - c.y2, 1.0 - c.y1, 1.0 - u);
      }
    } else if NeverNegative(c.y1, c.y2) {
      var v :| 0.0 <= v <= 1.0 && Bezier(1.0 - c.y2, 1.0 - c.y1, v) < 0.0;
      Mirror(c.y1, c.y2, 1.0 - v);
      assert 1.0 < c.Y(1.0 - v);
    } else {
      var u :| 0.0 <= u <= 1.0 && Bezier(c.y1, c.y2, u) < 0.0;
      assert c.Y(u) < 0.0;
    }
  }

  // ----- When a curve does not go back ----------------------------------------------------------

  predicate Rising(a: real, b: real) {
    0.0 <= a && b <= 1.0 && (a <= b || (a - b) * (a - b) <= a * (1.0 - b))
  }

  /** A third of the slope of a curve. */
  function Slope(a: real, b: real, u: real): real {
    Along(a, 2.0 * (b - a), 1.0 - b, u)
  }

  lemma RisingIsForm(a: real, b: real)
    ensures Rising(a, b) <==> NonNegative(a, 2.0 * (b - a), 1.0 - b)
  {
    assert (2.0 * (b - a)) * (2.0 * (b - a)) == 4.0 * ((a - b) * (a - b));
  }

  lemma Powers(a: real, b: real, u: real)
    ensures Bezier(a, b, u) == 3.0 * a * u + (3.0 * b - 6.0 * a) * (u * u) + (3.0 * a - 3.0 * b + 1.0) * (u * u * u)
    ensures Slope(a, b, u) == a + (2.0 * b - 4.0 * a) * u + (3.0 * a - 3.0 * b + 1.0) * (u * u)
  {
    BezierPowers(a, b, u, 1.0 - u);
    SlopePowers(a, b, u, 1.0 - u);
  }

  lemma BezierPowers(a: real, b: real, u: real, v: real)
    requires v == 1.0 - u
    ensures 3.0 * u * v * v * a + 3.0 * u * u * v * b + u * u * u
      == 3.0 * a * u + (3.0 * b - 6.0 * a) * (u * u) + (3.0 * a - 3.0 * b + 1.0) * (u * u * u)
  {
    assert 3.0 * u * v * v * a == 3.0 * a * u - 6.0 * a * (u * u) + 3.0 * a * (u * u * u);
    assert 3.0 * u * u * v * b == 3.0 * b * (u * u) - 3.0 * b * (u * u * u);
  }

  lemma SlopePowers(a: real, b: real, u: real, v: real)
    requires v == 1.0 - u
    ensures Form(a, 2.0 * (b - a), 1.0 - b, u, v) == a + (2.0 * b - 4.0 * a) * u + (3.0 * a - 3.0 * b + 1.0) * (u * u)
  {
    assert a * (v * v) == a - 2.0 * a * u + a * (u * u);
    assert 2.0 * (b - a) * (u * v) == 2.0 * (b - a) * u - 2.0 * (b - a) * (u * u);
  }

  /** The rise of a cubic over a step h. */
  lemma CubicStep(a: real, b: real, c: real, p: real, h: real, q: real)
    requires q == p + h
    ensures a * q + b * (q * q) + c * (q * q * q) - (a * p + b * (p * p) + c * (p * p * p))
      == h * (a + 2.0 * b * p + 3.0 * c * (p * p) + h * (b + 3.0 * c * p + h * c))
  {
    var square, cube := 2.0 * p + h, 3.0 * (p * p) + 3.0 * (p * h) + h * h;
    assert q * q == p * p + h * square;
    assert q * q * q == p * p * p + h * cube;
    assert b * (h * square) == h * (2.0 * b * p + h * b);
    assert c * (h * cube) == h * (3.0 * c * (p * p) + h * (3.0 * c * p) + h * (h * c));
  }

  /** The rise over a step, by the slope at its start and by higher powers of the step. */
  lemma Rise(a: real, b: real, p: real, h: real, q: real, c: real, e: real)
    requires q == p + h && c == 3.0 * a - 3.0 * b + 1.0 && e == 3.0 * b - 6.0 * a + 3.0 * c * p
    ensures Bezier(a, b, q) - Bezier(a, b, p) == h * (3.0 * Slope(a, b, p) + h * (e + h * c))
  {
    Powers(a, b, p);
    Powers(a, b, q);
    CubicStep(3.0 * a, 3.0 * b - 6.0 * a, c, p, h, q);
  }

  lemma NamedRise(a: real, b: real, p: real, h: real, q: real, c: real, e: real, slope: real, rest: real)
      returns (rise: real)
    requires q == p + h && c == 3.0 * a - 3.0 * b + 1.0 && e == 3.0 * b - 6.0 * a + 3.0 * c * p
    requires slope == 3.0 * Slope(a, b, p) && rest == h * (e + h * c)
    ensures rise == Bezier(a, b, q) - Bezier(a, b, p) && rise == h * (slope + rest)
  {
    rise := Bezier(a, b, q) - Bezier(a, b, p);
    Rise(a, b, p, h, q, c, e);
  }

  /** The slopes at the start, the middle and the end of the step. */
  lemma Slopes(a: real, b: real, p: real, h: real, c: real, e: real)
    requires c == 3.0 * a - 3.0 * b + 1.0 && e == 3.0 * b - 6.0 * a + 3.0 * c * p
    ensures Slope(a, b, p) + 4.0 * Slope(a, b, p + h / 2.0) + Slope(a, b, p + h)
      == 2.0 * (3.0 * Slope(a, b, p) + h * (e + h * c))
  {
    Powers(a, b, p);
    Powers(a, b, p + h / 2.0);
    Powers(a, b, p + h);
    var m, q := p + h / 2.0, p + h;
    assert m * m == p * p + p * h + h * h / 4.0 && q * q == p * p + 2.0 * (p * h) + h * h;
    SlopeSum(a, 2.0 * b - 4.0 * a, c, p, h, p * p, p * h, h * h);
    assert h * (e + h * c) == (3.0 * b - 6.0 * a) * h + 3.0 * c * (p * h) + c * (h * h);
  }

  /** Here pp, ph and hh are products of p and h. */
  lemma SlopeSum(a: real, d: real, c: real, p: real, h: real, pp: real, ph: real, hh: real)
    ensures (a + d * p + c * pp) + 4.0 * (a + d * (p + h / 2.0) + c * (pp + ph + hh / 4.0))
      + (a + d * (p + h) + c * (pp + 2.0 * ph + hh))
      == 2.0 * (3.0 * (a + d * p + c * pp) + 3.0 * d * h / 2.0 + 3.0 * c * ph + c * hh)
  {
    assert d * (p + h / 2.0) == d * p + d * h / 2.0 && d * (p + h) == d * p + d * h;
    assert c * (pp + ph + hh / 4.0) == c * pp + c * ph + c * hh / 4.0;
    assert c * (pp + 2.0 * ph + hh) == c * pp + 2.0 * (c * ph) + c * hh;
  }

  lemma SlopeIsNonNegative(a: real, b: real, u: real)
    requires Rising(a, b) && 0.0 <= u <= 1.0
    ensures 0.0 <= Slope(a, b, u)
  {
    RisingIsForm(a, b);
    FormIsNonNegative(a, 2.0 * (b - a), 1.0 - b, u, 1.0 - u);
  }

  lemma BezierRises(a: real, b: real, u: real, w: real)
    requires Rising(a, b) && 0.0 <= u <= w <= 1.0
    ensures Bezier(a, b, u) <= Bezier(a, b, w)
  {
    var c, h := 3.0 * a - 3.0 * b + 1.0, w - u;
    var e := 3.0 * b - 6.0 * a + 3.0 * c * u;
    var slope, rest := 3.0 * Slope(a, b, u), h * (e + h * c);
    SlopesAdd(a, b, u, h, c, e, slope, rest);
    var rise := NamedRise(a, b, u, h, w, c, e, slope, rest);
    Product(h, slope + rest);
  }

  lemma SlopesAdd(a: real, b: real, u: real, h: real, c: real, e: real, slope: real, rest: real)
    requires Rising(a, b) && 0.0 <= u && 0.0 <= h && u + h <= 1.0
    requires c == 3.0 * a - 3.0 * b + 1.0 && e == 3.0 * b - 6.0 * a + 3.0 * c * u
    requires slope == 3.0 * Slope(a, b, u) && rest == h * (e + h * c)
    ensures 0.0 <= slope + rest
  {
    SlopeIsNonNegative(a, b, u);
    SlopeIsNonNegative(a, b, u + h / 2.0);
    SlopeIsNonNegative(a, b, u + h);
    Slopes(a, b, u, h, c, e);
  }

  /** How little the higher powers matter for a short step, forwards or backwards. */
  lemma ShortStep(k: real, m: real, g: real, h: real, c: real, e: real) returns (rest: real)
    requires 0.0 < k && m == Abs(e) + Abs(c) && 0.0 <= g <= 1.0 && g * (2.0 * (k + m)) == k && (h == g || h == -g)
    ensures rest == h * (e + h * c) && rest <= k / 2.0
  {
    rest := h * (e + h * c);
    Below(e, Abs(e), g);
    Below(-e, Abs(e), g);
    var gg := UnitProduct(g, g);
    ShortSquare(gg, g, c);
    Product(g, k);
    assert g * (2.0 * (k + m)) == 2.0 * (g * k) + 2.0 * (g * Abs(e)) + 2.0 * (g * Abs(c));
    assert h * (e + h * c) == h * e + gg * c;
  }

  lemma UnitProduct(x: real, y: real) returns (p: real)
    requires 0.0 <= x <= 1.0 && 0.0 <= y
    ensures p == x * y && 0.0 <= p <= y
  {
    p := x * y;
    Product(x, y);
    Below(x, 1.0, y);
  }

  lemma ShortSquare(gg: real, g: real, c: real)
    requires 0.0 <= gg <= g
    ensures gg * c <= g * Abs(c)
  {
    Below(c, Abs(c), gg);
    Below(gg, g, Abs(c));
  }

  /** With y the value at the start of a step h and z the one at its end. */
  lemma Descent(y: real, z: real, g: real, h: real, slope: real, rest: real, rise: real)
    requires rise == z - y && rise == h * (slope + rest) && slope < 0.0 && rest <= -slope / 2.0 && 0.0 < g
    ensures h == g ==> z < y
    ensures h == -g ==> y < z
  {
    var x := PositiveProduct(g, -slope - rest);
    assert g * (slope + rest) == -x && -g * (slope + rest) == x;
  }

  /** Where its slope is negative a curve goes back. */
  lemma GoesBack(a: real, b: real, p: real) returns (u: real, w: real)
    requires 0.0 <= p <= 1.0 && Slope(a, b, p) < 0.0
    ensures 0.0 <= u <= w <= 1.0 && Bezier(a, b, w) < Bezier(a, b, u)
  {
    var c := 3.0 * a - 3.0 * b + 1.0;
    var e := 3.0 * b - 6.0 * a + 3.0 * c * p;
    var m := Abs(e) + Abs(c);
    var g := StepSize(-3.0 * Slope(a, b, p), m);
    if p <= 0.5 {
      StepFrom(a, b, p, g, g, p + g, c, e, 3.0 * Slope(a, b, p), m);
      u, w := p, p + g;
    } else {
      StepFrom(a, b, p, g, -g, p - g, c, e, 3.0 * Slope(a, b, p), m);
      u, w := p - g, p;
    }
  }

  lemma StepFrom(a: real, b: real, p: real, g: real, h: real, q: real, c: real, e: real, slope: real, m: real)
    requires slope == 3.0 * Slope(a, b, p) && slope < 0.0 && q == p + h && (h == g || h == -g)
    requires c == 3.0 * a - 3.0 * b + 1.0 && e == 3.0 * b - 6.0 * a + 3.0 * c * p && m == Abs(e) + Abs(c)
    requires 0.0 < g <= 1.0 && g * (2.0 * (-slope + m)) == -slope
    ensures h == g ==> Bezier(a, b, q) < Bezier(a, b, p)
    ensures h == -g ==> Bezier(a, b, p) < Bezier(a, b, q)
  {
    var rest := ShortStep(-slope, m, g, h, c, e);
    var rise := NamedRise(a, b, p, h, q, c, e, slope, rest);
    Descent(Bezier(a, b, p), Bezier(a, b, q), g, h, slope, rest, rise);
  }

  lemma StepSize(k: real, m: real) returns (g: real)
    requires 0.0 < k && 0.0 <= m
    ensures g * (2.0 * (k + m)) == k && 0.0 < g <= 0.5
  {
    g := Part(k, 2.0 * (k + m));
    HalfAtMost(k, m, g);
  }

  lemma HalfAtMost(k: real, m: real, g: real)
    requires 0.0 < k && 0.0 <= m && g * (2.0 * (k + m)) == k
    ensures g <= 0.5
  {
    Divided(2.0 * (k + m), 0.5 - g);
  }

  /** A curve never goes back exactly when its handles say so. */
  lemma RisesExactly(a: real, b: real)
    ensures Rising(a, b) <==>
      forall u, w :: 0.0 <= u <= w <= 1.0 ==> Bezier(a, b, u) <= Bezier(a, b, w)
  {
    RisingIsForm(a, b);
    if Rising(a, b) {
      forall u, w | 0.0 <= u <= w <= 1.0
        ensures Bezier(a, b, u) <= Bezier(a, b, w)
      {
        BezierRises(a, b, u, w);
      }
    } else {
      var p := FormIsNegative(a, 2.0 * (b - a), 1.0 - b);
      var u, w := GoesBack(a, b, p);
    }
  }

  /** Handles in [0, 1], as the configuration demands of the horizontal ones, do both. */
  lemma UnitHandles(a: real, b: real)
    requires 0.0 <= a <= 1.0 && 0.0 <= b <= 1.0
    ensures Rising(a, b) && NeverNegative(a, b) && NeverNegative(1.0 - b, 1.0 - a)
  {
    if b < a {
      SquareBelow(a - b, a, 1.0 - b);
    }
  }

  lemma SquareBelow(d: real, x: real, y: real)
    requires 0.0 <= d <= x && d <= y
    ensures d * d <= x * y
  {
    Below(d, x, d);
    Below(d, y, x);
  }

  lemma BezierEnds(a: real, b: real)
    ensures Bezier(a, b, 0.0) == 0.0 && Bezier(a, b, 1.0) == 1.0
  {
  }

  // ----- The bisection ------------------------------------------------------------------------------

  datatype Interval = Interval(low: real, high: real) {
    function Middle(): real { (low + high) / 2.0 }
  }

  function Halve(c: Curve, t: real, i: Interval): Interval {
    if c.X(i.Middle()) < t then i.(low := i.Middle()) else i.(high := i.Middle())
  }

  function Bisect(c: Curve, t: real, n: nat): Interval {
    if n == 0 then Interval(0.0, 1.0) else Halve(c, t, Bisect(c, t, n - 1))
  }

  /** One half, n times multiplied. */
  function Half(n: nat): real {
    if n == 0 then 1.0 else Half(n - 1) / 2.0
  }

  /** The interval keeps the place where the curve reaches t, and closes in on it. */
  lemma {:induction false} Bracket(c: Curve, t: real, n: nat)
    requires 0.0 < t < 1.0
    ensures var i := Bisect(c, t, n);
      0.0 <= i.low < i.high <= 1.0 && i.high - i.low == Half(n) && c.X(i.low) < t <= c.X(i.high)
  {
    BezierEnds(c.x1, c.x2);
    if n > 0 {
      Bracket(c, t, n - 1);
    }
  }

  /** Everything on the left of the interval is before t, everything on the right is not:
      the middle is within Half(n + 1) of the place where the curve reaches t. */
  lemma Crossing(c: Curve, t: real, n: nat, u: real)
    requires 0.0 < t < 1.0 && c.Configured() && 0.0 <= u <= 1.0
    ensures u <= Bisect(c, t, n).low ==> c.X(u) < t
    ensures u >= Bisect(c, t, n).high ==> c.X(u) >= t
  {
    Bracket(c, t, n);
    var i := Bisect(c, t, n);
    if u <= i.low {
      UnitHandles(c.x1, c.x2);
      BezierRises(c.x1, c.x2, u, i.low);
    }
    if u >= i.high {
      UnitHandles(c.x1, c.x2);
      BezierRises(c.x1, c.x2, i.high, u);
    }
  }

  /** Two runs: the later time never has its interval further left. */
  lemma {:induction false} TwoRuns(c: Curve, t: real, t': real, n: nat)
    requires 0.0 < t <= t' < 1.0
    ensures var i, i' := Bisect(c, t, n), Bisect(c, t', n); i == i' || i.high <= i'.low
  {
    if n > 0 {
      TwoRuns(c, t, t', n - 1);
      Bracket(c, t, n - 1);
      Bracket(c, t', n - 1);
    }
  }

  function Eased(c: Curve, t: real): real {
    if t <= 0.0 then 0.0 else if t >= 1.0 then 1.0 else c.Y(Bisect(c, t, STEPS).Middle())
  }

  /** leme_animation_curve_at. */
  method CurveAt(c: Curve, t: real) returns (value: real)
    ensures value == Eased(c, t)
  {
    var low, high := 0.0, 1.0;
    if t <= 0.0 {
      return 0.0;
    }
    if t >= 1.0 {
      return 1.0;
    }
    for step := 0 to STEPS
      invariant Interval(low, high) == Bisect(c, t, step)
    {
      var middle := (low + high) / 2.0;
      var x := c.X(middle);
      if x < t {
        low := middle;
      } else {
        high := middle;
      }
    }
    return c.Y((low + high) / 2.0);
  }

  /** An eased value is a height of the curve, at a place next to which the curve crosses t. */
  lemma EasedIsOnCurve(c: Curve, t: real) returns (u: real)
    requires 0.0 < t < 1.0
    ensures Half(STEPS + 1) <= u <= 1.0 - Half(STEPS + 1)
    ensures Eased(c, t) == c.Y(u) && c.X(u - Half(STEPS + 1)) < t <= c.X(u + Half(STEPS + 1))
  {
    Bracket(c, t, STEPS);
    var i := Bisect(c, t, STEPS);
    u := i.Middle();
    assert u - Half(STEPS + 1) == i.low && u + Half(STEPS + 1) == i.high;
  }

  /** An eased value stays in [0, 1] if its curve does. */
  lemma EasedInUnit(c: Curve, t: real)
    requires c.Inside()
    ensures 0.0 <= Eased(c, t) <= 1.0
  {
    if 0.0 < t < 1.0 {
      Bracket(c, t, STEPS);
      InsideExactly(c);
      assert 0.0 <= c.Y(Bisect(c, t, STEPS).Middle()) <= 1.0;
    }
  }

  /** A curve that never goes back stays inside. */
  lemma RisingIsInside(c: Curve, u: real)
    requires c.Rises() && 0.0 <= u <= 1.0
    ensures 0.0 <= c.Y(u) <= 1.0
  {
    BezierEnds(c.y1, c.y2);
    BezierRises(c.y1, c.y2, 0.0, u);
    BezierRises(c.y1, c.y2, u, 1.0);
  }

  /** The eased value never goes back in time if its curve does not. */
  lemma EasedRises(c: Curve, t: real, t': real)
    requires c.Rises() && t <= t'
    ensures 0.0 <= Eased(c, t) <= Eased(c, t') <= 1.0
  {
    if 0.0 < t < 1.0 {
      Bracket(c, t, STEPS);
      RisingIsInside(c, Bisect(c, t, STEPS).Middle());
    }
    if 0.0 < t' < 1.0 {
      Bracket(c, t', STEPS);
      RisingIsInside(c, Bisect(c, t', STEPS).Middle());
    }
    if 0.0 < t && t' < 1.0 {
      TwoRuns(c, t, t', STEPS);
      BezierRises(c.y1, c.y2, Bisect(c, t, STEPS).Middle(), Bisect(c, t', STEPS).Middle());
    }
  }

  lemma {:induction false} HalfShrinks(n: nat)
    ensures n >= 4 ==> 0.0 < Half(n) <= 1.0 / 16.0
  {
    if n > 4 {
      HalfShrinks(n - 1);
    } else if n == 4 {
      assert Half(1) == 0.5 && Half(2) == 0.25 && Half(3) == 0.125;
    }
  }

  const DIVING := Curve(1.0 / 3.0, -10.0, 2.0 / 3.0, 0.0)

  /** The configuration does not bound the vertical handles: a curve it accepts can
      leave [0, 1]. */
  lemma HandlesMatter()
    ensures DIVING.Configured() && !DIVING.Inside() && Eased(DIVING, 0.5) < 0.0
  {
    var i := Bisect(DIVING, 0.5, STEPS);
    var m := i.Middle();
    Bracket(DIVING, 0.5, STEPS);
    HalfShrinks(STEPS);
    Straight(i.low);
    Straight(i.high);
    Dives(m);
  }

  lemma Dives(m: real)
    requires 0.4 <= m <= 0.6
    ensures DIVING.Y(m) < 0.0
  {
    var v := 1.0 - m;
    Bezier0(-10.0, m);
    Product(v - 0.4, v + 0.4);
    Product(0.6 - m, 0.6 + m);
    var w := 30.0 * (v * v) - m * m;
    assert w >= 4.0;
    Product(m, w - 4.0);
    assert DIVING.Y(m) == -(m * w);
  }

  lemma Bezier0(a: real, m: real)
    ensures Bezier(a, 0.0, m) == m * (3.0 * a * ((1.0 - m) * (1.0 - m)) + m * m)
  {
    var v := 1.0 - m;
    assert 3.0 * m * v * v * a == m * (3.0 * a * (v * v));
  }

  lemma Straight(u: real)
    ensures DIVING.X(u) == u
  {
    var v := 1.0 - u;
    assert DIVING.X(u) == u * (v * v + 2.0 * u * v + u * u);
    assert v * v + 2.0 * u * v + u * u == (u + v) * (u + v);
  }

  // ----- Frames ---------------------------------------------------------------------------------------

  datatype Time = Time(seconds: int, nanoseconds: int) {
    function Real(): real { seconds as real + nanoseconds as real / 1000000000.0 }
  }

  /** leme_animation_elapsed. */
  function Elapsed(start: Time, now: Time, duration: nat): (r: real)
    ensures 0.0 <= r <= 1.0
  {
    if duration == 0 then 1.0
    else
      var seconds := (now.seconds - start.seconds) as real
        + (now.nanoseconds as real - start.nanoseconds as real) / 1000000000.0;
      var progress := seconds * 1000.0 / duration as real;
      if progress <= 0.0 then 0.0 else if progress >= 1.0 then 1.0 else progress
  }

  /** During an animation the progress is the share of its duration, in milliseconds,
      that has gone by. */
  lemma ElapsedIsShare(start: Time, now: Time, duration: nat)
    requires start.Real() <= now.Real() <= start.Real() + duration as real / 1000.0 && duration > 0
    ensures Elapsed(start, now, duration) * duration as real == (now.Real() - start.Real()) * 1000.0
  {
    var x, d := (now.Real() - start.Real()) * 1000.0, duration as real;
    DivideRises(0.0, x, d);
    DivideRises(x, d, d);
    assert d / d == 1.0 && x / d * d == x;
  }

  lemma ElapsedRises(start: Time, now: Time, later: Time, duration: nat)
    requires now.Real() <= later.Real()
    ensures Elapsed(start, now, duration) <= Elapsed(start, later, duration)
  {
    if duration > 0 {
      var a, b := now.Real() - start.Real(), later.Real() - start.Real();
      DivideRises(a * 1000.0, b * 1000.0, duration as real);
    }
  }

  lemma DivideRises(x: real, y: real, d: real)
    requires x <= y && d > 0.0
    ensures x / d <= y / d
  {
    assert y / d - x / d == (y - x) / d;
  }

  function Clamped(x: real): Int32 {
    if x <= INT_MIN as real then INT_MIN else if x >= INT_MAX as real then INT_MAX else Truncate(x)
  }

  lemma ClampedRises(x: real, y: real)
    requires x <= y
    ensures Clamped(x) <= Clamped(y)
  {
    assert x.Floor <= y.Floor && (-y).Floor <= (-x).Floor;
  }

  lemma ClampedExact(n: Int32)
    ensures Clamped(n as real) == n
  {
    var k: int := n;
    assert (k as real).Floor == k && (-k as real).Floor == -k && -(k as real) == (-k) as real;
  }

  function Path(from: real, to: real, progress: real): real {
    from + (to - from) * progress
  }

  /** leme_animation_mix. */
  function Mix(from: Int32, to: Int32, progress: real): Int32 {
    Clamped(Path(from as real, to as real, progress))
  }

  lemma MixEnds(from: Int32, to: Int32)
    ensures Mix(from, to, 0.0) == from && Mix(from, to, 1.0) == to
  {
    ClampedExact(from);
    ClampedExact(to);
  }

  /** The integer next to x on the side of zero, or the last 32-bit one on the way to x. */
  predicate Nearby(n: int, x: real) {
    && (INT_MIN as real <= x <= INT_MAX as real ==> Abs(n as real - x) < 1.0 && Abs(n as real) <= Abs(x))
    && (x > INT_MAX as real ==> n == INT_MAX)
    && (x < INT_MIN as real ==> n == INT_MIN)
  }

  lemma ClampedNearby(x: real)
    ensures Nearby(Clamped(x), x)
  {
  }

  lemma ShareOf(from: int, to: int, p: real)
    ensures Path(from as real, to as real, p) == from as real + p * (to - from) as real
  {
    assert (to - from) as real == to as real - from as real;
  }

  /** A coordinate is its start and share p of the way, rounded to a 32-bit integer. */
  lemma MixIsShare(from: Int32, to: Int32, p: real)
    ensures Nearby(Mix(from, to, p), from as real + p * (to - from) as real)
  {
    ClampedNearby(Path(from as real, to as real, p));
    ShareOf(from, to, p);
  }

  predicate Towards(from: int, to: int, a: int, b: int) {
    if from <= to then from <= a <= b <= to else to <= b <= a <= from
  }

  lemma MixMoves(from: Int32, to: Int32, p: real, q: real)
    requires 0.0 <= p <= q <= 1.0
    ensures Towards(from, to, Mix(from, to, p), Mix(from, to, q))
  {
    ClampedExact(from);
    ClampedExact(to);
    PathMoves(from as real, to as real, p, q);
    PathClamped(from as real, to as real, p, q);
  }

  lemma PathClamped(f: real, t: real, p: real, q: real)
    requires 0.0 <= p <= q <= 1.0
    ensures if f <= t then Clamped(f) <= Clamped(Path(f, t, p)) <= Clamped(Path(f, t, q)) <= Clamped(t)
            else Clamped(t) <= Clamped(Path(f, t, q)) <= Clamped(Path(f, t, p)) <= Clamped(f)
  {
    PathMoves(f, t, p, q);
    var a, b := Path(f, t, p), Path(f, t, q);
    if f <= t {
      ClampedRises(f, a);
      ClampedRises(a, b);
      ClampedRises(b, t);
    } else {
      ClampedRises(t, b);
      ClampedRises(b, a);
      ClampedRises(a, f);
    }
  }

  lemma PathMoves(f: real, t: real, p: real, q: real)
    requires 0.0 <= p <= q <= 1.0
    ensures var a, b := Path(f, t, p), Path(f, t, q); if f <= t then f <= a <= b <= t else t <= b <= a <= f
  {
    var d := t - f;
    assert Path(f, t, q) - Path(f, t, p) == d * (q - p);
    assert t - Path(f, t, q) == d * (1.0 - q);
    Signed(d, p);
    Signed(d, q - p);
    Signed(d, 1.0 - q);
  }

  lemma Signed(d: real, x: real)
    requires 0.0 <= x
    ensures if 0.0 <= d then 0.0 <= d * x else d * x <= 0.0
  {
    if d < 0.0 {
      Product(-d, x);
      assert (-d) * x == -(d * x);
    }
  }

  /** leme_animation_mix_extent. */
  function MixExtent(from: Int32, to: Int32, progress: real): Int32 {
    var mixed := Mix(from, to, progress);
    if mixed < 0 then 0 else mixed
  }

  /** Along an easing that never goes back a coordinate moves from its start to its end
      and never back, at whatever times the frames are drawn. */
  lemma FramesMoveOn(c: Curve, from: Int32, to: Int32, start: Time, now: Time, later: Time, duration: nat)
    requires c.Rises() && now.Real() <= later.Real()
    ensures var p, q := Eased(c, Elapsed(start, now, duration)), Eased(c, Elapsed(start, later, duration));
      && Towards(from, to, Mix(from, to, p), Mix(from, to, q))
      && (from >= 0 && to >= 0 ==> Towards(from, to, MixExtent(from, to, p), MixExtent(from, to, q)))
  {
    ElapsedRises(start, now, later, duration);
    var s, t := Elapsed(start, now, duration), Elapsed(start, later, duration);
    EasedRises(c, s, t);
    MixMoves(from, to, Eased(c, s), Eased(c, t));
  }

  /** Along an easing that stays inside a coordinate stays between its start and its end. */
  lemma FramesStayBetween(c: Curve, from: Int32, to: Int32, start: Time, now: Time, duration: nat)
    requires c.Inside()
    ensures Towards(from, to, Mix(from, to, Eased(c, Elapsed(start, now, duration))), to)
  {
    var p := Eased(c, Elapsed(start, now, duration));
    EasedInUnit(c, Elapsed(start, now, duration));
    MixMoves(from, to, p, 1.0);
    MixEnds(from, to);
  }

  /** An animation of some length starts at its first box and ends at its last. */
  lemma FrameEnds(c: Curve, from: Int32, to: Int32, start: Time, now: Time, duration: nat)
    requires duration > 0
    ensures now.Real() <= start.Real() ==> Mix(from, to, Eased(c, Elapsed(start, now, duration))) == from
    ensures (now.Real() - start.Real()) * 1000.0 >= duration as real ==>
      Mix(from, to, Eased(c, Elapsed(start, now, duration))) == to
  {
    MixEnds(from, to);
    var x, d := (now.Real() - start.Real()) * 1000.0, duration as real;
    if x <= 0.0 {
      DivideRises(x, 0.0, d);
    }
    if x >= d {
      DivideRises(d, x, d);
      assert d / d == 1.0;
    }
  }
}
