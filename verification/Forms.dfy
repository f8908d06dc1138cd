/** Quadratic forms on the segment from (0, 1) to (1, 0), and exactly when they are
    never negative there. */
module Forms {
  import opened Reals

  function Form(a: real, b: real, c: real, u: real, v: real): real {
    a * (v * v) + b * (u * v) + c * (u * u)
  }

  predicate NonNegative(a: real, b: real, c: real) {
    0.0 <= a && 0.0 <= c && (0.0 <= b || b * b <= 4.0 * (a * c))
  }

  // ----- Where the condition holds ------------------------------------------------------------

  lemma FormIsNonNegative(a: real, b: real, c: real, u: real, v: real)
    requires NonNegative(a, b, c) && 0.0 <= u && 0.0 <= v
    ensures 0.0 <= Form(a, b, c, u, v)
  {
    if 0.0 <= b {
      Square(u);
      Square(v);
      Product(u, v);
      Product(a, v * v);
      Product(b, u * v);
      Product(c, u * u);
    } else {
      LeadIsPositive(a, b, c);
      Completed(a, b, c, u, v);
      Square(2.0 * c * u + b * v);
      Square(v);
      Product(4.0 * (a * c) - b * b, v * v);
      Divided(4.0 * c, Form(a, b, c, u, v));
    }
  }

  lemma LeadIsPositive(a: real, b: real, c: real)
    requires b < 0.0 && 0.0 <= c && b * b <= 4.0 * (a * c)
    ensures 0.0 < c
  {
    var s := NegativeSquare(b);
    assert c == 0.0 ==> a * c == 0.0;
  }

  /** Four times the form, completed to a square. */
  lemma Completed(a: real, b: real, c: real, u: real, v: real)
    ensures 4.0 * c * Form(a, b, c, u, v)
      == (2.0 * c * u + b * v) * (2.0 * c * u + b * v) + (4.0 * (a * c) - b * b) * (v * v)
  {
  }

  lemma Divided(k: real, x: real)
    requires 0.0 < k && 0.0 <= k * x
    ensures 0.0 <= x
  {
  }

  // ----- Where it fails --------------------------------------------------------------------------

  /** There is a negative value then, and not only at the start. */
  lemma FormIsNegative(a: real, b: real, c: real) returns (p: real)
    requires !NonNegative(a, b, c)
    ensures 0.0 < p <= 1.0 && Form(a, b, c, p, 1.0 - p) < 0.0
  {
    if c < 0.0 {
      p := 1.0;
    } else if a < 0.0 {
      p := NearStart(a, b, c);
    } else if c == 0.0 {
      var x := FormWithoutLead(a, b);
      p := Normalized(a, b, c, 2.0 * a + 1.0, -b, x);
    } else {
      var x := FormAtMinimum(a, b, c, b * b - 4.0 * (a * c));
      p := Normalized(a, b, c, -b, 2.0 * c, x);
    }
  }

  lemma FormWithoutLead(a: real, b: real) returns (x: real)
    requires b < 0.0 <= a
    ensures 0.0 < x && x == -Form(a, b, 0.0, 2.0 * a + 1.0, -b)
  {
    var s := NegativeSquare(b);
    x := PositiveProduct(s, a + 1.0);
    ValueWithoutLead(a, b, 2.0 * a + 1.0, s, x);
  }

  lemma ValueWithoutLead(a: real, b: real, u: real, s: real, x: real)
    requires u == 2.0 * a + 1.0 && s == b * b && x == s * (a + 1.0)
    ensures x == -Form(a, b, 0.0, u, -b)
  {
    var ab := a * b;
    assert u * -b == -2.0 * ab - b;
    assert b * (-2.0 * ab - b) == -2.0 * (ab * b) - s;
    assert a * (-b * -b) == ab * b;
    assert x == ab * b + s;
  }

  lemma FormAtMinimum(a: real, b: real, c: real, d: real) returns (x: real)
    requires 0.0 < c && d == b * b - 4.0 * (a * c) && 0.0 < d
    ensures 0.0 < x && x == -Form(a, b, c, -b, 2.0 * c)
  {
    x := PositiveProduct(d, c);
    assert 0.0 < x;
    MinimumValue(a, b, c, d, x);
  }

  lemma MinimumValue(a: real, b: real, c: real, d: real, x: real)
    requires d == b * b - 4.0 * (a * c) && x == d * c
    ensures x == -Form(a, b, c, -b, 2.0 * c)
  {
    var v := 2.0 * c;
    assert a * (v * v) == 4.0 * (a * c) * c;
    assert b * (-b * v) == -2.0 * (b * b * c);
    assert c * (-b * -b) == b * b * c;
    assert d * c == b * b * c - 4.0 * (a * c) * c;
  }

  /** A point of the segment in the direction of (u, v). */
  lemma Normalized(a: real, b: real, c: real, u: real, v: real, x: real) returns (p: real)
    requires 0.0 < u && 0.0 <= v && x == -Form(a, b, c, u, v) && 0.0 < x
    ensures 0.0 < p <= 1.0 && Form(a, b, c, p, 1.0 - p) < 0.0
  {
    var s := u + v;
    p := Part(u, s);
    var q := Part(v, s);
    PartsOfOne(p, q, s, u, v);
    ScaledForm(a, b, c, p, q, s);
    var ss := PositiveProduct(s, s);
    Sign(ss, Form(a, b, c, p, q), -x);
  }

  lemma Part(u: real, s: real) returns (p: real)
    requires 0.0 <= u && 0.0 < s
    ensures p * s == u && 0.0 <= p && (0.0 < u ==> 0.0 < p)
  {
    p := u / s;
  }

  lemma PartsOfOne(p: real, q: real, s: real, u: real, v: real)
    requires 0.0 < s == u + v && p * s == u && q * s == v
    ensures p + q == 1.0
  {
    assert (p + q - 1.0) * s == 0.0;
  }

  lemma ScaledForm(a: real, b: real, c: real, p: real, q: real, s: real)
    ensures s * s * Form(a, b, c, p, q) == Form(a, b, c, p * s, q * s)
  {
  }

  lemma Sign(k: real, x: real, product: real)
    requires 0.0 < k && product == k * x && product < 0.0
    ensures x < 0.0
  {
  }

  lemma NearStart(a: real, b: real, c: real) returns (p: real)
    requires a < 0.0 <= c
    ensures 0.0 < p <= 1.0 && Form(a, b, c, p, 1.0 - p) < 0.0
  {
    var k, m := -a, Abs(b) + c;
    p := Part(k, 8.0 * (k + m));
    PartIsSmall(k, m, p);
    var v, x := 1.0 - p, Abs(b);
    Below(0.5, v, v);
    Below(v, 1.0, p);
    Below(p, 1.0, p);
    Product(p, v);
    NearStartValue(k, b, c, p, p * v, p * p, v * v, m);
  }

  lemma PartIsSmall(k: real, m: real, p: real)
    requires 0.0 < k && 0.0 <= m && 0.0 <= p && p * (8.0 * (k + m)) == k
    ensures p <= 1.0 / 8.0
  {
    Divided(8.0 * (k + m), 1.0 / 8.0 - p);
  }

  /** Here pv, pp and vv are products of p and v. */
  lemma NearStartValue(k: real, b: real, c: real, p: real, pv: real, pp: real, vv: real, m: real)
    requires 0.0 < k && 0.0 <= c && m == Abs(b) + c && p * (8.0 * (k + m)) == k
    requires 0.0 <= pv <= p && pp <= p && 0.25 <= vv
    ensures -k * vv + b * pv + c * pp < 0.0
  {
    Below(0.25, vv, k);
    Below(b, Abs(b), pv);
    Below(pv, p, Abs(b));
    Below(pp, p, c);
    Product(p, k);
    assert p * (8.0 * (k + m)) == 8.0 * (p * k) + 8.0 * (Abs(b) * p) + 8.0 * (c * p);
    Total(k, k * vv, b * pv, Abs(b) * p, c * pp, c * p, p * k);
  }

  lemma Total(k: real, first: real, second: real, np: real, third: real, cp: real, pk: real)
    requires 0.0 < k && 0.25 * k <= first && second <= np && third <= cp && 0.0 <= pk
    requires 8.0 * pk + 8.0 * np + 8.0 * cp == k
    ensures -first + second + third < 0.0
  {
  }

  lemma Below(x: real, y: real, k: real)
    requires x <= y && 0.0 <= k
    ensures x * k <= y * k && k * x <= k * y
  {
    Product(y - x, k);
  }

  /** The form along the segment. */
  function Along(a: real, b: real, c: real, u: real): real {
    Form(a, b, c, u, 1.0 - u)
  }

  /** Behind its first point the form is never negative exactly when the coefficients
      say so. */
  lemma FormExactly(a: real, b: real, c: real)
    ensures NonNegative(a, b, c) <==> forall u :: 0.0 < u <= 1.0 ==> 0.0 <= Along(a, b, c, u)
  {
    if NonNegative(a, b, c) {
      forall u | 0.0 < u <= 1.0
        ensures 0.0 <= Along(a, b, c, u)
      {
        FormIsNonNegative(a, b, c, u, 1.0 - u);
      }
    } else {
      var p := FormIsNegative(a, b, c);
      assert Along(a, b, c, p) < 0.0;
    }
  }
}
