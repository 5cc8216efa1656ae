/** The twisted Edwards arithmetic of tools/interop/verify_cose.py (section 5.1 of RFC 8032). */
module Edwards {

  /** -x^2 + y^2 = 1 + d x^2 y^2 over the integers modulo p. */
  datatype Curve = Curve(p: int, d: int)

  datatype Point = Point(x: int, y: int)

  const ZERO := Point(0, 1)

  /** `pow(b, e, p)`. */
  function ModPow(b: int, e: nat, p: int): (r: int)
    requires p >= 2
    ensures 0 <= r < p
  {
    if e == 0 then 1 else (b * ModPow(b, e - 1, p)) % p
  }

  /** What the code uses as the inverse of u. */
  function Inv(c: Curve, u: int): int
    requires c.p >= 2
  {
    ModPow(u, c.p - 2, c.p)
  }

  function Denom(c: Curve, a: Point, b: Point): int {
    c.d * a.x * b.x * a.y * b.y
  }

  /** `_edwards`. */
  function Add(c: Curve, a: Point, b: Point): Point
    requires c.p >= 2
  {
    var denom := Denom(c, a, b);
    Point(((a.x * b.y + b.x * a.y) * Inv(c, 1 + denom)) % c.p,
          ((a.y * b.y + a.x * b.x) * Inv(c, 1 - denom)) % c.p)
  }

  function CurvePoly(c: Curve, a: Point): int {
    -a.x * a.x + a.y * a.y - 1 - c.d * a.x * a.x * a.y * a.y
  }

  /** `_isoncurve`. */
  predicate OnCurve(c: Curve, a: Point)
    requires c.p >= 2
  {
    CurvePoly(c, a) % c.p == 0
  }

  // ----- Congruence -----

  predicate Cong(p: int, a: int, b: int)
    requires p >= 2
  {
    (a - b) % p == 0
  }

  lemma CongAdd(p: int, a: int, a': int, b: int, b': int)
    requires p >= 2 && Cong(p, a, a') && Cong(p, b, b')
    ensures Cong(p, a + b, a' + b') && Cong(p, a - b, a' - b')
  {
    var j := CongElim(p, a, a');
    var k := CongElim(p, b, b');
    CongIntro(p, a + b, a' + b', j + k);
    CongIntro(p, a - b, a' - b', j - k);
  }

  lemma CongMul(p: int, a: int, a': int, b: int, b': int)
    requires p >= 2 && Cong(p, a, a') && Cong(p, b, b')
    ensures Cong(p, a * b, a' * b')
  {
    var j := CongElim(p, a, a');
    var k := CongElim(p, b, b');
    MulOut(p, a', j, b', k);
    CongIntro(p, a * b, a' * b', a' * k + j * b' + p * (j * k));
  }

  lemma MulOut(p: int, a: int, j: int, b: int, k: int)
    ensures (a + p * j) * (b + p * k) - a * b == p * (a * k + j * b + p * (j * k))
  {}

  lemma Multiple(p: int, k: int)
    requires p >= 2
    ensures (p * k) % p == 0
  {
    var q, r := (p * k) / p, (p * k) % p;
    assert p * k == p * q + r;
    assert p * (k - q) == r;
    if k > q {
      ScaleUp(p, k - q);
    } else if k < q {
      ScaleUp(p, q - k);
    }
  }

  lemma ScaleUp(p: int, a: int)
    requires p >= 0 && a >= 1
    ensures p * a >= p
  {}

  lemma CongElim(p: int, a: int, b: int) returns (k: int)
    requires p >= 2 && Cong(p, a, b)
    ensures a == b + p * k
  {
    k := (a - b) / p;
  }

  lemma CongIntro(p: int, a: int, b: int, k: int)
    requires p >= 2 && a - b == p * k
    ensures Cong(p, a, b)
  {
    Multiple(p, k);
  }

  lemma CongTrans(p: int, a: int, b: int, c: int)
    requires p >= 2 && Cong(p, a, b) && Cong(p, b, c)
    ensures Cong(p, a, c)
  {
    var j := CongElim(p, a, b);
    var k := CongElim(p, b, c);
    CongIntro(p, a, c, j + k);
  }

  lemma CongSym(p: int, a: int, b: int)
    requires p >= 2 && Cong(p, a, b)
    ensures Cong(p, b, a)
  {
    var k := CongElim(p, a, b);
    CongIntro(p, b, a, -k);
  }

  lemma CongRefl(p: int, a: int)
    requires p >= 2
    ensures Cong(p, a, a)
  {
    CongIntro(p, a, a, 0);
  }

  lemma CongMod(p: int, a: int)
    requires p >= 2
    ensures Cong(p, a % p, a)
  {
    CongIntro(p, a % p, a, -(a / p));
  }

  // ----- Closure -----

  predicate Invertible(c: Curve, u: int)
    requires c.p >= 2
  {
    Cong(c.p, u * Inv(c, u), 1)
  }

  predicate Defined(c: Curve, a: Point, b: Point)
    requires c.p >= 2
  {
    Invertible(c, 1 + Denom(c, a, b)) && Invertible(c, 1 - Denom(c, a, b))
  }

  /** -a v + b u - u v - d a b, the curve equation over the denominators u and v, all four squared. */
  function Quad(d: int, a2: int, b2: int, u2: int, v2: int): int {
    -a2 * v2 + b2 * u2 - u2 * v2 - d * a2 * b2
  }

  /** The cleared sum equation is a combination of the two curve equations. */
  lemma ClearedCombination(d: int, x1: int, y1: int, x2: int, y2: int)
    ensures var t := d * ((x1 * y1) * (x2 * y2));
            var g1, g2 := y1 * y1 - x1 * x1, y2 * y2 - x2 * x2;
            var a1, a2 := d * ((x1 * y1) * (x1 * y1)), d * ((x2 * y2) * (x2 * y2));
            var A, B := x1 * y2 + x2 * y1, y1 * y2 + x1 * x2;
            Quad(d, A * A, B * B, (1 + t) * (1 + t), (1 - t) * (1 - t))
            == (g1 - 1 - a1) * (g2 * (1 + a1 * a2) - a2 * (g1 + 1 + a1))
               + (g2 - 1 - a2) * ((1 + a1) * (1 + a1 * a2) - a1 * (g2 + 1 + a2))
  {
    var w1, w2 := x1 * y1, x2 * y2;
    var A, B := x1 * y2 + x2 * y1, y1 * y2 + x1 * x2;
    var X1, Y1, X2, Y2 := x1 * x1, y1 * y1, x2 * x2, y2 * y2;
    SquareOfSum(x1, y2, x2, y1);
    SquareOfSum(y1, y2, x1, x2);
    DifferenceProduct(X1, Y1, X2, Y2);
    SumProduct(X1, Y1, X2, Y2);
    Regroup(x1, x1, y1, y1);
    Regroup(x2, x2, y2, y2);
    Regroup(w1, w2, w1, w2);
    Regroup(x1, y2, x2, y1);
    Regroup(y1, y2, x1, x2);
    Assemble(d, A * A, B * B, w1 * w2, X1 * Y2 + X2 * Y1, Y1 * Y2 + X1 * X2,
             Y1 - X1, Y2 - X2, w1 * w1, w2 * w2);
  }

  lemma Regroup(a: int, b: int, c: int, d: int)
    ensures (a * b) * (c * d) == (a * c) * (b * d) == (c * b) * (a * d)
  {}

  lemma SquareOfSum(a: int, b: int, c: int, d: int)
    ensures (a * b + c * d) * (a * b + c * d) == (a * a) * (b * b) + (c * c) * (d * d) + 2 * ((a * b) * (c * d))
  {}

  lemma DifferenceProduct(X1: int, Y1: int, X2: int, Y2: int)
    ensures Y1 * Y2 + X1 * X2 - (X1 * Y2 + X2 * Y1) == (Y1 - X1) * (Y2 - X2)
  {}

  lemma SumProduct(X1: int, Y1: int, X2: int, Y2: int)
    ensures (X1 * Y2 + X2 * Y1) * (Y1 * Y2 + X1 * X2)
            == (X1 * Y1) * ((Y2 - X2) * (Y2 - X2)) + (X2 * Y2) * ((Y1 - X1) * (Y1 - X1)) + 4 * ((X1 * Y1) * (X2 * Y2))
  {}

  lemma Assemble(d: int, A2: int, B2: int, m: int, S: int, R: int, g1: int, g2: int, e1: int, e2: int)
    requires A2 == S + 2 * m && B2 == R + 2 * m && m * m == e1 * e2
    requires R - S == g1 * g2 && S * R == e1 * (g2 * g2) + e2 * (g1 * g1) + 4 * (e1 * e2)
    ensures var t := d * m; var u, v := 1 + t, 1 - t; var a1, a2 := d * e1, d * e2;
            Quad(d, A2, B2, u * u, v * v)
            == (g1 - 1 - a1) * (g2 * (1 + a1 * a2) - a2 * (g1 + 1 + a1))
               + (g2 - 1 - a2) * ((1 + a1) * (1 + a1 * a2) - a1 * (g2 + 1 + a2))
  {
    Expand(d, S, R, m);
    Gather(d, g1, g2, e1, e2, m, S, R);
    Combine(g1, g2, d * e1, d * e2);
  }

  lemma Expand(d: int, S: int, R: int, m: int)
    ensures var t := d * m; var u, v := 1 + t, 1 - t;
            -(S + 2 * m) * (v * v) + (R + 2 * m) * (u * u) - (u * u) * (v * v) - d * (S + 2 * m) * (R + 2 * m)
            == (R - S) * (1 + t * t) + 4 * (d * (m * m)) - (1 - t * t) * (1 - t * t) - d * (S * R)
  {}

  lemma Gather(d: int, g1: int, g2: int, e1: int, e2: int, m: int, S: int, R: int)
    requires m * m == e1 * e2
    requires R - S == g1 * g2 && S * R == e1 * (g2 * g2) + e2 * (g1 * g1) + 4 * (e1 * e2)
    ensures var t := d * m; var a1, a2 := d * e1, d * e2;
            (R - S) * (1 + t * t) + 4 * (d * (m * m)) - (1 - t * t) * (1 - t * t) - d * (S * R)
            == (g1 * g2) * (1 + a1 * a2) - (1 - a1 * a2) * (1 - a1 * a2) - a1 * (g2 * g2) - a2 * (g1 * g1)
  {
    Regroup(d, m, d, m);
    Regroup(d, e1, d, e2);
    Spread(d, e1, g2 * g2, e2, g1 * g1, e1 * e2);
  }

  lemma Spread(d: int, e1: int, s: int, e2: int, t: int, q: int)
    ensures d * (e1 * s + e2 * t + 4 * q) == (d * e1) * s + (d * e2) * t + 4 * (d * q)
  {}

  lemma Combine(g1: int, g2: int, a1: int, a2: int)
    ensures (g1 * g2) * (1 + a1 * a2) - (1 - a1 * a2) * (1 - a1 * a2) - a1 * (g2 * g2) - a2 * (g1 * g1)
            == (g1 - 1 - a1) * (g2 * (1 + a1 * a2) - a2 * (g1 + 1 + a1))
               + (g2 - 1 - a2) * ((1 + a1) * (1 + a1 * a2) - a1 * (g2 + 1 + a2))
  {}

  lemma CurvePolyForms(c: Curve, a: Point)
    ensures CurvePoly(c, a) == Quad(c.d, a.x * a.x, a.y * a.y, 1, 1)
    ensures CurvePoly(c, a) == (a.y * a.y - a.x * a.x) - 1 - c.d * ((a.x * a.y) * (a.x * a.y))
  {
    Regroup(a.x, a.x, a.y, a.y);
    assert c.d * a.x * a.x * a.y * a.y == c.d * ((a.x * a.x) * (a.y * a.y));
  }

  lemma DenomForm(d: int, x1: int, x2: int, y1: int, y2: int)
    ensures d * x1 * x2 * y1 * y2 == d * ((x1 * y1) * (x2 * y2))
  {
    Regroup(x1, x2, y1, y2);
  }

  lemma QuadScale(d: int, a2: int, b2: int, u2: int, v2: int, i2: int, j2: int)
    ensures (i2 * j2) * Quad(d, a2, b2, u2, v2) == Quad(d, a2 * i2, b2 * j2, u2 * i2, v2 * j2)
  {}

  lemma QuadCong(p: int, d: int, a2: int, a2': int, b2: int, b2': int, u2: int, u2': int, v2: int, v2': int)
    requires p >= 2 && Cong(p, a2, a2') && Cong(p, b2, b2') && Cong(p, u2, u2') && Cong(p, v2, v2')
    ensures Cong(p, Quad(d, a2, b2, u2, v2), Quad(d, a2', b2', u2', v2'))
  {
    CongMul(p, a2, a2', v2, v2');
    CongMul(p, b2, b2', u2, u2');
    CongMul(p, u2, u2', v2, v2');
    CongMul(p, d, d, a2, a2');
    CongMul(p, d * a2, d * a2', b2, b2');
    CongAdd(p, b2 * u2, b2' * u2', a2 * v2, a2' * v2');
    CongAdd(p, b2 * u2 - a2 * v2, b2' * u2' - a2' * v2', u2 * v2, u2' * v2');
    CongAdd(p, b2 * u2 - a2 * v2 - u2 * v2, b2' * u2' - a2' * v2' - u2' * v2', d * a2 * b2, d * a2' * b2');
    QuadOrder(d, a2, b2, u2, v2);
    QuadOrder(d, a2', b2', u2', v2');
  }

  lemma QuadOrder(d: int, a2: int, b2: int, u2: int, v2: int)
    ensures Quad(d, a2, b2, u2, v2) == b2 * u2 - a2 * v2 - u2 * v2 - d * a2 * b2
  {}

  /** For points on the curve the cleared equation of their sum vanishes modulo p. */
  lemma SumClears(c: Curve, a: Point, b: Point)
    requires c.p >= 2 && OnCurve(c, a) && OnCurve(c, b)
    ensures var A, B := a.x * b.y + b.x * a.y, a.y * b.y + a.x * b.x;
            var u, v := 1 + Denom(c, a, b), 1 - Denom(c, a, b);
            Cong(c.p, Quad(c.d, A * A, B * B, u * u, v * v), 0)
  {
    DenomForm(c.d, a.x, b.x, a.y, b.y);
    ClearedCombination(c.d, a.x, a.y, b.x, b.y);
    CurvePolyForms(c, a);
    CurvePolyForms(c, b);
    var g1, g2 := a.y * a.y - a.x * a.x, b.y * b.y - b.x * b.x;
    var a1, a2 := c.d * ((a.x * a.y) * (a.x * a.y)), c.d * ((b.x * b.y) * (b.x * b.y));
    var q1, q2 := g2 * (1 + a1 * a2) - a2 * (g1 + 1 + a1), (1 + a1) * (1 + a1 * a2) - a1 * (g2 + 1 + a2);
    CongMul(c.p, g1 - 1 - a1, 0, q1, q1);
    CongMul(c.p, g2 - 1 - a2, 0, q2, q2);
    CongAdd(c.p, (g1 - 1 - a1) * q1, 0 * q1, (g2 - 1 - a2) * q2, 0 * q2);
  }

  /** A numerator times the inverse of its denominator, reduced, has the square the cleared form needs. */
  lemma QuotientSquare(p: int, n: int, i: int, q: int)
    requires p >= 2 && q == (n * i) % p
    ensures Cong(p, (n * n) * (i * i), q * q)
  {
    CongMod(p, n * i);
    CongMul(p, q, n * i, q, n * i);
    Regroup(n, n, i, i);
    var k := CongElim(p, q * q, (n * i) * (n * i));
    CongIntro(p, (n * n) * (i * i), q * q, -k);
  }

  lemma InverseSquare(p: int, u: int, i: int)
    requires p >= 2 && Cong(p, u * i, 1)
    ensures Cong(p, (u * u) * (i * i), 1)
  {
    CongMul(p, u * i, 1, u * i, 1);
    Regroup(u, u, i, i);
  }

  /** Edwards addition stays on the curve wherever both denominators are invertible. */
  lemma AddOnCurve(c: Curve, a: Point, b: Point)
    requires c.p >= 2 && OnCurve(c, a) && OnCurve(c, b) && Defined(c, a, b)
    ensures OnCurve(c, Add(c, a, b))
  {
    hide ModPow;
    var A, B := a.x * b.y + b.x * a.y, a.y * b.y + a.x * b.x;
    var u, v := 1 + Denom(c, a, b), 1 - Denom(c, a, b);
    var i, j := Inv(c, u), Inv(c, v);
    var sum := Add(c, a, b);
    SumClears(c, a, b);
    Vanishes(c, A, B, u, v, i, j, sum);
  }

  lemma Vanishes(c: Curve, A: int, B: int, u: int, v: int, i: int, j: int, sum: Point)
    requires c.p >= 2 && Cong(c.p, Quad(c.d, A * A, B * B, u * u, v * v), 0)
    requires Cong(c.p, u * i, 1) && Cong(c.p, v * j, 1)
    requires sum == Point((A * i) % c.p, (B * j) % c.p)
    ensures OnCurve(c, sum)
  {
    QuotientSquare(c.p, A, i, sum.x);
    QuotientSquare(c.p, B, j, sum.y);
    InverseSquare(c.p, u, i);
    InverseSquare(c.p, v, j);
    QuadCong(c.p, c.d, (A * A) * (i * i), sum.x * sum.x, (B * B) * (j * j), sum.y * sum.y,
             (u * u) * (i * i), 1, (v * v) * (j * j), 1);
    QuadScale(c.d, A * A, B * B, u * u, v * v, i * i, j * j);
    CurvePolyForms(c, sum);
    var scaled := Quad(c.d, (A * A) * (i * i), (B * B) * (j * j), (u * u) * (i * i), (v * v) * (j * j));
    CongMul(c.p, (i * i) * (j * j), (i * i) * (j * j), Quad(c.d, A * A, B * B, u * u, v * v), 0);
    var k := CongElim(c.p, scaled, CurvePoly(c, sum));
    var m := CongElim(c.p, scaled, 0);
    CongIntro(c.p, CurvePoly(c, sum), 0, m - k);
  }

  /** Addition does not depend on the order of its operands. */
  lemma AddCommutes(c: Curve, a: Point, b: Point)
    requires c.p >= 2
    ensures Add(c, a, b) == Add(c, b, a)
  {
    DenomForm(c.d, a.x, b.x, a.y, b.y);
    DenomForm(c.d, b.x, a.x, b.y, a.y);
    assert (a.x * a.y) * (b.x * b.y) == (b.x * b.y) * (a.x * a.y);
    assert Denom(c, a, b) == Denom(c, b, a);
    assert a.y * b.y == b.y * a.y && a.x * b.x == b.x * a.x;
  }

  /** b to the power e, over the integers. */
  function Power(b: int, e: nat): int {
    if e == 0 then 1 else Power(b, e - 1) * b
  }

  /** `pow(b, e, p)` is the least non-negative residue of the power. */
  lemma {:induction false} ModPowIsPower(b: int, e: nat, p: int)
    requires p >= 2
    ensures ModPow(b, e, p) == Power(b, e) % p
  {
    if e == 0 {
      SmallMod(1, p);
    } else {
      ModPowIsPower(b, e - 1, p);
      var r, q := ModPow(b, e - 1, p), Power(b, e - 1);
      CongMod(p, q);
      CongRefl(p, b);
      CongMul(p, b, b, r, q);
      assert b * q == Power(b, e);
      SameResidue(p, b * r, b * q);
    }
  }

  lemma SameResidue(p: int, a: int, b: int)
    requires p >= 2 && Cong(p, a, b)
    ensures a % p == b % p
  {
    hide ModPow;
    CongMod(p, a);
    CongMod(p, b);
    CongSym(p, b % p, b);
    CongTrans(p, a % p, a, b);
    CongTrans(p, a % p, b, b % p);
    SmallCong(p, a % p, b % p);
  }

  lemma SmallCong(p: int, a: int, b: int)
    requires p >= 2 && 0 <= a < p && 0 <= b < p && Cong(p, a, b)
    ensures a == b
  {
    var k := CongElim(p, a, b);
    if k >= 1 {
      ScaleUp(p, k);
    } else if k <= -1 {
      ScaleUp(p, -k);
    }
  }

  /** q is what the addition formula of section 5.1.4 of RFC 8032 asks of the sum of a and b, without any division. */
  predicate IsSum(c: Curve, a: Point, b: Point, q: Point)
    requires c.p >= 2
  {
    && 0 <= q.x < c.p && 0 <= q.y < c.p
    && Cong(c.p, (1 + c.d * a.x * a.y * b.x * b.y) * q.x, a.x * b.y + b.x * a.y)
    && Cong(c.p, (1 - c.d * a.x * a.y * b.x * b.y) * q.y, a.y * b.y + a.x * b.x)
  }

  /** Where both denominators are invertible the sum is the one reduced point that meets the formula. */
  lemma AddIffSum(c: Curve, a: Point, b: Point, q: Point)
    requires c.p >= 2 && Defined(c, a, b)
    ensures q == Add(c, a, b) <==> IsSum(c, a, b, q)
  {
    var t := c.d * a.x * a.y * b.x * b.y;
    DenomOrder(c.d, a.x, b.x, a.y, b.y);
    assert Denom(c, a, b) == t;
    var nx, ny := a.x * b.y + b.x * a.y, a.y * b.y + a.x * b.x;
    var s := Add(c, a, b);
    hide Add, ModPow, Denom;
    assert s.x == (nx * Inv(c, 1 + t)) % c.p && s.y == (ny * Inv(c, 1 - t)) % c.p by { AddUnfold(c, a, b); }
    QuotientIff(c.p, 1 + t, Inv(c, 1 + t), nx, q.x);
    QuotientIff(c.p, 1 - t, Inv(c, 1 - t), ny, q.y);
    assert q == Point(q.x, q.y) && s == Point(s.x, s.y);
  }

  lemma AddUnfold(c: Curve, a: Point, b: Point)
    requires c.p >= 2
    ensures Add(c, a, b) == Point(((a.x * b.y + b.x * a.y) * Inv(c, 1 + Denom(c, a, b))) % c.p,
                                  ((a.y * b.y + a.x * b.x) * Inv(c, 1 - Denom(c, a, b))) % c.p)
  {
    hide Denom, Inv;
  }

  lemma DenomOrder(d: int, x1: int, x2: int, y1: int, y2: int)
    ensures d * x1 * x2 * y1 * y2 == d * x1 * y1 * x2 * y2
  {
    assert d * x1 * x2 * y1 == d * x1 * y1 * x2;
  }

  lemma Rotate(u: int, n: int, i: int)
    ensures u * (n * i) == n * (u * i) == (u * n) * i == (n * u) * i
  {
    assert u * n == n * u;
  }

  /** n * i reduced is the one residue that u takes to n, when i inverts u. */
  lemma QuotientIff(p: int, u: int, i: int, n: int, q: int)
    requires p >= 2 && Cong(p, u * i, 1)
    ensures q == (n * i) % p <==> 0 <= q < p && Cong(p, u * q, n)
  {
    var r := (n * i) % p;
    hide Cong;
    CongMod(p, n * i);
    CongRefl(p, u);
    CongMul(p, u, u, r, n * i);
    CongRefl(p, n);
    CongMul(p, n, n, u * i, 1);
    Rotate(u, n, i);
    CongTrans(p, u * r, u * (n * i), n);
    if 0 <= q < p && Cong(p, u * q, n) {
      CongRefl(p, i);
      CongMul(p, u * q, n, i, i);
      CongRefl(p, q);
      CongMul(p, q, q, u * i, 1);
      Rotate(q, u, i);
      CongSym(p, q * (u * i), q);
      CongTrans(p, q, u * q * i, n * i);
      CongSym(p, r, n * i);
      CongTrans(p, q, n * i, r);
      SmallCong(p, q, r);
    }
  }

  function Reduce(c: Curve, a: Point): Point
    requires c.p >= 2
  {
    Point(a.x % c.p, a.y % c.p)
  }

  lemma SmallMod(a: int, p: int)
    requires 0 <= a < p
    ensures a % p == a
  {}

  lemma {:induction false} ModPowOne(e: nat, p: int)
    requires p >= 2
    ensures ModPow(1, e, p) == 1
  {
    if e > 0 {
      ModPowOne(e - 1, p);
      SmallMod(1, p);
    }
  }

  /** (0, 1) is the identity, up to the reduction every sum carries. */
  lemma AddIdentity(c: Curve, a: Point)
    requires c.p >= 2
    ensures Add(c, a, ZERO) == Reduce(c, a) == Add(c, ZERO, a)
  {
    assert Denom(c, a, ZERO) == 0;
    ModPowOne(c.p - 2, c.p);
    AddCommutes(c, a, ZERO);
  }
}
