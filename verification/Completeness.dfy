/** Why the addition formula never divides by zero on the curve (RFC 8032, section 5.1; tools/interop/verify_cose.py). */
module Completeness {
  import opened Bytes
  import opened Edwards
  import opened Ed25519
  import opened PointDecoding

  /** Named hypothesis: the curve constant d is not a square modulo p. */
  ghost predicate NonSquare(c: Curve)
    requires c.p >= 2
  {
    forall u: int, v: int :: Cong(c.p, u * u, c.d * (v * v)) ==> Cong(c.p, v, 0)
  }

  /** What the exceptional value t of two curve points would do: (ix + ty)^2 is d times a square. */
  lemma Expansion(d: int, x1: int, y1: int, x2: int, y2: int, i: int)
    ensures var t := d * ((x1 * y1) * (x2 * y2));
      var u, v := i * x1 + t * y1, (x1 * y1) * (i * x2 + y2);
      var m := d * ((x1 * y1) * (x1 * y1));
      u * u - d * (v * v) ==
      ((y1 * y1 - x1 * x1) - 1 - m) + (t * t - 1) * (y1 * y1 - 1)
      - m * ((y2 * y2 - x2 * x2) - 1 - d * ((x2 * y2) * (x2 * y2))) + (i * i + 1) * (x1 * x1 - m * (x2 * x2))
  {
    var t := d * ((x1 * y1) * (x2 * y2));
    var u, v := i * x1 + t * y1, (x1 * y1) * (i * x2 + y2);
    var m, n := d * ((x1 * y1) * (x1 * y1)), d * ((x2 * y2) * (x2 * y2));
    SquareOfSum(i, x1, t, y1);
    assert u * u == (i * i) * (x1 * x1) + (t * t) * (y1 * y1) + 2 * ((i * x1) * (t * y1));
    SquaredProduct(x1 * y1, i * x2 + y2);
    SquareOfSum(i, x2, y2, 1);
    var w := (i * x2 + y2) * (i * x2 + y2);
    assert w == (i * i) * (x2 * x2) + y2 * y2 + 2 * ((i * x2) * y2);
    Factor(d, (x1 * y1) * (x1 * y1), w);
    assert d * (v * v) == m * w;
    Cross(d, x1, y1, x2, y2, i);
    assert 2 * ((i * x1) * (t * y1)) == m * (2 * ((i * x2) * y2));
    TimesSum(m, (i * i) * (x2 * x2), y2 * y2, 2 * ((i * x2) * y2));
    TSquared(d, x1 * y1, x2 * y2);
    assert m * n == t * t;
    Collect(x1 * x1, y1 * y1, x2 * x2, y2 * y2, i * i, t * t, m, n);
  }

  lemma SquaredProduct(a: int, b: int)
    ensures (a * b) * (a * b) == (a * a) * (b * b)
  {
  }

  lemma Factor(d: int, a: int, w: int)
    ensures d * (a * w) == (d * a) * w
  {
  }

  lemma Cross(d: int, x1: int, y1: int, x2: int, y2: int, i: int)
    ensures (i * x1) * ((d * ((x1 * y1) * (x2 * y2))) * y1) == (d * ((x1 * y1) * (x1 * y1))) * ((i * x2) * y2)
  {
    var e, f := x1 * y1, x2 * y2;
    assert (i * x1) * ((d * (e * f)) * y1) == (i * e) * (d * (e * f)) by {
      Swap(i, x1, d * (e * f), y1);
    }
    assert (i * x2) * y2 == i * f;
    Swap4(i, e, d, f);
  }

  lemma Swap(i: int, x: int, a: int, y: int)
    ensures (i * x) * (a * y) == (i * (x * y)) * a
  {
  }

  lemma Swap4(i: int, e: int, d: int, f: int)
    ensures (i * e) * (d * (e * f)) == (d * (e * e)) * (i * f)
  {
  }

  lemma TimesSum(m: int, a: int, b: int, c: int)
    ensures m * (a + b + c) == m * a + m * b + m * c
  {
  }

  lemma TSquared(d: int, e: int, f: int)
    ensures (d * (e * e)) * (d * (f * f)) == (d * (e * f)) * (d * (e * f))
  {
  }

  lemma Collect(X1: int, Y1: int, X2: int, Y2: int, j: int, s: int, m: int, n: int)
    requires m * n == s
    ensures j * X1 + s * Y1 - m * (j * X2) - m * Y2 ==
            (Y1 - X1 - 1 - m) + (s - 1) * (Y1 - 1) - m * (Y2 - X2 - 1 - n) + (j + 1) * (X1 - m * X2)
  {
    assert (s - 1) * (Y1 - 1) == s * Y1 - s - Y1 + 1;
    assert m * (Y2 - X2 - 1 - n) == m * Y2 - m * X2 - m - m * n;
    assert (j + 1) * (X1 - m * X2) == j * X1 - j * (m * X2) + X1 - m * X2;
    assert j * (m * X2) == m * (j * X2);
  }

  /** So at an exceptional pair of curve points x1 y1 (i x2 + y2) vanishes, for both square roots i of -1. */
  lemma Exceptional(c: Curve, a: Point, b: Point, i: int)
    requires c.p >= 2 && NonSquare(c) && OnCurve(c, a) && OnCurve(c, b) && Cong(c.p, i * i, -1)
    requires var t := Denom(c, a, b); Cong(c.p, t * t, 1)
    ensures Cong(c.p, (a.x * a.y) * (i * b.x + b.y), 0)
  {
    var p, d := c.p, c.d;
    var t := Denom(c, a, b);
    DenomForm(d, a.x, b.x, a.y, b.y);
    var m := d * ((a.x * a.y) * (a.x * a.y));
    var u, v := i * a.x + t * a.y, (a.x * a.y) * (i * b.x + b.y);
    CurvePolyForms(c, a);
    CurvePolyForms(c, b);
    Expansion(d, a.x, a.y, b.x, b.y, i);
    CongIntro(p, CurvePoly(c, a), 0, CurvePoly(c, a) / p);
    CongIntro(p, CurvePoly(c, b), 0, CurvePoly(c, b) / p);
    var k1 := CongElim(p, CurvePoly(c, a), 0);
    var k2 := CongElim(p, CurvePoly(c, b), 0);
    var k3 := CongElim(p, t * t, 1);
    var k4 := CongElim(p, i * i, -1);
    FourMultiples(p, k1, k3, a.y * a.y - 1, m, k2, k4, a.x * a.x - m * (b.x * b.x));
    CongIntro(p, u * u, d * (v * v), k1 + k3 * (a.y * a.y - 1) - m * k2 + k4 * (a.x * a.x - m * (b.x * b.x)));
  }

  lemma FourMultiples(p: int, k1: int, k3: int, e: int, m: int, k2: int, k4: int, f: int)
    ensures p * k1 + (p * k3) * e - m * (p * k2) + (p * k4) * f == p * (k1 + k3 * e - m * k2 + k4 * f)
  {
  }

  lemma NoFactorVanishes(p: int, d: int, x1: int, x2: int, y1: int, y2: int, t: int)
    requires p >= 2 && t == d * x1 * x2 * y1 * y2 && Cong(p, t * t, 1)
    ensures !Cong(p, x1, 0) && !Cong(p, y1, 0) && !Cong(p, y2, 0)
  {
    hide Cong;
    if Cong(p, x1, 0) || Cong(p, y1, 0) || Cong(p, y2, 0) {
      var z := if Cong(p, x1, 0) then x1 else if Cong(p, y1, 0) then y1 else y2;
      var rest := if Cong(p, x1, 0) then d * x2 * y1 * y2 else if Cong(p, y1, 0) then d * x1 * x2 * y2 else d * x1 * x2 * y1;
      assert t == z * rest;
      CongRefl(p, rest * t);
      CongMul(p, z, 0, rest * t, rest * t);
      Associate(z, rest, t);
      ZeroIsNotOne(p, t * t);
    }
  }

  lemma BothSigns(p: int, i: int, x: int, y: int)
    requires PrimeLike(p) && p % 2 == 1 && Cong(p, i * x + y, 0) && Cong(p, -i * x + y, 0)
    ensures Cong(p, y, 0)
  {
    CongAdd(p, i * x + y, 0, -i * x + y, 0);
    assert (i * x + y) + (-i * x + y) == 2 * y;
    if Cong(p, 2, 0) {
      var k := CongElim(p, 2, 0);
      assert p * k == 2;
      assert k == 1 ==> p == 2;
      SmallCong2(p, k);
    }
  }

  lemma SmallCong2(p: int, k: int)
    requires p >= 2 && p % 2 == 1
    ensures p * k != 2
  {
    if k >= 1 {
      ScaleUp(p, k);
    } else {
      assert p * k <= 0;
    }
  }

  /** Where d is no square and -1 is one, no two curve points make a denominator vanish: addition is complete. */
  lemma AdditionIsComplete(s: Scheme)
    requires RootField(s) && NonSquare(s.c)
    ensures Complete(s.c)
  {
    hide OnCurve, NonSquare, Defined;
    forall a: Point, b: Point | OnCurve(s.c, a) && OnCurve(s.c, b)
      ensures Defined(s.c, a, b)
    {
      AlwaysDefined(s, a, b);
    }
  }

  lemma AlwaysDefined(s: Scheme, a: Point, b: Point)
    requires RootField(s) && NonSquare(s.c) && OnCurve(s.c, a) && OnCurve(s.c, b)
    ensures Defined(s.c, a, b)
  {
    hide *;
    FieldFacts(s);
    DefinedIs(s.c, a, b);
    NeverExceptional(s.c, a, b, s.sqrtM1);
  }

  lemma FieldFacts(s: Scheme)
    requires RootField(s)
    ensures PrimeLike(s.c.p) && s.c.p >= 2 && s.c.p % 2 == 1 && Cong(s.c.p, s.sqrtM1 * s.sqrtM1, -1)
  {
  }

  lemma DefinedIs(c: Curve, a: Point, b: Point)
    requires c.p >= 2 && PrimeLike(c.p)
    ensures Defined(c, a, b) <==> !Cong(c.p, 1 + Denom(c, a, b), 0) && !Cong(c.p, 1 - Denom(c, a, b), 0)
  {
    hide Denom, Cong, PrimeLike, Invertible;
    InvertibleIff(c, 1 + Denom(c, a, b));
    InvertibleIff(c, 1 - Denom(c, a, b));
  }

  lemma NeverExceptional(c: Curve, a: Point, b: Point, i: int)
    requires c.p >= 2 && PrimeLike(c.p) && c.p % 2 == 1 && Cong(c.p, i * i, -1)
    requires NonSquare(c) && OnCurve(c, a) && OnCurve(c, b)
    ensures !Cong(c.p, 1 + Denom(c, a, b), 0) && !Cong(c.p, 1 - Denom(c, a, b), 0)
  {
    hide *;
    var p, t := c.p, Denom(c, a, b);
    if Cong(p, 1 + t, 0) || Cong(p, 1 - t, 0) {
      UnitSquare(p, t);
      assert (-i) * (-i) == i * i;
      Exceptional(c, a, b, i);
      Exceptional(c, a, b, -i);
      DenomIs(c, a, b);
      NoFactorVanishes(p, c.d, a.x, b.x, a.y, b.y, t);
      Cancel(p, a.x, a.y, i * b.x + b.y);
      Cancel(p, a.x, a.y, -i * b.x + b.y);
      BothSigns(p, i, b.x, b.y);
    }
  }

  lemma DenomIs(c: Curve, a: Point, b: Point)
    ensures Denom(c, a, b) == c.d * a.x * b.x * a.y * b.y
  {
  }

  lemma UnitSquare(p: int, t: int)
    requires p >= 2 && (Cong(p, 1 + t, 0) || Cong(p, 1 - t, 0))
    ensures Cong(p, t * t, 1)
  {
    assert t * t - 1 == (1 + t) * (t - 1) == (1 - t) * (-1 - t);
    if Cong(p, 1 + t, 0) {
      var k := CongElim(p, 1 + t, 0);
      Associate(p, k, t - 1);
      CongIntro(p, t * t, 1, k * (t - 1));
    } else {
      var k := CongElim(p, 1 - t, 0);
      Associate(p, k, -1 - t);
      CongIntro(p, t * t, 1, k * (-1 - t));
    }
  }

  lemma Cancel(p: int, x: int, y: int, z: int)
    requires PrimeLike(p) && Cong(p, (x * y) * z, 0) && !Cong(p, x, 0) && !Cong(p, y, 0)
    ensures Cong(p, z, 0)
  {
    hide Cong;
  }

  // ----- A test for the hypothesis -----

  lemma {:induction false} PowProduct(a: int, b: int, e: nat, p: int)
    requires p >= 2
    ensures Cong(p, ModPow(a * b, e, p), ModPow(a, e, p) * ModPow(b, e, p))
  {
    hide Cong;
    if e == 0 {
      CongRefl(p, 1);
    } else {
      PowProduct(a, b, e - 1, p);
      var x, y, xy := ModPow(a, e - 1, p), ModPow(b, e - 1, p), ModPow(a * b, e - 1, p);
      PowUnfold(a * b, e, p);
      PowUnfold(a, e, p);
      PowUnfold(b, e, p);
      CongRefl(p, a * b);
      CongMul(p, a * b, a * b, xy, x * y);
      CongTrans(p, ModPow(a * b, e, p), (a * b) * xy, (a * b) * (x * y));
      CongMul(p, ModPow(a, e, p), a * x, ModPow(b, e, p), b * y);
      assert (a * x) * (b * y) == (a * b) * (x * y) by { Interchange(a, x, b, y); }
      CongSym(p, ModPow(a, e, p) * ModPow(b, e, p), (a * x) * (b * y));
      CongTrans(p, ModPow(a * b, e, p), (a * b) * (x * y), ModPow(a, e, p) * ModPow(b, e, p));
    }
  }

  lemma Interchange(a: int, x: int, b: int, y: int)
    ensures (a * x) * (b * y) == (a * b) * (x * y)
  {
  }

  /** Euler's criterion: d is no square when its power (p-1)/2 is p - 1, which is how RFC 8032 chooses it. */
  lemma NonSquareByPower(c: Curve)
    requires c.p >= 2 && PrimeLike(c.p) && c.p % 2 == 1 && ModPow(c.d, (c.p - 1) / 2, c.p) == c.p - 1
    ensures NonSquare(c)
  {
    hide Cong, ModPow;
    forall u: int, v: int | Cong(c.p, u * u, c.d * (v * v))
      ensures Cong(c.p, v, 0)
    {
      RootPowers(c, u, v);
    }
  }

  lemma RootPowers(c: Curve, u: int, v: int)
    requires c.p >= 2 && PrimeLike(c.p) && c.p % 2 == 1 && ModPow(c.d, (c.p - 1) / 2, c.p) == c.p - 1
    requires Cong(c.p, u * u, c.d * (v * v))
    ensures Cong(c.p, v, 0)
  {
    hide *;
    var p, e := c.p, (c.p - 1) / 2;
    var left, right := ModPow(u * u, e, p), ModPow(c.d * (v * v), e, p);
    PowCong(u * u, c.d * (v * v), e, p);
    var w := SquarePower(p, u);
    CongSym(p, left, w);
    CongTrans(p, w, left, right);
    if !Cong(p, v, 0) {
      NonResiduePower(c, v);
      CongTrans(p, w, right, p - 1);
      SmallCong(p, w, p - 1);
    }
  }

  /** A square to the power (p-1)/2 is 0 or 1. */
  lemma SquarePower(p: int, u: int) returns (w: int)
    requires p >= 2 && PrimeLike(p) && p % 2 == 1
    ensures Cong(p, ModPow(u * u, (p - 1) / 2, p), w) && 0 <= w <= 1
    ensures !Cong(p, u, 0) ==> w == 1
  {
    hide *;
    w := ModPow(u, p - 1, p);
    PowOfSquare(u, (p - 1) / 2, p);
    assert 2 * ((p - 1) / 2) == p - 1;
    if Cong(p, u, 0) {
      PowOfZero(u, p - 1, p);
    } else {
      Fermat(p, u);
    }
  }

  lemma NonResiduePower(c: Curve, v: int)
    requires c.p >= 2 && PrimeLike(c.p) && c.p % 2 == 1 && ModPow(c.d, (c.p - 1) / 2, c.p) == c.p - 1
    requires !Cong(c.p, v, 0)
    ensures Cong(c.p, ModPow(c.d * (v * v), (c.p - 1) / 2, c.p), c.p - 1)
  {
    hide *;
    var p, e := c.p, (c.p - 1) / 2;
    PowProduct(c.d, v * v, e, p);
    var w := SquarePower(p, v);
    var square := ModPow(v * v, e, p);
    CongRefl(p, p - 1);
    CongMul(p, p - 1, p - 1, square, w);
    assert (p - 1) * w == p - 1;
    CongTrans(p, ModPow(c.d * (v * v), e, p), (p - 1) * square, p - 1);
  }
}
