/** What `_decodepoint` decodes, beside section 5.1.3 of RFC 8032 (tools/interop/verify_cose.py). */
module PointDecoding {
  import opened Bytes
  import opened Edwards
  import opened Ed25519

  // ----- Powers modulo p -----

  lemma {:induction false} PowCong(b: int, b': int, e: nat, p: int)
    requires p >= 2 && Cong(p, b, b')
    ensures Cong(p, ModPow(b, e, p), ModPow(b', e, p))
  {
    hide Cong;
    if e == 0 {
      CongRefl(p, 1);
    } else {
      var r, r' := ModPow(b, e - 1, p), ModPow(b', e - 1, p);
      PowCong(b, b', e - 1, p);
      CongMul(p, b, b', r, r');
      PowUnfold(b, e, p);
      PowUnfold(b', e, p);
      CongTrans(p, ModPow(b, e, p), b * r, b' * r');
      CongSym(p, ModPow(b', e, p), b' * r');
      CongTrans(p, ModPow(b, e, p), b' * r', ModPow(b', e, p));
    }
  }

  lemma PowUnfold(b: int, e: nat, p: int)
    requires p >= 2 && e > 0
    ensures Cong(p, ModPow(b, e, p), b * ModPow(b, e - 1, p))
  {
    CongMod(p, b * ModPow(b, e - 1, p));
  }

  lemma {:induction false} PowAdd(b: int, m: nat, n: nat, p: int)
    requires p >= 2
    ensures Cong(p, ModPow(b, m + n, p), ModPow(b, m, p) * ModPow(b, n, p))
  {
    hide Cong;
    var y := ModPow(b, n, p);
    if m == 0 {
      assert ModPow(b, 0, p) * y == y;
      CongRefl(p, y);
    } else {
      PowAdd(b, m - 1, n, p);
      var x, xy := ModPow(b, m - 1, p), ModPow(b, m - 1 + n, p);
      PowUnfold(b, m, p);
      PowUnfold(b, m + n, p);
      CongRefl(p, b);
      CongMul(p, b, b, xy, x * y);
      CongTrans(p, ModPow(b, m + n, p), b * xy, b * (x * y));
      CongRefl(p, y);
      CongMul(p, ModPow(b, m, p), b * x, y, y);
      Associate(b, x, y);
      CongSym(p, ModPow(b, m, p) * y, b * x * y);
      CongTrans(p, ModPow(b, m + n, p), b * (x * y), ModPow(b, m, p) * y);
    }
  }

  lemma Associate(a: int, b: int, c: int)
    ensures a * (b * c) == (a * b) * c == a * b * c
  {
  }

  lemma {:induction false} PowOfSquare(z: int, e: nat, p: int)
    requires p >= 2
    ensures Cong(p, ModPow(z * z, e, p), ModPow(z, 2 * e, p))
  {
    hide Cong;
    if e == 0 {
      CongRefl(p, 1);
    } else {
      PowOfSquare(z, e - 1, p);
      var r, r' := ModPow(z * z, e - 1, p), ModPow(z, 2 * (e - 1), p);
      PowUnfold(z * z, e, p);
      PowUnfold(z, 2 * e, p);
      PowUnfold(z, 2 * e - 1, p);
      CongRefl(p, z);
      CongMul(p, z, z, ModPow(z, 2 * e - 1, p), z * r');
      CongTrans(p, ModPow(z, 2 * e, p), z * ModPow(z, 2 * e - 1, p), z * (z * r'));
      Associate(z, z, r');
      CongSym(p, ModPow(z, 2 * e, p), z * z * r');
      CongRefl(p, z * z);
      CongMul(p, z * z, z * z, r, r');
      CongTrans(p, ModPow(z * z, e, p), (z * z) * r, (z * z) * r');
      CongTrans(p, ModPow(z * z, e, p), z * z * r', ModPow(z, 2 * e, p));
    }
  }

  lemma PowOfZero(b: int, e: nat, p: int)
    requires p >= 2 && Cong(p, b, 0) && e > 0
    ensures ModPow(b, e, p) == 0
  {
    var k := CongElim(p, b, 0);
    var r := ModPow(b, e - 1, p);
    Associate(p, k, r);
    Multiple(p, k * r);
  }

  // ----- Square roots -----

  /** Named hypotheses, true of a prime p: no zero divisors, and Fermat's little theorem. */
  ghost predicate PrimeLike(p: int) {
    && p >= 2
    && (forall a: int, b: int :: Cong(p, a * b, 0) ==> Cong(p, a, 0) || Cong(p, b, 0))
    && (forall a: int :: !Cong(p, a, 0) ==> ModPow(a, p - 1, p) == 1)
  }

  /** In such a field the module's inverse inverts everything but zero. */
  lemma InvertibleIff(c: Curve, u: int)
    requires c.p >= 2 && PrimeLike(c.p)
    ensures Invertible(c, u) <==> !Cong(c.p, u, 0)
  {
    var p, i := c.p, Inv(c, u);
    if Cong(p, u, 0) {
      CongRefl(p, i);
      CongMul(p, u, 0, i, i);
      ZeroIsNotOne(p, u * i);
    } else {
      Fermat(p, u);
      PowUnfold(u, p - 1, p);
      CongSym(p, 1, u * i);
    }
  }

  lemma ZeroIsNotOne(p: int, a: int)
    requires p >= 2 && Cong(p, a, 0)
    ensures !Cong(p, a, 1)
  {
    if Cong(p, a, 1) {
      CongSym(p, a, 0);
      CongTrans(p, 0, a, 1);
      SmallCong(p, 0, 1);
    }
  }

  /** Over a prime: `_edwards` gives the one reduced point of the addition formula unless a denominator vanishes. */
  lemma EdwardsIffSum(c: Curve, a: Point, b: Point, q: Point)
    requires c.p >= 2 && PrimeLike(c.p)
    requires var t := c.d * a.x * a.y * b.x * b.y; !Cong(c.p, 1 + t, 0) && !Cong(c.p, 1 - t, 0)
    ensures q == Add(c, a, b) <==> IsSum(c, a, b, q)
  {
    hide PrimeLike, Add, IsSum, Cong;
    DenomOrder(c.d, a.x, b.x, a.y, b.y);
    InvertibleIff(c, 1 + Denom(c, a, b));
    InvertibleIff(c, 1 - Denom(c, a, b));
    AddIffSum(c, a, b, q);
  }

  /** The field of the scheme: p is 5 modulo 8 and the scheme's constant is a square root of -1. */
  ghost predicate RootField(s: Scheme) {
    PrimeLike(s.c.p) && s.c.p % 8 == 5 && Cong(s.c.p, s.sqrtM1 * s.sqrtM1, -1)
  }

  /** A number whose square is 1 is 1 or -1. */
  lemma UnitRoots(p: int, t: int)
    requires PrimeLike(p) && Cong(p, t * t, 1)
    ensures Cong(p, t, 1) || Cong(p, t, -1)
  {
    var k := CongElim(p, t * t, 1);
    assert (t - 1) * (t + 1) == t * t - 1;
    CongIntro(p, (t - 1) * (t + 1), 0, k);
    if Cong(p, t - 1, 0) {
      var j := CongElim(p, t - 1, 0);
      CongIntro(p, t, 1, j);
    } else {
      var j := CongElim(p, t + 1, 0);
      CongIntro(p, t, -1, j);
    }
  }

  /** With xx = z^2 and z not 0, the exponent of `_xrecover` gives a root of xx up to a factor 1 or -1. */
  lemma CandidateSquare(p: int, xx: int, z: int, k: nat) returns (t: int)
    requires PrimeLike(p) && p == 8 * k + 5 && Cong(p, z * z, xx) && !Cong(p, z, 0)
    ensures Cong(p, t, 1) || Cong(p, t, -1)
    ensures Cong(p, ModPow(xx, k + 1, p) * ModPow(xx, k + 1, p), xx * t)
  {
    hide Cong;
    t := ModPow(xx, 2 * k + 1, p);
    var x := ModPow(xx, k + 1, p);
    PowAdd(xx, k + 1, k + 1, p);
    CongSym(p, ModPow(xx, 2 * k + 2, p), x * x);
    PowUnfold(xx, 2 * k + 2, p);
    CongTrans(p, x * x, ModPow(xx, 2 * k + 2, p), xx * t);
    FourthPower(p, xx, z, k);
    UnitRoots(p, t);
  }

  lemma Fermat(p: int, z: int)
    requires PrimeLike(p) && !Cong(p, z, 0)
    ensures ModPow(z, p - 1, p) == 1
  {
  }

  lemma FourthPower(p: int, xx: int, z: int, k: nat)
    requires p >= 2 && PrimeLike(p) && p == 8 * k + 5 && Cong(p, z * z, xx) && !Cong(p, z, 0)
    ensures Cong(p, ModPow(xx, 2 * k + 1, p) * ModPow(xx, 2 * k + 1, p), 1)
  {
    Fermat(p, z);
    hide Cong, ModPow, PrimeLike;
    var t := ModPow(xx, 2 * k + 1, p);
    PowAdd(xx, 2 * k + 1, 2 * k + 1, p);
    CongSym(p, ModPow(xx, 4 * k + 2, p), t * t);
    CongSym(p, z * z, xx);
    PowCong(xx, z * z, 4 * k + 2, p);
    PowOfSquare(z, 4 * k + 2, p);
    CongTrans(p, t * t, ModPow(xx, 4 * k + 2, p), ModPow(z * z, 4 * k + 2, p));
    CongTrans(p, t * t, ModPow(z * z, 4 * k + 2, p), ModPow(z, 8 * k + 4, p));
  }

  /** `_xrecover` finds a square root whenever there is one. */
  lemma RootIsRoot(s: Scheme, xx: int, z: int)
    requires RootField(s) && Cong(s.c.p, z * z, xx)
    ensures Cong(s.c.p, Root(s, xx) * Root(s, xx), xx)
  {
    hide ModPow;
    var p := s.c.p;
    var k := p / 8;
    assert p == 8 * k + 5 && (p + 3) / 8 == k + 1;
    var x := ModPow(xx, k + 1, p);
    if Cong(p, z, 0) {
      SquareOfZero(p, xx, z);
      PowOfZero(xx, k + 1, p);
      ZeroRoot(p, xx);
    } else {
      var t := CandidateSquare(p, xx, z, k);
      RootSign(s, xx, x, t);
    }
  }

  lemma SquareOfZero(p: int, xx: int, z: int)
    requires p >= 2 && Cong(p, z, 0) && Cong(p, z * z, xx)
    ensures Cong(p, xx, 0)
  {
    hide Cong;
    CongMul(p, z, 0, z, 0);
    CongSym(p, z * z, xx);
    CongTrans(p, xx, z * z, 0);
  }

  lemma ZeroRoot(p: int, xx: int)
    requires p >= 2 && Cong(p, xx, 0)
    ensures (0 * 0 - xx) % p == 0 && Cong(p, 0 * 0, xx)
  {
    CongSym(p, xx, 0);
  }

  /** Either the candidate or its product with the root of -1 is the root. */
  lemma RootSign(s: Scheme, xx: int, x: int, t: int)
    requires s.c.p >= 2 && Cong(s.c.p, s.sqrtM1 * s.sqrtM1, -1)
    requires Cong(s.c.p, t, 1) || Cong(s.c.p, t, -1)
    requires Cong(s.c.p, x * x, xx * t)
    ensures var r := if (x * x - xx) % s.c.p != 0 then (x * s.sqrtM1) % s.c.p else x; Cong(s.c.p, r * r, xx)
  {
    var p, i := s.c.p, s.sqrtM1;
    if (x * x - xx) % p != 0 {
      if Cong(p, t, 1) {
        TimesUnit(p, x * x, xx, t, 1);
      }
      assert Cong(p, t, -1);
      hide Cong;
      var r := (x * i) % p;
      TimesUnit(p, x * x, xx, t, -1);
      CongMul(p, x * x, xx * -1, i * i, -1);
      CongMod(p, x * i);
      CongMul(p, r, x * i, r, x * i);
      Interleave(x, i);
      Negate(xx);
      CongTrans(p, r * r, (x * x) * (i * i), xx);
    }
  }

  lemma TimesUnit(p: int, a: int, b: int, t: int, u: int)
    requires p >= 2 && Cong(p, a, b * t) && Cong(p, t, u)
    ensures Cong(p, a, b * u)
  {
    hide Cong;
    CongRefl(p, b);
    CongMul(p, b, b, t, u);
    CongTrans(p, a, b * t, b * u);
  }

  lemma Interleave(x: int, i: int)
    ensures (x * i) * (x * i) == (x * x) * (i * i)
  {
    Associate(x * i, x, i);
    Associate(x, i, x);
    Associate(x * x, i, i);
  }

  lemma Negate(a: int)
    ensures (a * -1) * -1 == a
  {
  }

  // ----- When a string decodes -----

  /** The denominator of x^2 for this y. */
  function CurveDenom(c: Curve, y: int): int { c.d * y * y + 1 }

  function EncodedY(bytes: seq<Byte>): nat { FromLittle(bytes) % TWO255 }

  /** x^2 as `_xrecover` computes it. */
  function Radicand(c: Curve, y: int): int
    requires c.p >= 2
  {
    (y * y - 1) * Inv(c, CurveDenom(c, y))
  }

  lemma CurveAsSquare(c: Curve, x: int, y: int)
    ensures CurvePoly(c, Point(x, y)) == (y * y - 1) - (x * x) * CurveDenom(c, y)
  {
    assert c.d * x * x * y * y == (x * x) * (c.d * y * y) by {
      Associate(c.d * x, x, y);
      Shuffle(c.d, x, y);
    }
    assert (x * x) * CurveDenom(c, y) == (x * x) * (c.d * y * y) + x * x;
  }

  lemma Shuffle(d: int, x: int, y: int)
    ensures d * x * x * y * y == (x * x) * (d * y * y)
  {
    assert d * x * x == (x * x) * d;
    Associate(x * x, d, y);
    Associate(x * x, d * y, y);
  }

  /** Where the denominator is invertible, a point is on the curve exactly when its x squared is the radicand. */
  lemma OnCurveIffSquare(c: Curve, x: int, y: int)
    requires c.p >= 2 && Invertible(c, CurveDenom(c, y))
    ensures OnCurve(c, Point(x, y)) <==> Cong(c.p, x * x, Radicand(c, y))
  {
    var p, u, i, n := c.p, CurveDenom(c, y), Inv(c, CurveDenom(c, y)), y * y - 1;
    CurveAsSquare(c, x, y);
    assert OnCurve(c, Point(x, y)) <==> Cong(p, n, (x * x) * u);
    hide Cong, CurveDenom, Inv, OnCurve;
    CongRefl(p, x * x);
    CongMul(p, x * x, x * x, u * i, 1);
    Associate(x * x, u, i);
    CongRefl(p, n);
    CongMul(p, n, n, u * i, 1);
    Regroup3(n, u, i);
    CongRefl(p, i);
    CongRefl(p, u);
    if Cong(p, n, (x * x) * u) {
      CongMul(p, n, (x * x) * u, i, i);
      CongTrans(p, n * i, (x * x) * u * i, x * x);
      CongSym(p, n * i, x * x);
    }
    if Cong(p, x * x, n * i) {
      CongMul(p, x * x, n * i, u, u);
      CongTrans(p, (x * x) * u, n * i * u, n);
      CongSym(p, (x * x) * u, n);
    }
  }

  lemma Regroup3(n: int, u: int, i: int)
    ensures n * (u * i) == n * i * u
  {
    Associate(n, i, u);
  }

  lemma MirrorSquare(p: int, x: int)
    requires p >= 2
    ensures Cong(p, (p - x) * (p - x), x * x)
  {
    Mirror(p, x);
    CongIntro(p, (p - x) * (p - x), x * x, p - 2 * x);
  }

  lemma Mirror(p: int, x: int)
    ensures (p - x) * (p - x) - x * x == p * (p - 2 * x)
  {
  }

  /** The x that `_decodepoint` picks is one of the two roots. */
  lemma PickedSquare(s: Scheme, y: int, top: Byte)
    requires s.c.p >= 2 && s.c.p % 2 == 1
    ensures var p, r := s.c.p, Root(s, Radicand(s.c, y));
      var x := WithSign(p, XRecover(s, y), top);
      Cong(p, x * x, r * r)
  {
    hide ModPow, Root;
    var p, r := s.c.p, Root(s, Radicand(s.c, y));
    assert XRecover(s, y) == EvenRoot(p, r);
    CongRefl(p, r * r);
    MirrorSquare(p, r);
    assert p - (p - r) == r;
    hide Cong;
  }

  /**
   * When `_decodepoint` succeeds: exactly when some point of the curve has the encoded y, in a field where the
   * denominator is invertible.
   */
  lemma DecodesIff(s: Scheme, bytes: seq<Byte>)
    requires s.c.p >= 2 && s.c.p % 2 == 1 && RootField(s) && |bytes| == 32 && Invertible(s.c, CurveDenom(s.c, EncodedY(bytes)))
    ensures DecodePoint(s, bytes).Some? <==> exists x :: OnCurve(s.c, Point(x, EncodedY(bytes)))
  {
    hide Root, ModPow, XRecover, PrimeLike, Invertible, FromLittle;
    var p, y := s.c.p, EncodedY(bytes);
    assert p >= 2 by { FieldBasics(s); }
    var picked := WithSign(p, XRecover(s, y), bytes[31]);
    assert DecodePoint(s, bytes).Some? <==> OnCurve(s.c, Point(picked, y));
    if x :| OnCurve(s.c, Point(x, y)) {
      OnCurveIffSquare(s.c, x, y);
      RootIsRoot(s, Radicand(s.c, y), x);
      PickedSquare(s, y, bytes[31]);
      var r := Root(s, Radicand(s.c, y));
      CongTrans(p, picked * picked, r * r, Radicand(s.c, y));
      OnCurveIffSquare(s.c, picked, y);
    }
  }

  lemma FieldBasics(s: Scheme)
    requires RootField(s)
    ensures PrimeLike(s.c.p) && s.c.p >= 2 && s.c.p % 2 == 1
  {
  }

  function Picked(s: Scheme, bytes: seq<Byte>): (pt: Point)
    requires s.c.p >= 2 && s.c.p % 2 == 1 && |bytes| == 32
    ensures 0 <= pt.x <= s.c.p && pt.x % 2 == bytes[31] / 128 && pt.y == EncodedY(bytes)
  {
    Point(WithSign(s.c.p, XRecover(s, EncodedY(bytes)), bytes[31]), EncodedY(bytes))
  }

  lemma DecodesToPicked(s: Scheme, bytes: seq<Byte>)
    requires s.c.p >= 2 && s.c.p % 2 == 1 && |bytes| == 32
    ensures DecodePoint(s, bytes) == if OnCurve(s.c, Picked(s, bytes)) then Some(Picked(s, bytes)) else None
  {
    hide XRecover, FromLittle, OnCurve;
  }

  // ----- Beside section 5.1.3 -----

  /** Section 5.1.3 of RFC 8032: y is below p, x is its root of the encoded parity, and no zero carries a sign. */
  predicate RfcDecodes(c: Curve, bytes: seq<Byte>, pt: Point)
    requires c.p >= 2 && |bytes| == 32
  {
    && pt.y == EncodedY(bytes) < c.p
    && 0 <= pt.x < c.p && pt.x % 2 == bytes[31] / 128
    && OnCurve(c, pt)
  }

  /** What the caller can check: y is below p, and not a zero root with the sign bit set. */
  predicate Canonical(s: Scheme, bytes: seq<Byte>)
    requires s.c.p >= 2 && s.c.p % 2 == 1 && |bytes| == 32
  {
    EncodedY(bytes) < s.c.p && !(XRecover(s, EncodedY(bytes)) == 0 && bytes[31] >= 128)
  }

  /** What `_decodepoint` accepts is what the RFC decodes it to exactly when the encoding is canonical. */
  lemma AcceptedIsRfcIff(s: Scheme, bytes: seq<Byte>)
    requires s.c.p >= 2 && s.c.p % 2 == 1 && |bytes| == 32
    ensures var decoded := DecodePoint(s, bytes);
      decoded.Some? ==> (RfcDecodes(s.c, bytes, decoded.value) <==> Canonical(s, bytes))
  {
    hide XRecover, EncodedY, DecodePoint, OnCurve;
    DecodesToPicked(s, bytes);
    var x := XRecover(s, EncodedY(bytes));
    assert Picked(s, bytes).x == if bytes[31] >= 128 then s.c.p - x else x;
  }

  /** Two roots of one square and one parity, the first below p and the second at most p, are the same. */
  lemma SameRoot(p: int, x: int, q: int)
    requires PrimeLike(p) && p % 2 == 1 && 0 <= x < p && 0 <= q <= p && x % 2 == q % 2 && Cong(p, q * q, x * x)
    ensures q == x
  {
    var k := CongElim(p, q * q, x * x);
    assert (q - x) * (q + x) == q * q - x * x;
    CongIntro(p, (q - x) * (q + x), 0, k);
    if Cong(p, q - x, 0) {
      SmallMultiple(p, q - x);
    } else {
      SmallMultiple(p, q + x);
    }
  }

  lemma SmallMultiple(p: int, a: int)
    requires p >= 2 && Cong(p, a, 0) && -p < a < 2 * p
    ensures a == 0 || a == p
  {
    var k := CongElim(p, a, 0);
    if k >= 2 {
      ScaleUp(p, k - 1);
    } else if k <= -1 {
      ScaleUp(p, -k);
    }
  }

  /** Everything the RFC decodes, `_decodepoint` decodes to the same point. */
  lemma RfcIsAccepted(s: Scheme, bytes: seq<Byte>, pt: Point)
    requires s.c.p >= 2 && s.c.p % 2 == 1 && RootField(s) && |bytes| == 32 && Invertible(s.c, CurveDenom(s.c, EncodedY(bytes)))
    requires RfcDecodes(s.c, bytes, pt)
    ensures DecodePoint(s, bytes) == Some(pt)
  {
    hide RootField, PrimeLike, Cong, OnCurve, Invertible, CurveDenom, Radicand, Picked, EncodedY, DecodePoint;
    FieldBasics(s);
    DecodesIff(s, bytes);
    DecodesToPicked(s, bytes);
    var p, y, q := s.c.p, EncodedY(bytes), Picked(s, bytes);
    assert pt == Point(pt.x, y) && q == Point(q.x, y);
    OnCurveIffSquare(s.c, pt.x, y);
    OnCurveIffSquare(s.c, q.x, y);
    CongSym(p, pt.x * pt.x, Radicand(s.c, y));
    CongTrans(p, q.x * q.x, Radicand(s.c, y), pt.x * pt.x);
    SameRoot(p, pt.x, q.x);
  }

  // ----- The two lenient families -----

  /** When y^2 - 1 vanishes, `_xrecover` gives 0. */
  lemma ZeroRecovered(s: Scheme, y: int)
    requires s.c.p >= 5 && s.c.p % 2 == 1 && Cong(s.c.p, y * y - 1, 0)
    ensures XRecover(s, y) == 0
  {
    var p, xx := s.c.p, Radicand(s.c, y);
    CongRefl(p, Inv(s.c, CurveDenom(s.c, y)));
    CongMul(p, y * y - 1, 0, Inv(s.c, CurveDenom(s.c, y)), Inv(s.c, CurveDenom(s.c, y)));
    PowOfZero(xx, (p + 3) / 8, p);
    ZeroRoot(p, xx);
  }

  /** A string of y = p + 1 without sign decodes to a point with that y; the RFC decodes it to nothing. */
  lemma LargeYAccepted(s: Scheme, bytes: seq<Byte>)
    requires s.c.p >= 5 && s.c.p % 2 == 1 && |bytes| == 32
    requires EncodedY(bytes) == s.c.p + 1 && bytes[31] < 128
    ensures DecodePoint(s, bytes) == Some(Point(0, s.c.p + 1))
    ensures forall pt :: !RfcDecodes(s.c, bytes, pt)
  {
    hide XRecover, EncodedY, DecodePoint, CurvePoly;
    var p := s.c.p;
    Successor(p);
    CongIntro(p, (p + 1) * (p + 1) - 1, 0, p + 2);
    ZeroRecovered(s, p + 1);
    DecodesToPicked(s, bytes);
    CurveAsSquare(s.c, 0, p + 1);
    CongIntro(p, CurvePoly(s.c, Point(0, p + 1)), 0, p + 2);
  }

  lemma Successor(p: int)
    ensures (p + 1) * (p + 1) - 1 == p * (p + 2)
  {
  }

  /** A string of y = 1 with the sign bit set decodes to the unreduced (p, 1), which is not what the RFC decodes. */
  lemma SignedZeroAccepted(s: Scheme, bytes: seq<Byte>)
    requires s.c.p >= 5 && s.c.p % 2 == 1 && |bytes| == 32
    requires EncodedY(bytes) == 1 && bytes[31] >= 128
    ensures DecodePoint(s, bytes) == Some(Point(s.c.p, 1))
    ensures !RfcDecodes(s.c, bytes, Point(s.c.p, 1))
  {
    hide XRecover, EncodedY, DecodePoint, CurvePoly;
    var p := s.c.p;
    CongIntro(p, 1 * 1 - 1, 0, 0);
    ZeroRecovered(s, 1);
    DecodesToPicked(s, bytes);
    CurveAsSquare(s.c, p, 1);
    Associate(p, p, CurveDenom(s.c, 1));
    CongIntro(p, CurvePoly(s.c, Point(p, 1)), 0, -(p * CurveDenom(s.c, 1)));
  }

  // ----- Strings of both families for the prime of the module -----

  lemma {:induction false} FromLittleFill(b: Byte, k: nat, top: Byte)
    requires b == 0 || b == 255
    ensures FromLittle(seq(k, _ => b) + [top]) == (if b == 0 then 0 else Pow256(k) - 1) + top * Pow256(k)
  {
    if k == 0 {
      assert seq(0, _ => b) + [top] == [top];
      assert FromLittle([top]) == top + 256 * FromLittle([]);
    } else {
      FromLittleFill(b, k - 1, top);
      var s := seq(k, _ => b) + [top];
      assert s[1..] == seq(k - 1, _ => b) + [top];
      FillStep(s, b, top, Pow256(k - 1));
    }
  }

  lemma FillStep(s: seq<Byte>, b: Byte, top: Byte, power: nat)
    requires s != [] && s[0] == b && (b == 0 || b == 255)
    requires FromLittle(s[1..]) == (if b == 0 then 0 else power - 1) + top * power
    ensures FromLittle(s) == (if b == 0 then 0 else 256 * power - 1) + top * (256 * power)
  {
    assert FromLittle(s) == b + 256 * FromLittle(s[1..]);
    assert top * (256 * power) == 256 * (top * power);
  }

  lemma {:induction false} PowerSum(a: nat, b: nat)
    ensures Pow256(a + b) == Pow256(a) * Pow256(b)
  {
    if a > 0 {
      PowerSum(a - 1, b);
      Associate(256, Pow256(a - 1), Pow256(b));
    }
  }

  lemma Pow31()
    ensures Pow256(31) * 128 == TWO255
  {
    Pow256Values();
    PowerSum(8, 8);
    PowerSum(16, 8);
    PowerSum(24, 4);
    PowerSum(28, 2);
    PowerSum(30, 1);
  }

  /** y = p + 1 with the sign bit clear. */
  const LARGE_Y: seq<Byte> := [0xEE] + (seq(30, _ => 255) + [0x7F])

  /** y = 1, whose only x is 0, with the sign bit set. */
  const SIGNED_ZERO: seq<Byte> := [1] + (seq(30, _ => 0) + [0x80])

  /** Such strings exist: these are of the two families. */
  lemma EncodedYs()
    ensures |LARGE_Y| == 32 && LARGE_Y[31] == 0x7F && EncodedY(LARGE_Y) == ED25519.c.p + 1
    ensures |SIGNED_ZERO| == 32 && SIGNED_ZERO[31] == 0x80 && EncodedY(SIGNED_ZERO) == 1
  {
    Pow31();
    FromLittleFill(255, 30, 0x7F);
    FromLittleFill(0, 30, 0x80);
    assert Pow256(31) == 256 * Pow256(30);
    assert LARGE_Y[1..] == seq(30, _ => 255) + [0x7F] && SIGNED_ZERO[1..] == seq(30, _ => 0) + [0x80];
    assert FromLittle(LARGE_Y) == TWO255 - 18;
    assert FromLittle(SIGNED_ZERO) == TWO255 + 1;
  }
}
