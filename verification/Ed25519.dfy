/** Double-and-add, point decoding and signature verification of tools/interop/verify_cose.py. */
module Ed25519 {
  import opened Bytes
  import opened Edwards

  // ----- Repeated addition -----

  /** The n-fold sum ((0,1) + a) + a + ... + a. */
  function NFold(c: Curve, a: Point, n: nat): Point
    requires c.p >= 2
  {
    if n == 0 then ZERO else Add(c, NFold(c, a, n - 1), a)
  }

  /** Named hypothesis (d is not a square): no two curve points make a denominator vanish. */
  ghost predicate Complete(c: Curve)
    requires c.p >= 2
  {
    forall a: Point, b: Point :: OnCurve(c, a) && OnCurve(c, b) ==> Defined(c, a, b)
  }

  /** Named hypothesis: the addition law is associative on curve points. */
  ghost predicate Associative(c: Curve)
    requires c.p >= 2
  {
    forall a: Point, b: Point, e: Point :: OnCurve(c, a) && OnCurve(c, b) && OnCurve(c, e)
      ==> Add(c, Add(c, a, b), e) == Add(c, a, Add(c, b, e))
  }

  ghost predicate GroupLaw(c: Curve)
    requires c.p >= 2
  {
    Complete(c) && Associative(c)
  }

  predicate Reduced(c: Curve, a: Point)
    requires c.p >= 2
  {
    Reduce(c, a) == a
  }

  lemma SumReduced(c: Curve, a: Point, b: Point)
    requires c.p >= 2
    ensures Reduced(c, Add(c, a, b))
  {
    hide ModPow, Denom;
    var sum := Add(c, a, b);
    assert 0 <= sum.x < c.p && 0 <= sum.y < c.p;
    hide Add;
    SmallMod(sum.x, c.p);
    SmallMod(sum.y, c.p);
  }

  lemma ZeroOnCurve(c: Curve)
    requires c.p >= 2
    ensures OnCurve(c, ZERO) && Reduced(c, ZERO)
  {
    CurvePolyForms(c, ZERO);
  }

  lemma {:induction false} NFoldOnCurve(c: Curve, a: Point, n: nat)
    requires c.p >= 2 && Complete(c) && OnCurve(c, a)
    ensures OnCurve(c, NFold(c, a, n)) && Reduced(c, NFold(c, a, n))
  {
    hide Add, OnCurve, Defined, Reduced;
    if n == 0 {
      ZeroOnCurve(c);
    } else {
      NFoldOnCurve(c, a, n - 1);
      AddOnCurve(c, NFold(c, a, n - 1), a);
      SumReduced(c, NFold(c, a, n - 1), a);
    }
  }

  lemma Assoc(c: Curve, a: Point, b: Point, e: Point)
    requires c.p >= 2 && GroupLaw(c) && OnCurve(c, a) && OnCurve(c, b) && OnCurve(c, e)
    ensures Add(c, Add(c, a, b), e) == Add(c, a, Add(c, b, e))
  {}

  /** Twice as many copies of a are as many copies of a + a. */
  lemma {:induction false} NFoldDouble(c: Curve, a: Point, k: nat)
    requires c.p >= 2 && GroupLaw(c) && OnCurve(c, a)
    ensures NFold(c, Add(c, a, a), k) == NFold(c, a, 2 * k)
  {
    hide Add, OnCurve, Defined, GroupLaw;
    if k > 0 {
      var q := NFold(c, a, 2 * k - 2);
      NFoldDouble(c, a, k - 1);
      assert NFold(c, a, 2 * k - 1) == Add(c, q, a);
      assert NFold(c, a, 2 * k) == Add(c, Add(c, q, a), a);
      LawIsComplete(c);
      NFoldOnCurve(c, a, 2 * k - 2);
      Assoc(c, q, a, a);
    }
  }

  lemma LawIsComplete(c: Curve)
    requires c.p >= 2 && GroupLaw(c)
    ensures Complete(c)
  {}

  /** The invariant of double-and-add: what is accumulated plus what is still to be added. */
  predicate Pending(c: Curve, q: Point, a: Point, e: nat, total: Point)
    requires c.p >= 2
  {
    && OnCurve(c, q) && Reduced(c, q) && OnCurve(c, a)
    && Add(c, q, NFold(c, a, e)) == total
  }

  lemma PendingStep(c: Curve, q: Point, a: Point, e: nat, total: Point)
    requires c.p >= 2 && GroupLaw(c) && e > 0 && Pending(c, q, a, e, total)
    ensures Pending(c, if e % 2 == 1 then Add(c, q, a) else q, Add(c, a, a), e / 2, total)
  {
    hide Add, OnCurve, Defined, GroupLaw, Reduced;
    var k := e / 2;
    LawIsComplete(c);
    AddDefined(c, a, a);
    AddOnCurve(c, a, a);
    NFoldDouble(c, a, k);
    if e % 2 == 1 {
      AddDefined(c, q, a);
      AddOnCurve(c, q, a);
      SumReduced(c, q, a);
      NFoldOnCurve(c, a, 2 * k);
      assert NFold(c, a, e) == Add(c, NFold(c, a, 2 * k), a);
      AddCommutes(c, NFold(c, a, 2 * k), a);
      Assoc(c, q, a, NFold(c, a, 2 * k));
    }
  }

  lemma AddDefined(c: Curve, a: Point, b: Point)
    requires c.p >= 2 && Complete(c) && OnCurve(c, a) && OnCurve(c, b)
    ensures Defined(c, a, b)
  {}

  /** `_scalarmult`: under the group law it is repeated addition, for every exponent. */
  method ScalarMult(c: Curve, point: Point, exponent: int) returns (q: Point)
    requires c.p >= 2
    ensures exponent <= 0 ==> q == ZERO
    ensures exponent >= 0 && GroupLaw(c) && OnCurve(c, point) ==> q == NFold(c, point, exponent)
  {
    hide Add, OnCurve, GroupLaw, Pending;
    q := ZERO;
    var pt, e := point, exponent;
    ghost var lawful := exponent >= 0 && GroupLaw(c) && OnCurve(c, point);
    if lawful {
      PendingStart(c, point, exponent);
    }
    while e > 0
      invariant exponent <= 0 ==> e == exponent && q == ZERO
      invariant lawful ==> e >= 0 && Pending(c, q, pt, e, NFold(c, point, exponent))
    {
      if lawful {
        PendingStep(c, q, pt, e, NFold(c, point, exponent));
      }
      if e % 2 == 1 {
        q := Add(c, q, pt);
      }
      pt := Add(c, pt, pt);
      e := e / 2;
    }
    if lawful {
      PendingEnd(c, q, pt, NFold(c, point, exponent));
    }
  }

  lemma PendingStart(c: Curve, a: Point, e: nat)
    requires c.p >= 2 && GroupLaw(c) && OnCurve(c, a)
    ensures Pending(c, ZERO, a, e, NFold(c, a, e))
  {
    hide Add, OnCurve, Reduced, Defined;
    ZeroOnCurve(c);
    NFoldOnCurve(c, a, e);
    AddIdentity(c, NFold(c, a, e));
    FixedByReduce(c, NFold(c, a, e));
  }

  lemma PendingEnd(c: Curve, q: Point, a: Point, total: Point)
    requires c.p >= 2 && Pending(c, q, a, 0, total)
    ensures q == total
  {
    hide Add, OnCurve, Reduced;
    AddIdentity(c, q);
    FixedByReduce(c, q);
  }

  lemma FixedByReduce(c: Curve, a: Point)
    requires c.p >= 2 && Reduced(c, a)
    ensures Reduce(c, a) == a
  {}

  // ----- Points and signatures -----

  /** The constants of the module: field and curve, a square root of -1, base point, group order. */
  datatype Scheme = Scheme(c: Curve, sqrtM1: int, base: Point, order: int)

  const TWO255 := 0x8000000000000000000000000000000000000000000000000000000000000000

  const ED25519 := Scheme(
    Curve(57896044618658097711785492504343953926634992332820282019728792003956564819949,
          37095705934669439343138083508754565189542113879843219016388785533085940283555),
    19681161376707505956807079304988542015446066515923890162744021073123829784752,
    Point(15112221349535400772501151409588531511454012693041857206046113283949847762202,
          46316835694926478169428394003475163141307993866256225615783033603165251855960),
    7237005577332262213973186563042994240857116359379907606001950938285454250989)

  /** The literal constants are the ones the module computes, and its base point is on the curve. */
  lemma ConstantsAreRight()
    ensures var s := ED25519; var p := s.c.p;
      && p == TWO255 - 19 && p % 8 == 5
      && (s.c.d * 121666 + 121665) % p == 0
      && (s.sqrtM1 * s.sqrtM1 + 1) % p == 0
      && (5 * s.base.y - 4) % p == 0 && s.base.x % 2 == 0
      && OnCurve(s.c, s.base)
      && 0 <= s.c.d < p && 0 <= s.sqrtM1 < p && 0 <= s.base.x < p && 0 <= s.base.y < p
      && 8 * s.order == TWO255 + 8 * 27742317777372353535851937790883648493
  {}

  /** `int.from_bytes(s, "little")`. */
  function FromLittle(s: seq<Byte>): nat {
    if s == [] then 0 else s[0] + 256 * FromLittle(s[1..])
  }

  /** `_xrecover`: the even one of the two candidate roots. */
  function XRecover(s: Scheme, y: int): (x: int)
    requires s.c.p >= 2 && s.c.p % 2 == 1
    ensures x % 2 == 0 && 0 <= x < s.c.p
  {
    EvenRoot(s.c.p, Root(s, (y * y - 1) * Inv(s.c, s.c.d * y * y + 1)))
  }

  function Root(s: Scheme, xx: int): (x: int)
    requires s.c.p >= 2
    ensures 0 <= x < s.c.p
  {
    var x := ModPow(xx, (s.c.p + 3) / 8, s.c.p);
    if (x * x - xx) % s.c.p != 0 then (x * s.sqrtM1) % s.c.p else x
  }

  function EvenRoot(p: int, x: int): (r: int)
    requires p % 2 == 1 && 0 <= x < p
    ensures r % 2 == 0 && 0 <= r < p && (r == x || r == p - x)
  {
    if x % 2 != 0 then p - x else x
  }

  function WithSign(p: int, x: int, top: Byte): (r: int)
    requires p % 2 == 1 && x % 2 == 0
    ensures r % 2 == top / 128 && (r == x || r == p - x)
  {
    if x % 2 != top / 128 then p - x else x
  }

  /** `_decodepoint`: the point is on the curve, has the encoded y, and the sign bit gives x's parity. */
  function DecodePoint(sch: Scheme, s: seq<Byte>): (r: Option<Point>)
    requires sch.c.p >= 2 && sch.c.p % 2 == 1 && |s| == 32
    ensures r.Some? ==> OnCurve(sch.c, r.value) && r.value.y == FromLittle(s) % TWO255
    ensures r.Some? ==> r.value.x % 2 == s[31] / 128
  {
    var y := FromLittle(s) % TWO255;
    var pt := Point(WithSign(sch.c.p, XRecover(sch, y), s[31]), y);
    if OnCurve(sch.c, pt) then Some(pt) else None
  }

  /**
   * The equation [S]B = R + [h]A of section 5.1.7 of RFC 8032, with repeated addition. R and A are what
   * `_decodepoint` makes of their bytes, which is more than section 5.1.3 admits: see PointDecoding.
   */
  predicate SignatureValid(sch: Scheme, publicKey: seq<Byte>, message: seq<Byte>, signature: seq<Byte>,
                           sha512: seq<Byte> -> nat)
    requires sch.c.p >= 2 && sch.c.p % 2 == 1 && sch.order > 0
  {
    && |signature| == 64 && |publicKey| == 32
    && var r, a := DecodePoint(sch, signature[..32]), DecodePoint(sch, publicKey);
       var s := FromLittle(signature[32..]);
       var h := sha512(signature[..32] + publicKey + message) % sch.order;
       r.Some? && a.Some? && s < sch.order
       && NFold(sch.c, sch.base, s) == Add(sch.c, r.value, NFold(sch.c, a.value, h))
  }

  /** `ed25519_verify`. */
  method Verify(sch: Scheme, publicKey: seq<Byte>, message: seq<Byte>, signature: seq<Byte>, sha512: seq<Byte> -> nat)
    returns (ok: bool)
    requires sch.c.p >= 2 && sch.c.p % 2 == 1 && sch.order > 0
    ensures GroupLaw(sch.c) && OnCurve(sch.c, sch.base)
            ==> ok == SignatureValid(sch, publicKey, message, signature, sha512)
  {
    hide GroupLaw, OnCurve, Add;
    if |signature| != 64 || |publicKey| != 32 {
      return false;
    }
    var bigR := DecodePoint(sch, signature[..32]);
    if bigR.None? {
      return false;
    }
    var bigA := DecodePoint(sch, publicKey);
    if bigA.None? {
      return false;
    }
    var s := FromLittle(signature[32..]);
    if s >= sch.order {
      return false;
    }
    var h := sha512(signature[..32] + publicKey + message) % sch.order;
    var left := ScalarMult(sch.c, sch.base, s);
    var right := ScalarMult(sch.c, bigA.value, h);
    ok := left == Add(sch.c, bigR.value, right);
  }
}
