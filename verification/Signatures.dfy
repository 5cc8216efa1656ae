/** What `ed25519_verify` accepts of a key owner's making (section 5.1.6 of RFC 8032; tools/interop/verify_cose.py). */
module Signatures {
  import opened Bytes
  import opened Edwards
  import opened Ed25519

  // ----- Multiples of a point -----

  lemma {:induction false} NFoldAdd(c: Curve, a: Point, m: nat, n: nat)
    requires c.p >= 2 && GroupLaw(c) && OnCurve(c, a)
    ensures NFold(c, a, m + n) == Add(c, NFold(c, a, m), NFold(c, a, n))
  {
    hide GroupLaw, OnCurve, Add, Complete, Associative;
    LawIsComplete(c);
    NFoldOnCurve(c, a, m);
    if n == 0 {
      AddIdentity(c, NFold(c, a, m));
      FixedByReduce(c, NFold(c, a, m));
    } else {
      NFoldAdd(c, a, m, n - 1);
      NFoldOnCurve(c, a, n - 1);
      Assoc(c, NFold(c, a, m), NFold(c, a, n - 1), a);
    }
  }

  lemma {:induction false} NFoldMul(c: Curve, a: Point, k: nat, h: nat)
    requires c.p >= 2 && GroupLaw(c) && OnCurve(c, a)
    ensures NFold(c, NFold(c, a, k), h) == NFold(c, a, k * h)
  {
    hide GroupLaw, OnCurve, Add;
    if h == 0 {
      assert k * h == 0;
    } else {
      NFoldMul(c, a, k, h - 1);
      assert k * (h - 1) + k == k * h;
      NFoldAdd(c, a, k * (h - 1), k);
    }
  }

  lemma {:induction false} NFoldZero(c: Curve, n: nat)
    requires c.p >= 2
    ensures NFold(c, ZERO, n) == ZERO
  {
    hide Add;
    if n > 0 {
      NFoldZero(c, n - 1);
      AddIdentity(c, ZERO);
      ZeroOnCurve(c);
      FixedByReduce(c, ZERO);
    }
  }

  /** Multiples of a point only matter modulo an order of it. */
  lemma NFoldModulo(c: Curve, a: Point, order: nat, n: nat)
    requires c.p >= 2 && GroupLaw(c) && OnCurve(c, a) && order > 0 && NFold(c, a, order) == ZERO
    ensures NFold(c, a, n) == NFold(c, a, n % order)
  {
    hide GroupLaw, OnCurve, Add, Complete, NFold;
    var q, r := n / order, n % order;
    assert n == order * q + r;
    NFoldAdd(c, a, order * q, r);
    NFoldMul(c, a, order, q);
    NFoldZero(c, q);
    AddIdentity(c, NFold(c, a, r));
    LawIsComplete(c);
    NFoldOnCurve(c, a, r);
    FixedByReduce(c, NFold(c, a, r));
  }

  /** Named hypothesis: the scheme's order is the order of its base point. */
  ghost predicate ExactOrder(s: Scheme)
    requires s.c.p >= 2
  {
    && s.order > 0 && OnCurve(s.c, s.base) && NFold(s.c, s.base, s.order) == ZERO
    && forall i: nat :: 0 < i < s.order ==> NFold(s.c, s.base, i) != ZERO
  }

  /** Two exponents below the order that give the same multiple are equal. */
  lemma NFoldInjective(s: Scheme, i: nat, j: nat)
    requires s.c.p >= 2 && GroupLaw(s.c) && ExactOrder(s)
    requires i <= j < s.order && NFold(s.c, s.base, i) == NFold(s.c, s.base, j)
    ensures i == j
  {
    var c, b, l := s.c, s.base, s.order;
    if i < j {
      var k := j - i;
      assert NFold(c, b, k) != ZERO && NFold(c, b, l) == ZERO && OnCurve(c, b);
      hide GroupLaw, OnCurve, Add, NFold, ExactOrder;
      Rounds(c, b, l, i, j, k);
    }
  }

  lemma Rounds(c: Curve, b: Point, l: nat, i: nat, j: nat, k: nat)
    requires c.p >= 2 && GroupLaw(c) && OnCurve(c, b) && NFold(c, b, l) == ZERO
    requires i < j < l && j == i + k && NFold(c, b, i) == NFold(c, b, j)
    ensures NFold(c, b, k) == ZERO
  {
    hide *;
    LawIsComplete(c);
    var m := l - i;
    NFoldAdd(c, b, m, i);
    NFoldAdd(c, b, m, j);
    NFoldAdd(c, b, l, k);
    assert m + j == l + k && m + i == l;
    AddIdentity(c, NFold(c, b, k));
    NFoldOnCurve(c, b, k);
    FixedByReduce(c, NFold(c, b, k));
  }

  // ----- Signatures of a key owner -----

  /**
   * With secret scalar a and nonce r, public key [a]B and first half [r]B: the signature verifies exactly when
   * its second half is r + h * a modulo the order, h being the hash of first half, public key and message.
   */
  lemma SignedIff(s: Scheme, secret: nat, nonce: nat, publicKey: seq<Byte>, message: seq<Byte>,
                  first: seq<Byte>, second: seq<Byte>, sha512: seq<Byte> -> nat)
    requires s.c.p >= 2 && s.c.p % 2 == 1 && s.order > 0 && GroupLaw(s.c) && ExactOrder(s)
    requires |publicKey| == |first| == |second| == 32
    requires DecodePoint(s, publicKey) == Some(NFold(s.c, s.base, secret))
    requires DecodePoint(s, first) == Some(NFold(s.c, s.base, nonce))
    ensures SignatureValid(s, publicKey, message, first + second, sha512) <==>
            FromLittle(second) == (nonce + secret * (sha512(first + publicKey + message) % s.order)) % s.order
  {
    hide GroupLaw, OnCurve, Add, NFold, DecodePoint, FromLittle;
    var c, b, l := s.c, s.base, s.order;
    var signature := first + second;
    assert signature[..32] == first && signature[32..] == second;
    var h := sha512(first + publicKey + message) % l;
    var expected := nonce + secret * h;
    assert NFold(c, b, l) == ZERO && OnCurve(c, b);
    hide ExactOrder;
    NFoldMul(c, b, secret, h);
    NFoldAdd(c, b, nonce, secret * h);
    NFoldModulo(c, b, l, expected);
    assert Add(c, NFold(c, b, nonce), NFold(c, NFold(c, b, secret), h)) == NFold(c, b, expected % l);
    var x := FromLittle(second);
    if x < l && NFold(c, b, x) == NFold(c, b, expected % l) {
      if x <= expected % l {
        NFoldInjective(s, x, expected % l);
      } else {
        NFoldInjective(s, expected % l, x);
      }
    }
  }

  /** Little-endian: what follows n bytes weighs 256 to the power n. */
  lemma {:induction false} FromLittleSplit(a: seq<Byte>, b: seq<Byte>)
    ensures FromLittle(a + b) == FromLittle(a) + Pow256(|a|) * FromLittle(b)
  {
    if a == [] {
      assert a + b == b;
    } else {
      FromLittleSplit(a[1..], b);
      assert (a + b)[1..] == a[1..] + b;
      Weigh(Pow256(|a| - 1), FromLittle(b), FromLittle(a[1..]));
    }
  }

  lemma Weigh(power: int, x: int, y: int)
    ensures 256 * (y + power * x) == 256 * y + (256 * power) * x
  {
  }
}
