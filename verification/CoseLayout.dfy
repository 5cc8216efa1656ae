/** The bytes of headers, envelopes, content types and external AADs, written out (tools/interop/verify_cose.py). */
module CoseLayout {
  import opened Bytes
  import opened Cbor
  import opened CborTheorems
  import opened Cose
  import Utf8
  import Decimal

  // ----- Heads -----

  /** The five widths of a head, byte by byte (section 3 of RFC 8949). */
  lemma HeadBytes(major: nat, n: nat)
    requires major < 8 && n < 0x1_0000_0000_0000_0000
    ensures n < 24 ==> EncHead(major, n) == [32 * major + n]
    ensures 24 <= n < 0x100 ==> EncHead(major, n) == [32 * major + 24, n]
    ensures 0x100 <= n < 0x1_0000 ==> EncHead(major, n) == [32 * major + 25, n / 0x100, n % 0x100]
    ensures 0x1_0000 <= n < 0x1_0000_0000 ==>
              EncHead(major, n) == [32 * major + 26, n / 0x100_0000, n / 0x1_0000 % 0x100, n / 0x100 % 0x100, n % 0x100]
    ensures 0x1_0000_0000 <= n ==>
              EncHead(major, n) == [32 * major + 27] + BigFour(n / 0x1_0000_0000) + BigFour(n % 0x1_0000_0000)
  {
    if 0x100 <= n < 0x1_0000 {
      TwoBig(n);
    } else if 0x1_0000 <= n < 0x1_0000_0000 {
      FourBig(n);
    } else if 0x1_0000_0000 <= n {
      EightBig(n);
    }
  }

  /** The four bytes of a 32-bit number, most significant first. */
  function BigFour(n: nat): (bs: seq<Byte>)
    requires n < 0x1_0000_0000
  {
    [n / 0x100_0000, n / 0x1_0000 % 0x100, n / 0x100 % 0x100, n % 0x100]
  }

  lemma BigStep(n: nat, k: nat)
    requires n < Pow256(k + 1)
    ensures n / 256 < Pow256(k) && ToBig(n, k + 1) == ToBig(n / 256, k) + [n % 256]
  {
  }

  lemma TwoBig(n: nat)
    requires n < 0x1_0000
    ensures n < Pow256(2) && ToBig(n, 2) == [n / 0x100, n % 0x100]
  {
    Pow256Values();
    BigStep(n, 1);
    BigStep(n / 256, 0);
  }

  lemma FourBig(n: nat)
    requires n < 0x1_0000_0000
    ensures n < Pow256(4) && ToBig(n, 4) == BigFour(n)
  {
    hide ToBig;
    Pow256Values();
    BigStep(n, 3);
    BigStep(n / 256, 2);
    TwoBig(n / 256 / 256);
    assert n / 256 / 256 == n / 0x1_0000 && n / 0x1_0000 / 0x100 == n / 0x100_0000;
  }

  lemma EightBig(n: nat)
    requires n < 0x1_0000_0000_0000_0000
    ensures n < Pow256(8) && ToBig(n, 8) == BigFour(n / 0x1_0000_0000) + BigFour(n % 0x1_0000_0000)
  {
    hide ToBig, BigFour;
    Pow256Values();
    BigStep(n, 7);
    BigStep(n / 256, 6);
    BigStep(n / 256 / 256, 5);
    BigStep(n / 256 / 256 / 256, 4);
    var hi, lo := n / 0x1_0000_0000, n % 0x1_0000_0000;
    assert n / 256 / 256 / 256 / 256 == hi;
    FourBig(hi);
    LowFour(n);
    assert ToBig(n, 8) == BigFour(hi) + [n / 0x100_0000 % 256] + [n / 0x1_0000 % 256] + [n / 0x100 % 256] + [n % 256];
    assert BigFour(hi) + [n / 0x100_0000 % 256] + [n / 0x1_0000 % 256] + [n / 0x100 % 256] + [n % 256]
        == BigFour(hi) + [n / 0x100_0000 % 256, n / 0x1_0000 % 256, n / 0x100 % 256, n % 256];
  }

  lemma LowFour(n: nat)
    ensures n / 256 / 256 == n / 0x1_0000 && n / 256 / 256 / 256 == n / 0x100_0000
    ensures BigFour(n % 0x1_0000_0000) == [n / 0x100_0000 % 256, n / 0x1_0000 % 256, n / 0x100 % 256, n % 256]
  {
    var q, lo := n / 0x1_0000_0000, n % 0x1_0000_0000;
    assert n == 0x100_0000 * (0x100 * q) + lo == 0x1_0000 * (0x1_0000 * q) + lo == 0x100 * (0x100_0000 * q) + lo;
    Shift(lo, 0x100_0000, 0x100 * q);
    Shift(lo, 0x1_0000, 0x1_0000 * q);
    Shift(lo, 0x100, 0x100_0000 * q);
    LowByte(lo / 0x1_0000, 0x100 * q);
    LowByte(lo / 0x100, 0x1_0000 * q);
    LowByte(lo / 0x100_0000, q);
    LowByte(lo, 0x100_0000 * q);
  }

  lemma Shift(lo: nat, step: nat, q: nat)
    requires step > 0
    ensures (step * q + lo) / step == q + lo / step
  {
    var r := lo % step;
    assert step * q + lo == step * (q + lo / step) + r by {
      assert step * (q + lo / step) == step * q + step * (lo / step);
    }
    Quotient(step * q + lo, step, q + lo / step, r);
  }

  lemma Quotient(n: nat, step: nat, q: nat, r: nat)
    requires step > 0 && r < step && n == step * q + r
    ensures n / step == q
  {
    var d: int := n / step - q;
    assert step * d == r - n % step by {
      assert step * d == step * (n / step) - step * q;
    }
    SmallMultiple(step, d);
  }

  lemma SmallMultiple(step: int, d: int)
    requires step > 0 && -step < step * d < step
    ensures d == 0
  {
    assert d >= 1 ==> step * d == step + step * (d - 1) >= step;
    assert d <= -1 ==> step * d == -step + step * (d + 1) <= -step;
  }

  lemma LowByte(lo: nat, q: nat)
    ensures (256 * q + lo) % 256 == lo % 256
  {
  }

  /** Examples of appendix A of RFC 8949. */
  lemma AppendixA()
    ensures Encode(Uint(10)) == [0x0A] && Encode(Uint(100)) == [0x18, 0x64]
    ensures Encode(Nint(-1)) == [0x20] && Encode(Nint(-100)) == [0x38, 0x63]
    ensures Encode(Bool(false)) == [0xF4] && Encode(Bool(true)) == [0xF5]
    ensures Encode(Bstr([1, 2, 3, 4])) == [0x44, 1, 2, 3, 4]
    ensures Encode(Tstr([0xC3, 0xBC])) == [0x62, 0xC3, 0xBC]
    ensures Encode(Array([])) == [0x80] && Encode(Map([])) == [0xA0]
  {
  }

  // ----- Derived strings -----

  /** The fixed words are the ASCII spellings the source writes. */
  lemma WordsSpelled()
    ensures SIGNATURE1 == Utf8.Ascii("Signature1") && APPLICATION == Utf8.Ascii("application/")
    ensures PLUS_CBOR == Utf8.Ascii("+cbor") && DOT_V == Utf8.Ascii(".v")
    ensures [DOT] == Utf8.Ascii(".") && [DASH] == Utf8.Ascii("-") && [Decimal.MINUS] == Utf8.Ascii("-")
  {
  }

  /** The AAD of `kind` and major m: the kind, ".v", a minus sign if m is negative, and the digits of |m|. */
  lemma AadLayout(kind: seq<Byte>, m: int) returns (digits: seq<Byte>)
    ensures ExternalAadFor(kind, m) == kind + [46, 118] + (if m < 0 then [45] else []) + digits
    ensures Decimal.AllDigits(digits) && Decimal.Parse(digits) == (if m < 0 then -m else m)
    ensures digits != [] && (|digits| > 1 ==> digits[0] != 48)
  {
    digits := Decimal.Digits(if m < 0 then -m else m);
    Decimal.ParseDigits(if m < 0 then -m else m);
    assert ExternalAadFor(kind, m) == kind + [46, 118] + ((if m < 0 then [45] else []) + digits);
  }

  /** Python's digit string of a number below ten is one ASCII digit: major 1 is signed as ".v1". */
  lemma SmallMajors(kind: seq<Byte>, m: nat)
    requires m < 10
    ensures ExternalAadFor(kind, m) == kind + [46, 118, 48 + m]
  {
  }

  /** The content type of `kind`: "application/", the kind with each dot made a dash, "+cbor". */
  lemma ContentTypeLayout(kind: seq<Byte>) returns (dashed: seq<Byte>)
    ensures ContentTypeFor(kind) == Utf8.Ascii("application/") + dashed + Utf8.Ascii("+cbor")
    ensures |dashed| == |kind|
    ensures forall i :: 0 <= i < |kind| ==> dashed[i] == (if kind[i] == 46 then 45 else kind[i])
  {
    WordsSpelled();
    dashed := DotsToDashes(kind);
  }

  /** The tampered message has the same bytes but for the last, which is the neighbour it pairs with. */
  lemma FlipLastBitLayout(s: seq<Byte>)
    requires s != []
    ensures var t := FlipLastBit(s); var n := |s| - 1;
      && |t| == |s| && t[..n] == s[..n] && t[n] / 2 == s[n] / 2 && t[n] % 2 != s[n] % 2
      && FlipLastBit(t) == s
  {
    var t, n := FlipLastBit(s), |s| - 1;
    assert t[..n] == s[..n];
    assert FlipLastBit(t)[n] == s[n];
    assert FlipLastBit(t) == s;
  }

  // ----- Header and envelope -----

  lemma EncodeStrings(s: seq<Byte>)
    requires |s| < TWO64
    ensures Encode(Tstr(s)) == EncHead(3, |s|) + s && Encode(Bstr(s)) == EncHead(2, |s|) + s
  {
  }

  /** The protected header: a map of three, alg 1 is EdDSA (-8), content type under 3, kid under 4. */
  lemma HeaderLayout(kind: seq<Byte>, kid: seq<Byte>)
    requires |ContentTypeFor(kind)| < TWO64 && |kid| < TWO64
    ensures Encodable(HeaderValue(kind, kid))
    ensures var ct := ContentTypeFor(kind);
            Encode(HeaderValue(kind, kid)) ==
            [0xA3, 0x01, 0x27, 0x03] + (EncHead(3, |ct|) + ct) + [0x04] + (EncHead(2, |kid|) + kid)
  {
    hide EncHead, ContentTypeFor, EncodePairs, Encode, Encodable, EncodablePairs;
    var ct := ContentTypeFor(kind);
    FixedBytes();
    EncodeStrings(ct);
    EncodeStrings(kid);
    var alg, typ, who := Pair(Uint(1), Nint(-8)), Pair(Uint(3), Tstr(ct)), Pair(Uint(4), Bstr(kid));
    Leaves(ct, kid);
    EncodeThree(alg, typ, who);
    MapEncodes([alg, typ, who]);
    var text, bytes := EncHead(3, |ct|) + ct, EncHead(2, |kid|) + kid;
    HeaderBytes(text, bytes);
  }

  lemma HeaderBytes(text: seq<Byte>, bytes: seq<Byte>)
    ensures [0xA3] + ([0x01] + [0x27] + ([0x03] + text) + ([0x04] + bytes)) == [0xA3, 0x01, 0x27, 0x03] + text + [0x04] + bytes
  {
  }

  lemma Leaves(ct: seq<Byte>, kid: seq<Byte>)
    requires |ct| < TWO64 && |kid| < TWO64
    ensures Encodable(Uint(1)) && Encodable(Nint(-8)) && Encodable(Uint(3)) && Encodable(Uint(4))
    ensures Encodable(Tstr(ct)) && Encodable(Bstr(kid))
  {
  }

  lemma FixedBytes()
    ensures Encode(Uint(1)) == [0x01] && Encode(Uint(3)) == [0x03] && Encode(Uint(4)) == [0x04]
    ensures Encode(Nint(-8)) == [0x27] && Encode(Map([])) == [0xA0]
    ensures EncHead(5, 3) == [0xA3] && EncHead(4, 4) == [0x84]
  {
  }

  lemma MapEncodes(ps: seq<Pair>)
    requires |ps| < TWO64 && EncodablePairs(ps)
    ensures Encodable(Map(ps)) && Encode(Map(ps)) == EncHead(5, |ps|) + EncodePairs(ps)
  {
  }

  lemma EncodeThree(a: Pair, b: Pair, c: Pair)
    requires EncodablePair(a) && EncodablePair(b) && EncodablePair(c)
    ensures EncodablePairs([a, b, c])
    ensures EncodePairs([a, b, c]) == EncodePair(a) + EncodePair(b) + EncodePair(c)
  {
    hide Encode, Encodable, EncodePair, EncodablePair;
    assert [a, b, c][1..] == [b, c] && [b, c][1..] == [c] && [c][1..] == [];
    assert EncodablePairs([]) && EncodePairs([]) == [];
    assert EncodablePairs([c]) && EncodePairs([c]) == EncodePair(c);
    assert EncodablePairs([b, c]) && EncodePairs([b, c]) == EncodePair(b) + EncodePairs([c]);
    assert EncodePairs([a, b, c]) == EncodePair(a) + EncodePairs([b, c]);
  }

  /** The envelope: an array of four, the header, the empty map, payload and signature as byte strings. */
  lemma EnvelopeLayout(protected: seq<Byte>, payload: seq<Byte>, signature: seq<Byte>)
    requires |protected| < TWO64 && |payload| < TWO64 && |signature| == 64
    ensures Encodable(EnvelopeValue(protected, payload, signature))
    ensures Encode(EnvelopeValue(protected, payload, signature)) ==
            [0x84] + (EncHead(2, |protected|) + protected) + [0xA0] + (EncHead(2, |payload|) + payload)
            + ([0x58, 0x40] + signature)
  {
    hide EncHead, EncodeAll, Encode, Encodable, EncodableAll;
    FixedBytes();
    EncodeStrings(protected);
    EncodeStrings(payload);
    EncodeStrings(signature);
    var a, b, c, d := Bstr(protected), Map([]), Bstr(payload), Bstr(signature);
    EnvelopeLeaves(protected, payload, signature);
    EncodeFour(a, b, c, d);
    ArrayEncodes([a, b, c, d]);
    assert EncHead(2, 64) == [0x58, 0x40] by {
      HeadBytes(2, 64);
    }
    EnvelopeBytes(EncHead(2, |protected|) + protected, EncHead(2, |payload|) + payload, [0x58, 0x40] + signature);
  }

  lemma EnvelopeLeaves(protected: seq<Byte>, payload: seq<Byte>, signature: seq<Byte>)
    requires |protected| < TWO64 && |payload| < TWO64 && |signature| < TWO64
    ensures Encodable(Bstr(protected)) && Encodable(Map([])) && Encodable(Bstr(payload)) && Encodable(Bstr(signature))
  {
  }

  lemma ArrayEncodes(vs: seq<Value>)
    requires |vs| < TWO64 && EncodableAll(vs)
    ensures Encodable(Array(vs)) && Encode(Array(vs)) == EncHead(4, |vs|) + EncodeAll(vs)
  {
  }

  lemma EnvelopeBytes(a: seq<Byte>, c: seq<Byte>, d: seq<Byte>)
    ensures [0x84] + (a + [0xA0] + c + d) == [0x84] + a + [0xA0] + c + d
  {
  }
}
