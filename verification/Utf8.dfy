/** The text strings of the CBOR codec are the encodings of scalar values (RFC 3629; tools/interop/verify_cose.py). */
module Utf8 {
  import opened Bytes
  import opened Cbor

  /** A Unicode scalar value: a code point that is not a surrogate. */
  predicate Scalar(c: int) {
    0 <= c <= 0x10FFFF && !(0xD800 <= c <= 0xDFFF)
  }

  predicate Scalars(cs: seq<int>) {
    forall i :: 0 <= i < |cs| ==> Scalar(cs[i])
  }

  /** The four ranges of the table in section 3 of RFC 3629. */
  function EncodeScalar(c: int): (bs: seq<Byte>)
    requires Scalar(c)
    ensures 1 <= |bs| <= 4
  {
    if c <= 0x7F then [c]
    else if c <= 0x7FF then [0xC0 + c / 64, 0x80 + c % 64]
    else if c <= 0xFFFF then [0xE0 + c / 4096, 0x80 + c / 64 % 64, 0x80 + c % 64]
    else [0xF0 + c / 262144, 0x80 + c / 4096 % 64, 0x80 + c / 64 % 64, 0x80 + c % 64]
  }

  function EncodeText(cs: seq<int>): seq<Byte>
    requires Scalars(cs)
  {
    if cs == [] then [] else EncodeScalar(cs[0]) + EncodeText(cs[1..])
  }

  /** The length the first byte announces. */
  function Width(first: Byte): nat {
    if first < 0x80 then 1 else if first < 0xE0 then 2 else if first < 0xF0 then 3 else 4
  }

  /** The scalar value that the first Width bytes stand for. */
  function FirstScalar(s: seq<Byte>): int
    requires s != [] && Width(s[0]) <= |s|
  {
    if s[0] < 0x80 then s[0]
    else if s[0] < 0xE0 then Two(s[0], s[1])
    else if s[0] < 0xF0 then Three(s[0], s[1], s[2])
    else Four(s[0], s[1], s[2], s[3])
  }

  function Two(a: int, b: int): int { (a - 0xC0) * 64 + (b - 0x80) }

  function Three(a: int, b: int, c: int): int { (a - 0xE0) * 4096 + (b - 0x80) * 64 + (c - 0x80) }

  function Four(a: int, b: int, c: int, d: int): int {
    (a - 0xF0) * 262144 + (b - 0x80) * 4096 + (c - 0x80) * 64 + (d - 0x80)
  }

  lemma OneByte(a: Byte)
    requires a < 0x80
    ensures Scalar(a) && EncodeScalar(a) == [a]
  {
  }

  lemma TwoBytes(a: Byte, b: Byte)
    requires 0xC2 <= a <= 0xDF && 0x80 <= b <= 0xBF
    ensures Scalar(Two(a, b)) && EncodeScalar(Two(a, b)) == [a, b]
  {
    var n := Two(a, b);
    assert n / 64 == a - 0xC0 && n % 64 == b - 0x80;
  }

  lemma ThreeBytes(a: Byte, b: Byte, c: Byte)
    requires 0xE0 <= a <= 0xEF && 0x80 <= b <= 0xBF && 0x80 <= c <= 0xBF
    requires (a == 0xE0 ==> b >= 0xA0) && (a == 0xED ==> b <= 0x9F)
    ensures Scalar(Three(a, b, c)) && EncodeScalar(Three(a, b, c)) == [a, b, c]
  {
    var n := Three(a, b, c);
    assert n / 64 == (a - 0xE0) * 64 + (b - 0x80) && n % 64 == c - 0x80;
    assert n / 4096 == a - 0xE0;
  }

  lemma FourBytes(a: Byte, b: Byte, c: Byte, d: Byte)
    requires 0xF0 <= a <= 0xF4 && 0x80 <= b <= 0xBF && 0x80 <= c <= 0xBF && 0x80 <= d <= 0xBF
    requires (a == 0xF0 ==> b >= 0x90) && (a == 0xF4 ==> b <= 0x8F)
    ensures Scalar(Four(a, b, c, d)) && EncodeScalar(Four(a, b, c, d)) == [a, b, c, d]
  {
    var n := Four(a, b, c, d);
    assert n / 64 == (a - 0xF0) * 4096 + (b - 0x80) * 64 + (c - 0x80) && n % 64 == d - 0x80;
    assert n / 4096 == (a - 0xF0) * 64 + (b - 0x80);
    assert n / 262144 == a - 0xF0;
  }

  /** A scalar value is read back from its encoding, whatever follows, and what follows decides the rest. */
  lemma ScalarReadBack(c: int, rest: seq<Byte>)
    requires Scalar(c)
    ensures var s := EncodeScalar(c) + rest;
      && Width(s[0]) == |EncodeScalar(c)| && FirstScalar(s) == c && s[Width(s[0])..] == rest
      && (ValidUtf8(s) <==> ValidUtf8(rest))
  {
    var s := EncodeScalar(c) + rest;
    Digits64(c);
    assert s[|EncodeScalar(c)|..] == rest;
  }

  lemma Digits64(c: int)
    requires 0 <= c <= 0x10FFFF
    ensures c == c / 64 * 64 + c % 64
    ensures c / 64 == c / 4096 * 64 + c / 64 % 64
    ensures c / 4096 == c / 262144 * 64 + c / 4096 % 64
    ensures 0 <= c % 64 < 64 && 0 <= c / 64 % 64 < 64 && 0 <= c / 4096 % 64 < 64
  {
  }

  /** Valid text starts with the encoding of a scalar value, and goes on validly. */
  lemma ValidStart(s: seq<Byte>)
    requires s != [] && ValidUtf8(s)
    ensures Width(s[0]) <= |s| && Scalar(FirstScalar(s))
    ensures EncodeScalar(FirstScalar(s)) == s[..Width(s[0])] && ValidUtf8(s[Width(s[0])..])
  {
    StartIsLong(s);
    hide ValidUtf8, EncodeScalar, FirstScalar, Scalar, Two, Three, Four;
    if s[0] < 0xE0 {
      ShortStart(s);
    } else if s[0] < 0xF0 {
      ThreeBytes(s[0], s[1], s[2]);
      FirstThree(s);
    } else {
      FourBytes(s[0], s[1], s[2], s[3]);
      FirstFour(s);
    }
  }

  lemma ShortStart(s: seq<Byte>)
    requires s != [] && (s[0] < 0x80 || (0xC2 <= s[0] <= 0xDF && |s| > 1 && 0x80 <= s[1] <= 0xBF))
    ensures Scalar(FirstScalar(s)) && EncodeScalar(FirstScalar(s)) == s[..Width(s[0])]
  {
    hide EncodeScalar, Scalar, Two, Three, Four;
    if s[0] < 0x80 {
      OneByte(s[0]);
      assert s[..1] == [s[0]];
    } else {
      TwoBytes(s[0], s[1]);
      assert s[..2] == [s[0], s[1]];
    }
  }

  lemma FirstThree(s: seq<Byte>)
    requires |s| >= 3 && 0xE0 <= s[0] < 0xF0
    ensures FirstScalar(s) == Three(s[0], s[1], s[2]) && s[..Width(s[0])] == [s[0], s[1], s[2]]
  {
  }

  lemma FirstFour(s: seq<Byte>)
    requires |s| >= 4 && 0xF0 <= s[0]
    ensures FirstScalar(s) == Four(s[0], s[1], s[2], s[3]) && s[..Width(s[0])] == [s[0], s[1], s[2], s[3]]
  {
  }

  lemma StartIsLong(s: seq<Byte>)
    requires s != [] && ValidUtf8(s)
    ensures Width(s[0]) <= |s| && ValidUtf8(s[Width(s[0])..])
    ensures s[0] < 0x80 || 0xC2 <= s[0] <= 0xF4
    ensures forall k :: 0 < k < Width(s[0]) ==> 0x80 <= s[k] <= 0xBF
    ensures (s[0] == 0xE0 ==> s[1] >= 0xA0) && (s[0] == 0xED ==> s[1] <= 0x9F)
    ensures (s[0] == 0xF0 ==> s[1] >= 0x90) && (s[0] == 0xF4 ==> s[1] <= 0x8F)
  {
  }

  lemma {:induction false} TextIsValid(cs: seq<int>)
    requires Scalars(cs)
    ensures ValidUtf8(EncodeText(cs))
  {
    hide ValidUtf8, EncodeScalar;
    EmptyIsValid();
    if cs != [] {
      assert Scalar(cs[0]);
      TextIsValid(cs[1..]);
      ScalarReadBack(cs[0], EncodeText(cs[1..]));
    }
  }

  lemma EmptyIsValid()
    ensures ValidUtf8([])
  {
  }

  lemma {:induction false} ValidIsText(s: seq<Byte>) returns (cs: seq<int>)
    requires ValidUtf8(s)
    ensures Scalars(cs) && EncodeText(cs) == s
  {
    hide ValidUtf8, EncodeScalar, FirstScalar;
    if s == [] {
      cs := [];
    } else {
      ValidStart(s);
      var n := Width(s[0]);
      var rest := ValidIsText(s[n..]);
      cs := [FirstScalar(s)] + rest;
      assert cs[1..] == rest;
      assert s == s[..n] + s[n..];
    }
  }

  /** The validity test accepts exactly the byte strings that encode some sequence of scalar values. */
  lemma ValidIffText(s: seq<Byte>)
    ensures ValidUtf8(s) <==> exists cs :: Scalars(cs) && EncodeText(cs) == s
  {
    hide ValidUtf8, EncodeText;
    if ValidUtf8(s) {
      var cs := ValidIsText(s);
    }
    if cs :| Scalars(cs) && EncodeText(cs) == s {
      TextIsValid(cs);
    }
  }

  lemma NotEmpty(cs: seq<int>)
    requires Scalars(cs)
    ensures EncodeText(cs) == [] <==> cs == []
  {
  }

  /** And such a sequence is determined: text survives encoding and decoding. */
  lemma {:induction false} TextInjective(a: seq<int>, b: seq<int>)
    requires Scalars(a) && Scalars(b) && EncodeText(a) == EncodeText(b)
    ensures a == b
    decreases |a| + |b|
  {
    hide ValidUtf8, EncodeScalar, FirstScalar, Width;
    if a == [] || b == [] {
      NotEmpty(a);
      NotEmpty(b);
    } else {
      ScalarReadBack(a[0], EncodeText(a[1..]));
      ScalarReadBack(b[0], EncodeText(b[1..]));
      TextInjective(a[1..], b[1..]);
      assert a == [a[0]] + a[1..] && b == [b[0]] + b[1..];
    }
  }

  // ----- Words in ASCII -----

  /** The bytes of a string of ASCII characters, which is what encoding it as text gives. */
  function Ascii(s: string): (bs: seq<Byte>)
    requires forall i :: 0 <= i < |s| ==> s[i] as int < 0x80
    ensures |bs| == |s|
  {
    seq(|s|, i requires 0 <= i < |s| => s[i] as int)
  }
}
