/** Canonicity, round trip and prefix-freeness of the CBOR codec. */
module CborTheorems {
  import opened Bytes
  import opened Cbor

  // ----- Heads -----

  lemma HeadCanonical(buf: seq<Byte>, i: nat)
    requires i < |buf| && buf[i] / 32 < 7
    requires var r := DecodeArg(buf, i + 1, buf[i] % 32); r.Ok? && r.value.next <= |buf|
    ensures var a := DecodeArg(buf, i + 1, buf[i] % 32).value;
            i < a.next && EncHead(buf[i] / 32, a.val) == buf[i..a.next]
  {
    Pow256Values();
    var minor := buf[i] % 32;
    var a := DecodeArg(buf, i + 1, minor).value;
    assert buf[i] == 32 * (buf[i] / 32) + minor;
    assert buf[i..a.next] == [buf[i]] + buf[i + 1..a.next];
    if 25 <= minor {
      BigUnique(buf[i + 1..a.next]);
    }
  }

  lemma HeadRoundTrip(buf: seq<Byte>, i: nat, major: nat, val: nat)
    requires major < 7 && val < TWO64
    requires i + |EncHead(major, val)| <= |buf| && buf[i..i + |EncHead(major, val)|] == EncHead(major, val)
    ensures i < |buf| && buf[i] / 32 == major
    ensures DecodeArg(buf, i + 1, buf[i] % 32) == Ok(Arg(val, i + |EncHead(major, val)|))
  {
    Pow256Values();
    var h := EncHead(major, val);
    assert buf[i] == h[0];
    if 24 <= val < 0x100 {
      assert buf[i + 1] == h[1];
    } else if 0x100 <= val < 0x1_0000 {
      WideRoundTrip(buf, i, h, 2, 0x100, val);
    } else if 0x1_0000 <= val < 0x1_0000_0000 {
      WideRoundTrip(buf, i, h, 4, 0x1_0000, val);
    } else if 0x1_0000_0000 <= val {
      WideRoundTrip(buf, i, h, 8, 0x1_0000_0000, val);
    }
  }

  lemma WideRoundTrip(buf: seq<Byte>, i: nat, h: seq<Byte>, width: nat, least: nat, val: nat)
    requires width in {2, 4, 8} && least <= val < Pow256(width)
    requires |h| == 1 + width && h[1..] == ToBig(val, width)
    requires i + |h| <= |buf| && buf[i..i + |h|] == h
    ensures DecodeWide(buf, i + 1, width, least) == Ok(Arg(val, i + |h|))
  {
    hide ToBig, FromBig, Pow256;
    assert buf[i + 1..i + |h|] == h[1..] by { assert buf[i..i + |h|][1..] == buf[i + 1..i + |h|]; }
    BigRoundTrip(val, width);
  }

  /** No head form that can hold the argument is shorter than the one the encoder picks. */
  lemma HeadIsShortest(major: nat, val: nat, width: nat)
    requires major < 7 && val < TWO64 && width in {1, 2, 4, 8} && val < Pow256(width)
    ensures EncHead(major, val)[0] / 32 == major
    ensures |EncHead(major, val)| <= 1 + width
    ensures |EncHead(major, val)| == 1 <==> val < 24
  {
    Pow256Values();
  }

  // ----- Canonicity -----

  /**
   * An end index inside the buffer means that no slice anywhere in the recursion was clamped:
   * the bytes consumed are exactly the encoding of the value returned, which is well formed.
   */
  lemma {:induction false} DecodeCanonical(buf: seq<Byte>, i: nat)
    requires Decode(buf, i).Ok? && Decode(buf, i).value.next <= |buf|
    ensures var d := Decode(buf, i).value;
            WellFormed(d.value) && Encode(d.value) == buf[i..d.next]
    decreases Remaining(buf, i), 0, 0
  {
    hide EncHead, DecodeArg, DecodeBody, LexLeq;
    var d := Decode(buf, i).value;
    if buf[i] / 32 == 7 {
      assert buf[i..i + 1] == [buf[i]];
    } else {
      var a := DecodeArg(buf, i + 1, buf[i] % 32).value;
      BodyCanonical(buf, i, a);
    }
  }

  lemma {:induction false} BodyCanonical(buf: seq<Byte>, i: nat, a: Arg)
    requires i < |buf| && buf[i] / 32 < 7 && DecodeArg(buf, i + 1, buf[i] % 32) == Ok(a)
    requires var r := DecodeBody(buf, i, buf[i] / 32, a.val, a.next); r.Ok? && r.value.next <= |buf|
    ensures var d := DecodeBody(buf, i, buf[i] / 32, a.val, a.next).value;
            WellFormed(d.value) && i <= d.next && Encode(d.value) == buf[i..d.next]
    decreases Remaining(buf, a.next), 2, 0
  {
    hide EncHead, DecodeArg, LexLeq, Decode, FromBig, ToBig;
    var d := DecodeBody(buf, i, buf[i] / 32, a.val, a.next).value;
    HeadCanonical(buf, i);
    assert buf[i..d.next] == buf[i..a.next] + buf[a.next..d.next];
    if buf[i] / 32 == 4 {
      ItemsCanonical(buf, a.next, a.val);
    } else if buf[i] / 32 == 5 {
      PairsCanonical(buf, a.next, a.val, None);
    }
  }

  lemma {:induction false} ItemsCanonical(buf: seq<Byte>, i: nat, count: nat)
    requires i <= |buf|
    requires DecodeItems(buf, i, count).Ok? && DecodeItems(buf, i, count).value.next <= |buf|
    ensures var d := DecodeItems(buf, i, count).value;
            WellFormedAll(d.value) && EncodeAll(d.value) == buf[i..d.next]
    decreases Remaining(buf, i), 1, count
  {
    hide EncHead, DecodeArg, DecodeBody, Decode, Encode, Encodable, WellFormed, LexLeq;
    if count > 0 {
      var j := Decode(buf, i).value.next;
      var end := DecodeItems(buf, i, count).value.next;
      ItemsMonotone(buf, j, count - 1);
      DecodeCanonical(buf, i);
      ItemsCanonical(buf, j, count - 1);
      assert buf[i..end] == buf[i..j] + buf[j..end];
    }
  }

  lemma ItemsMonotone(buf: seq<Byte>, i: nat, count: nat)
    requires DecodeItems(buf, i, count).Ok?
    ensures i <= DecodeItems(buf, i, count).value.next
  {}

  lemma {:induction false} PairsCanonical(buf: seq<Byte>, i: nat, count: nat, prev: Option<seq<Byte>>)
    requires i <= |buf|
    requires DecodePairs(buf, i, count, prev).Ok? && DecodePairs(buf, i, count, prev).value.next <= |buf|
    ensures var d := DecodePairs(buf, i, count, prev).value;
            WellFormedPairs(d.value, prev) && EncodePairs(d.value) == buf[i..d.next]
    decreases Remaining(buf, i), 1, count
  {
    hide EncHead, DecodeArg, DecodeBody, Decode, Encode, Encodable, WellFormed, LexLeq, EncodePair;
    if count > 0 {
      var key, j, value, k, rest, end := PairsUnfold(buf, i, count, prev);
      DecodeCanonical(buf, i);
      DecodeCanonical(buf, j);
      PairsCanonical(buf, k, count - 1, Some(Encode(key)));
      JoinPairs(buf, i, j, k, end, Pair(key, value), rest, prev);
    }
  }

  lemma PairsUnfold(buf: seq<Byte>, i: nat, count: nat, prev: Option<seq<Byte>>)
    returns (key: Value, j: nat, value: Value, k: nat, rest: seq<Pair>, end: nat)
    requires count > 0 && DecodePairs(buf, i, count, prev).Ok?
    ensures Decode(buf, i) == Ok(Decoded(key, j)) && Decode(buf, j) == Ok(Decoded(value, k))
    ensures Encodable(key) && (prev.Some? ==> !LexLeq(Encode(key), prev.value))
    ensures DecodePairs(buf, k, count - 1, Some(Encode(key))) == Ok(Decoded(rest, end))
    ensures DecodePairs(buf, i, count, prev).value == Decoded([Pair(key, value)] + rest, end)
    ensures i < j < k <= end
  {
    hide EncHead, DecodeArg, DecodeBody, Decode, Encode, Encodable, WellFormed, LexLeq;
    key, j := Decode(buf, i).value.value, Decode(buf, i).value.next;
    value, k := Decode(buf, j).value.value, Decode(buf, j).value.next;
    var d := DecodePairs(buf, k, count - 1, Some(Encode(key))).value;
    rest, end := d.value, d.next;
  }

  lemma JoinPairs(buf: seq<Byte>, i: nat, j: nat, k: nat, end: nat, p: Pair, rest: seq<Pair>, prev: Option<seq<Byte>>)
    requires i <= j <= k <= end <= |buf|
    requires WellFormedPair(p) && Encode(p.key) == buf[i..j] && Encode(p.value) == buf[j..k]
    requires prev.Some? ==> !LexLeq(Encode(p.key), prev.value)
    requires WellFormedPairs(rest, Some(Encode(p.key))) && EncodePairs(rest) == buf[k..end]
    ensures WellFormedPairs([p] + rest, prev) && EncodePairs([p] + rest) == buf[i..end]
  {
    hide EncHead, DecodeArg, DecodeBody, Decode, Encode, Encodable, WellFormed, LexLeq;
    var ps := [p] + rest;
    assert ps[0] == p && ps[1..] == rest;
    assert buf[i..end] == (buf[i..j] + buf[j..k]) + buf[k..end];
  }

  // ----- Round trip -----

  /** The bytes at i are exactly s, and all of them are there. */
  predicate At(buf: seq<Byte>, i: nat, s: seq<Byte>) {
    i + |s| <= |buf| && buf[i..i + |s|] == s
  }

  lemma AtSplit(buf: seq<Byte>, i: nat, s: seq<Byte>, t: seq<Byte>)
    requires At(buf, i, s + t)
    ensures At(buf, i, s) && At(buf, i + |s|, t)
  {
    assert (s + t)[..|s|] == s && (s + t)[|s|..] == t;
    assert buf[i..i + |s + t|][..|s|] == buf[i..i + |s|];
    assert buf[i..i + |s + t|][|s|..] == buf[i + |s|..i + |s| + |t|];
  }

  /** Wherever a buffer holds the encoding of a well-formed value, decoding there returns it. */
  lemma {:induction false} DecodeRoundTrip(buf: seq<Byte>, i: nat, v: Value)
    requires WellFormed(v) && At(buf, i, Encode(v))
    ensures Decode(buf, i) == Ok(Decoded(v, i + |Encode(v)|))
    decreases v
  {
    hide EncHead, DecodeArg, Decode, DecodeItems, DecodePairs, EncodeAll, EncodePairs, ValidUtf8, At, LexLeq;
    match v
    case Bool(b) =>
      BoolRoundTrip(buf, i, b);
    case Array(vs) =>
      BodyAfterHead(buf, i, 4, |vs|, EncodeAll(vs));
      ItemsRoundTrip(buf, i + |EncHead(4, |vs|)|, vs);
    case Map(ps) =>
      BodyAfterHead(buf, i, 5, |ps|, EncodePairs(ps));
      PairsRoundTrip(buf, i + |EncHead(5, |ps|)|, ps, None);
    case _ =>
      ScalarRoundTrip(buf, i, v);
  }

  lemma BoolRoundTrip(buf: seq<Byte>, i: nat, b: bool)
    requires At(buf, i, Encode(Bool(b)))
    ensures Decode(buf, i) == Ok(Decoded(Bool(b), i + |Encode(Bool(b))|))
  {
    assert buf[i] == Encode(Bool(b))[0];
  }

  /** After a canonical head, decoding goes on in `DecodeBody` with the body right behind it. */
  lemma BodyAfterHead(buf: seq<Byte>, i: nat, major: nat, val: nat, body: seq<Byte>)
    requires major < 7 && val < TWO64 && At(buf, i, EncHead(major, val) + body)
    ensures var j := i + |EncHead(major, val)|;
            i < |buf| && At(buf, j, body) && Decode(buf, i) == DecodeBody(buf, i, major, val, j)
  {
    AtSplit(buf, i, EncHead(major, val), body);
    HeadRoundTrip(buf, i, major, val);
  }

  lemma ScalarRoundTrip(buf: seq<Byte>, i: nat, v: Value)
    requires v.Uint? || v.Nint? || v.Bstr? || v.Tstr?
    requires WellFormed(v) && At(buf, i, Encode(v))
    ensures Decode(buf, i) == Ok(Decoded(v, i + |Encode(v)|))
  {
    hide EncHead, DecodeArg, LexLeq, Decode, DecodeItems, DecodePairs;
    match v
    case Uint(n) =>
      assert EncHead(0, n) + [] == Encode(v);
      BodyAfterHead(buf, i, 0, n, []);
    case Nint(n) =>
      assert EncHead(1, -1 - n) + [] == Encode(v);
      BodyAfterHead(buf, i, 1, -1 - n, []);
    case Bstr(s) =>
      BodyAfterHead(buf, i, 2, |s|, s);
    case Tstr(s) =>
      BodyAfterHead(buf, i, 3, |s|, s);
  }

  lemma {:induction false} ItemsRoundTrip(buf: seq<Byte>, i: nat, vs: seq<Value>)
    requires WellFormedAll(vs) && At(buf, i, EncodeAll(vs))
    ensures DecodeItems(buf, i, |vs|) == Ok(Decoded(vs, i + |EncodeAll(vs)|))
    decreases vs
  {
    hide EncHead, DecodeArg, DecodeBody, Decode, Encode, Encodable, WellFormed, LexLeq, At;
    if vs != [] {
      AtSplit(buf, i, Encode(vs[0]), EncodeAll(vs[1..]));
      DecodeRoundTrip(buf, i, vs[0]);
      ItemsRoundTrip(buf, i + |Encode(vs[0])|, vs[1..]);
      assert vs == [vs[0]] + vs[1..];
    }
  }

  lemma {:induction false} PairRoundTrip(buf: seq<Byte>, i: nat, p: Pair)
    requires WellFormedPair(p) && At(buf, i, EncodePair(p))
    ensures Decode(buf, i) == Ok(Decoded(p.key, i + |Encode(p.key)|))
    ensures Decode(buf, i + |Encode(p.key)|) == Ok(Decoded(p.value, i + |EncodePair(p)|))
    decreases p
  {
    hide EncHead, DecodeArg, DecodeBody, Decode, Encode, Encodable, WellFormed, LexLeq;
    AtSplit(buf, i, Encode(p.key), Encode(p.value));
    DecodeRoundTrip(buf, i, p.key);
    DecodeRoundTrip(buf, i + |Encode(p.key)|, p.value);
  }

  lemma {:induction false} PairsRoundTrip(buf: seq<Byte>, i: nat, ps: seq<Pair>, prev: Option<seq<Byte>>)
    requires WellFormedPairs(ps, prev) && At(buf, i, EncodePairs(ps))
    ensures DecodePairs(buf, i, |ps|, prev) == Ok(Decoded(ps, i + |EncodePairs(ps)|))
    decreases ps
  {
    hide EncHead, DecodeArg, DecodeBody, Decode, Encode, Encodable, WellFormed, LexLeq, EncodePair, WellFormedPair, At;
    if ps != [] {
      AtSplit(buf, i, EncodePair(ps[0]), EncodePairs(ps[1..]));
      PairRoundTrip(buf, i, ps[0]);
      PairsRoundTrip(buf, i + |EncodePair(ps[0])|, ps[1..], Some(Encode(ps[0].key)));
      PairsFold(buf, i, ps, prev);
    }
  }

  lemma PairsFold(buf: seq<Byte>, i: nat, ps: seq<Pair>, prev: Option<seq<Byte>>)
    requires ps != [] && EncodablePairs(ps) && EncodablePair(ps[0])
    requires var p := ps[0];
      && Decode(buf, i) == Ok(Decoded(p.key, i + |Encode(p.key)|))
      && Decode(buf, i + |Encode(p.key)|) == Ok(Decoded(p.value, i + |EncodePair(p)|))
      && (prev.Some? ==> !LexLeq(Encode(p.key), prev.value))
      && DecodePairs(buf, i + |EncodePair(p)|, |ps| - 1, Some(Encode(p.key)))
         == Ok(Decoded(ps[1..], i + |EncodePairs(ps)|))
    ensures DecodePairs(buf, i, |ps|, prev) == Ok(Decoded(ps, i + |EncodePairs(ps)|))
  {
    hide EncHead, DecodeArg, DecodeBody, Decode, Encode, Encodable, WellFormed, LexLeq, EncodePair, EncodePairs, EncodablePairs, EncodablePair;
    assert ps == [ps[0]] + ps[1..];
    assert ps[0] == Pair(ps[0].key, ps[0].value);
  }

  // ----- Main theorems -----

  /** Decoding an encoding followed by any suffix returns the value and the encoded length. */
  lemma RoundTripWithSuffix(v: Value, suffix: seq<Byte>)
    requires WellFormed(v)
    ensures Decode(Encode(v) + suffix, 0) == Ok(Decoded(v, |Encode(v)|))
  {
    DecodeRoundTrip(Encode(v) + suffix, 0, v);
  }

  /** `cbor_decode_exact` accepts exactly the canonical encodings, each as its own value. */
  lemma DecodeExactIffCanonical(buf: seq<Byte>, v: Value)
    ensures DecodeExact(buf) == Ok(v) <==> WellFormed(v) && Encode(v) == buf
  {
    if DecodeExact(buf) == Ok(v) {
      DecodeCanonical(buf, 0);
      assert buf[0..|buf|] == buf;
    }
    if WellFormed(v) && Encode(v) == buf {
      RoundTripWithSuffix(v, []);
      assert Encode(v) + [] == buf;
    }
  }

  /** Two encodings, one a prefix of the other, encode the same value. */
  lemma EncodingPrefixFree(v: Value, w: Value)
    requires WellFormed(v) && WellFormed(w) && Encode(v) <= Encode(w)
    ensures v == w
  {
    RoundTripWithSuffix(v, Encode(w)[|Encode(v)|..]);
    RoundTripWithSuffix(w, []);
    assert Encode(v) + Encode(w)[|Encode(v)|..] == Encode(w) == Encode(w) + [];
  }

  /**
   * `cbor_decode` on its own, at any place: its end index lies inside the buffer exactly when an encoding
   * of a well-formed value stands there.
   */
  lemma EndsInsideIffEncoding(buf: seq<Byte>, i: nat)
    ensures Decode(buf, i).Ok? && Decode(buf, i).value.next <= |buf| <==>
            exists v :: WellFormed(v) && At(buf, i, Encode(v))
    ensures Decode(buf, i).Ok? && Decode(buf, i).value.next <= |buf| ==>
              forall v :: WellFormed(v) && At(buf, i, Encode(v)) ==> Decode(buf, i).value.value == v
  {
    hide Decode, Encode, WellFormed;
    if Decode(buf, i).Ok? && Decode(buf, i).value.next <= |buf| {
      DecodeCanonical(buf, i);
      assert At(buf, i, Encode(Decode(buf, i).value.value));
    }
    forall v | WellFormed(v) && At(buf, i, Encode(v))
      ensures Decode(buf, i) == Ok(Decoded(v, i + |Encode(v)|))
    {
      DecodeRoundTrip(buf, i, v);
    }
  }

  /** `cbor_decode` alone is not canonical: a clamped slice is caught only by its end index. */
  lemma DecodeAloneClamps()
    ensures Decode([0x42, 0x07], 0) == Ok(Decoded(Bstr([0x07]), 3))
    ensures Encode(Bstr([0x07])) == [0x41, 0x07]
    ensures DecodeExact([0x42, 0x07]) == Err(Trailing)
  {
    var buf: seq<Byte> := [0x42, 0x07];
    assert DecodeArg(buf, 1, 2) == Ok(Arg(2, 1));
    assert Slice(buf, 1, 3) == [0x07];
  }
}
