/** The COSE_Sign1 envelope verifier of tools/interop/verify_cose.py (section 4.4 of RFC 9052). */
module Cose {
  import opened Bytes
  import opened Cbor
  import opened CborTheorems
  import Decimal

  const HDR_ALG := 1
  const HDR_CONTENT_TYPE := 3
  const HDR_KID := 4
  const ALG_EDDSA := -8

  datatype Failure =
    | Cbor(error: Error)
    | NotFourElements
    | ProtectedNotBytes
    | UnprotectedNotEmpty
    | PayloadOrSignatureNotBytes
    | SignatureLength
    | HeaderNotMap
    | HeaderKeyNotUint
    | HeaderFieldSet
    | KidNotBytes
    | WrongAlg
    | MissingContentType
    | WrongContentType
    | PayloadNotCanonical
    | BadSignature
    | TamperedStillVerified

  /** `ed25519_verify(public_key, message, signature)`. */
  type SignatureCheck = (seq<Byte>, seq<Byte>, seq<Byte>) -> bool

  // ----- Derived strings; a message kind is its UTF-8 bytes -----

  const DOT: Byte := 46
  const DASH: Byte := 45
  const SIGNATURE1: seq<Byte> := [83, 105, 103, 110, 97, 116, 117, 114, 101, 49]
  const APPLICATION: seq<Byte> := [97, 112, 112, 108, 105, 99, 97, 116, 105, 111, 110, 47]
  const PLUS_CBOR: seq<Byte> := [43, 99, 98, 111, 114]
  const DOT_V: seq<Byte> := [46, 118]

  function DotsToDashes(s: seq<Byte>): (t: seq<Byte>)
    ensures |t| == |s|
  {
    seq(|s|, i requires 0 <= i < |s| => if s[i] == DOT then DASH else s[i])
  }

  function ContentTypeFor(kind: seq<Byte>): seq<Byte> {
    APPLICATION + DotsToDashes(kind) + PLUS_CBOR
  }

  function ExternalAadFor(kind: seq<Byte>, schemaMajor: int): seq<Byte> {
    kind + DOT_V + Decimal.Str(schemaMajor)
  }

  function SigStructureValue(protected: seq<Byte>, aad: seq<Byte>, payload: seq<Byte>): Value {
    Array([Tstr(SIGNATURE1), Bstr(protected), Bstr(aad), Bstr(payload)])
  }

  function SigStructure(protected: seq<Byte>, aad: seq<Byte>, payload: seq<Byte>): seq<Byte>
    requires |protected| < TWO64 && |aad| < TWO64 && |payload| < TWO64
  {
    FourEncodable(Tstr(SIGNATURE1), Bstr(protected), Bstr(aad), Bstr(payload));
    Encode(SigStructureValue(protected, aad, payload))
  }

  lemma FourEncodable(a: Value, b: Value, c: Value, d: Value)
    ensures EncodableAll([a, b, c, d]) <==> Encodable(a) && Encodable(b) && Encodable(c) && Encodable(d)
    ensures WellFormedAll([a, b, c, d]) <==> WellFormed(a) && WellFormed(b) && WellFormed(c) && WellFormed(d)
  {
    hide Encodable, WellFormed;
    assert [d][1..] == [] && EncodableAll([]) && WellFormedAll([]);
    assert EncodableAll([d]) == Encodable(d) && WellFormedAll([d]) == WellFormed(d);
    assert [c, d][1..] == [d];
    assert EncodableAll([c, d]) == (Encodable(c) && Encodable(d));
    assert WellFormedAll([c, d]) == (WellFormed(c) && WellFormed(d));
    assert [b, c, d][1..] == [c, d];
    assert EncodableAll([b, c, d]) == (Encodable(b) && EncodableAll([c, d]));
    assert WellFormedAll([b, c, d]) == (WellFormed(b) && WellFormedAll([c, d]));
    assert [a, b, c, d][1..] == [b, c, d];
  }

  // ----- verify_envelope -----

  /** `dict(...)` over the header pairs: a later pair with the same key wins. */
  function Fields(ps: seq<Pair>): map<int, Value>
    requires forall i :: 0 <= i < |ps| ==> ps[i].key.Uint?
  {
    if ps == [] then map[]
    else Fields(ps[..|ps| - 1])[ps[|ps| - 1].key.n := ps[|ps| - 1].value]
  }

  datatype Header = Header(kid: seq<Byte>)

  function CheckHeader(hdr: Value, kind: seq<Byte>): Result<Header, Failure> {
    if !hdr.Map? then Err(HeaderNotMap)
    else if exists i :: 0 <= i < |hdr.pairs| && !hdr.pairs[i].key.Uint? then Err(HeaderKeyNotUint)
    else
      var fields := Fields(hdr.pairs);
      if fields.Keys != {HDR_ALG, HDR_CONTENT_TYPE, HDR_KID} then Err(HeaderFieldSet)
      else if !fields[HDR_KID].Bstr? then Err(KidNotBytes)
      else if fields[HDR_ALG] != Nint(ALG_EDDSA) then Err(WrongAlg)
      else if !fields[HDR_CONTENT_TYPE].Tstr? then Err(MissingContentType)
      else if fields[HDR_CONTENT_TYPE].utf8 != ContentTypeFor(kind) then Err(WrongContentType)
      else Ok(Header(fields[HDR_KID].bytes))
  }

  function FlipLastBit(s: seq<Byte>): seq<Byte>
    requires s != []
  {
    var last := s[|s| - 1];
    s[|s| - 1 := if last % 2 == 0 then last + 1 else last - 1]
  }

  datatype Parts = Parts(kid: seq<Byte>, payload: seq<Byte>, signature: seq<Byte>)

  function TopShape(top: Value): (r: Result<(seq<Byte>, seq<Byte>, seq<Byte>), Failure>) {
    if !top.Array? || |top.items| != 4 then Err(NotFourElements)
    else if !top.items[0].Bstr? then Err(ProtectedNotBytes)
    else if top.items[1] != Map([]) then Err(UnprotectedNotEmpty)
    else if !top.items[2].Bstr? || !top.items[3].Bstr? then Err(PayloadOrSignatureNotBytes)
    else if |top.items[3].bytes| != 64 then Err(SignatureLength)
    else Ok((top.items[0].bytes, top.items[2].bytes, top.items[3].bytes))
  }

  /** The checks of `verify_envelope` in their order; what was verified comes back. */
  function VerifyEnvelope(env: seq<Byte>, kind: seq<Byte>, schemaMajor: int, publicKey: seq<Byte>, ed: SignatureCheck)
    : Result<Parts, Failure>
    requires |env| < TWO64 && |ExternalAadFor(kind, schemaMajor)| < TWO64
  {
    match DecodeExact(env)
    case Err(e) => Err(Failure.Cbor(e))
    case Ok(top) =>
      match TopShape(top)
      case Err(e) => Err(e)
      case Ok((protected, payload, signature)) =>
        match DecodeExact(protected)
        case Err(e) => Err(Failure.Cbor(e))
        case Ok(hdr) =>
          match CheckHeader(hdr, kind)
          case Err(e) => Err(e)
          case Ok(Header(kid)) =>
            PartsFit(env);
            CheckSignature(Parts(kid, payload, signature), protected, ExternalAadFor(kind, schemaMajor), publicKey, ed)
  }

  function CheckSignature(parts: Parts, protected: seq<Byte>, aad: seq<Byte>, publicKey: seq<Byte>, ed: SignatureCheck)
    : Result<Parts, Failure>
    requires |protected| < TWO64 && |aad| < TWO64 && |parts.payload| < TWO64
  {
    match DecodeExact(parts.payload)
    case Err(e) => Err(Failure.Cbor(e))
    case Ok(body) =>
      DecodeExactIffCanonical(parts.payload, body);
      if Encode(body) != parts.payload then Err(PayloadNotCanonical)
      else
        var ss := SigStructure(protected, aad, parts.payload);
        if !ed(publicKey, ss, parts.signature) then Err(BadSignature)
        else if ed(publicKey, FlipLastBit(ss), parts.signature) then Err(TamperedStillVerified)
        else Ok(parts)
  }

  lemma PartsFit(env: seq<Byte>)
    requires DecodeExact(env).Ok? && TopShape(DecodeExact(env).value).Ok?
    ensures var (protected, payload, signature) := TopShape(DecodeExact(env).value).value;
            |protected| < TWO64 && |payload| < TWO64
  {
    var top := DecodeExact(env).value;
    DecodeExactIffCanonical(env, top);
    assert top.items == [top.items[0], top.items[1], top.items[2], top.items[3]];
    FourEncodable(top.items[0], top.items[1], top.items[2], top.items[3]);
  }

  // ----- What acceptance means -----

  function HeaderValue(kind: seq<Byte>, kid: seq<Byte>): Value {
    Map([Pair(Uint(HDR_ALG), Nint(ALG_EDDSA)),
         Pair(Uint(HDR_CONTENT_TYPE), Tstr(ContentTypeFor(kind))),
         Pair(Uint(HDR_KID), Bstr(kid))])
  }

  function EnvelopeValue(protected: seq<Byte>, payload: seq<Byte>, signature: seq<Byte>): Value {
    Array([Bstr(protected), Map([]), Bstr(payload), Bstr(signature)])
  }

  /** env is the one deterministic envelope for this kind and these parts. */
  predicate EnvelopeOf(env: seq<Byte>, kind: seq<Byte>, parts: Parts) {
    && WellFormed(HeaderValue(kind, parts.kid))
    && var top := EnvelopeValue(Encode(HeaderValue(kind, parts.kid)), parts.payload, parts.signature);
       WellFormed(top) && Encode(top) == env
  }

  /** The header pairs that pass: the three fields, once each, in key order. */
  lemma {:induction false} FieldKeys(ps: seq<Pair>)
    requires forall i :: 0 <= i < |ps| ==> ps[i].key.Uint?
    ensures forall k :: k in Fields(ps) <==> exists i :: 0 <= i < |ps| && ps[i].key.n == k
    ensures forall i :: 0 <= i < |ps| ==> ps[i].key.n in Fields(ps)
  {
    if ps != [] {
      var n := |ps| - 1;
      FieldKeys(ps[..n]);
      forall k
        ensures k in Fields(ps) <==> exists i :: 0 <= i < |ps| && ps[i].key.n == k
      {
        if i :| 0 <= i < |ps| && ps[i].key.n == k {
          assert i < n ==> ps[..n][i].key.n == k;
        }
        if i :| 0 <= i < n && ps[..n][i].key.n == k {
          assert ps[i].key.n == k;
        }
      }
    }
  }

  lemma {:induction false} FieldCount(ps: seq<Pair>)
    requires forall i :: 0 <= i < |ps| ==> ps[i].key.Uint?
    ensures |Fields(ps).Keys| <= |ps|
  {
    if ps != [] {
      FieldCount(ps[..|ps| - 1]);
      assert Fields(ps).Keys == Fields(ps[..|ps| - 1]).Keys + {ps[|ps| - 1].key.n};
    }
  }

  lemma SmallKeysAscend(a: int, b: int)
    requires 0 <= a < 24 && 0 <= b < 24
    ensures !LexLeq(Encode(Uint(b)), Encode(Uint(a))) <==> a < b
  {
    assert Encode(Uint(a)) == [a] && Encode(Uint(b)) == [b];
    assert [a][1..] == [] && [b][1..] == [];
  }

  lemma {:induction false} AdjacentAscend(ps: seq<Pair>, prev: Option<seq<Byte>>, i: nat)
    requires WellFormedPairs(ps, prev) && i + 1 < |ps|
    ensures Encodable(ps[i].key) && Encodable(ps[i + 1].key)
    ensures !LexLeq(Encode(ps[i + 1].key), Encode(ps[i].key))
  {
    if i > 0 {
      AdjacentAscend(ps[1..], Some(Encode(ps[0].key)), i - 1);
    }
  }

  lemma HeaderAccepted(hdr: Value, kind: seq<Byte>)
    requires WellFormed(hdr) && CheckHeader(hdr, kind).Ok?
    ensures hdr == HeaderValue(kind, CheckHeader(hdr, kind).value.kid)
  {
    hide Encode, Encodable, LexLeq, WellFormedPairs, ContentTypeFor, Fields;
    var ps := hdr.pairs;
    FieldKeys(ps);
    FieldCount(ps);
    assert |{HDR_ALG, HDR_CONTENT_TYPE, HDR_KID}| == 3;
    assert forall i :: 0 <= i < |ps| ==> ps[i].key.n in {HDR_ALG, HDR_CONTENT_TYPE, HDR_KID};
    forall i | 0 <= i < |ps| - 1 ensures ps[i].key.n < ps[i + 1].key.n && ps[i].key.n < HDR_KID {
      AdjacentAscend(ps, None, i);
      SmallKeysAscend(ps[i].key.n, ps[i + 1].key.n);
    }
    assert ps[0].key.n < ps[1].key.n < ps[2].key.n;
    assert ps[1].key.n == HDR_CONTENT_TYPE && ps[2].key.n == HDR_KID;
    assert |ps| == 3;
    ThreeFields(ps);
    assert ps == [ps[0], ps[1], ps[2]];
  }

  lemma ThreeFields(ps: seq<Pair>)
    requires |ps| == 3 && ps[0].key == Uint(HDR_ALG) && ps[1].key == Uint(HDR_CONTENT_TYPE) && ps[2].key == Uint(HDR_KID)
    ensures Fields(ps) == map[HDR_ALG := ps[0].value, HDR_CONTENT_TYPE := ps[1].value, HDR_KID := ps[2].value]
  {
    var one, two := [ps[0]], [ps[0], ps[1]];
    assert one[..0] == [] && Fields([]) == map[];
    assert Fields(one) == map[HDR_ALG := ps[0].value];
    assert two[..1] == one;
    assert Fields(two) == map[HDR_ALG := ps[0].value, HDR_CONTENT_TYPE := ps[1].value];
    assert ps[..2] == two;
  }

  lemma HeaderBuilt(kind: seq<Byte>, kid: seq<Byte>)
    ensures CheckHeader(HeaderValue(kind, kid), kind) == Ok(Header(kid))
  {
    ThreeFields(HeaderValue(kind, kid).pairs);
  }

  /**
   * An envelope is accepted, with the given parts, exactly when it is the one deterministic envelope
   * for them, the payload is canonical CBOR, and the signature verifies over the rebuilt
   * `Sig_structure` but not over the tampered one.
   */
  lemma AcceptedIff(env: seq<Byte>, kind: seq<Byte>, schemaMajor: int, publicKey: seq<Byte>, ed: SignatureCheck, parts: Parts)
    requires |env| < TWO64 && |ExternalAadFor(kind, schemaMajor)| < TWO64
    ensures VerifyEnvelope(env, kind, schemaMajor, publicKey, ed) == Ok(parts) <==>
            && EnvelopeOf(env, kind, parts)
            && |parts.signature| == 64
            && DecodeExact(parts.payload).Ok?
            && |Encode(HeaderValue(kind, parts.kid))| < TWO64 && |parts.payload| < TWO64
            && var ss := SigStructure(Encode(HeaderValue(kind, parts.kid)), ExternalAadFor(kind, schemaMajor), parts.payload);
               ed(publicKey, ss, parts.signature) && !ed(publicKey, FlipLastBit(ss), parts.signature)
  {
    if VerifyEnvelope(env, kind, schemaMajor, publicKey, ed) == Ok(parts) {
      AcceptedIsBuilt(env, kind, schemaMajor, publicKey, ed, parts);
    }
    if EnvelopeOf(env, kind, parts) && |parts.signature| == 64 && DecodeExact(parts.payload).Ok? {
      BuiltDecodes(env, kind, parts);
      DecodeExactIffCanonical(parts.payload, DecodeExact(parts.payload).value);
    }
  }

  lemma AcceptedIsBuilt(env: seq<Byte>, kind: seq<Byte>, schemaMajor: int, publicKey: seq<Byte>, ed: SignatureCheck, parts: Parts)
    requires |env| < TWO64 && |ExternalAadFor(kind, schemaMajor)| < TWO64
    requires VerifyEnvelope(env, kind, schemaMajor, publicKey, ed) == Ok(parts)
    ensures EnvelopeOf(env, kind, parts)
    ensures TopShape(DecodeExact(env).value) == Ok((Encode(HeaderValue(kind, parts.kid)), parts.payload, parts.signature))
  {
    var top := DecodeExact(env).value;
    var (protected, payload, signature) := TopShape(top).value;
    var hdr := DecodeExact(protected).value;
    DecodeExactIffCanonical(env, top);
    DecodeExactIffCanonical(protected, hdr);
    HeaderAccepted(hdr, kind);
    assert top.items == [top.items[0], top.items[1], top.items[2], top.items[3]];
    assert top == EnvelopeValue(protected, payload, signature);
  }

  lemma BuiltDecodes(env: seq<Byte>, kind: seq<Byte>, parts: Parts)
    requires EnvelopeOf(env, kind, parts) && |parts.signature| == 64
    ensures var protected := Encode(HeaderValue(kind, parts.kid));
      && DecodeExact(env).Ok?
      && TopShape(DecodeExact(env).value) == Ok((protected, parts.payload, parts.signature))
      && DecodeExact(protected) == Ok(HeaderValue(kind, parts.kid))
      && CheckHeader(HeaderValue(kind, parts.kid), kind) == Ok(Header(parts.kid))
      && |protected| < TWO64 && |parts.payload| < TWO64
  {
    var header := HeaderValue(kind, parts.kid);
    var protected := Encode(header);
    var top := EnvelopeValue(protected, parts.payload, parts.signature);
    DecodeExactIffCanonical(env, top);
    DecodeExactIffCanonical(protected, header);
    HeaderBuilt(kind, parts.kid);
    FourEncodable(Bstr(protected), Map([]), Bstr(parts.payload), Bstr(parts.signature));
  }

  /** Two envelopes accepted for one kind with the same kid, payload and signature are identical. */
  lemma EnvelopeUnique(env1: seq<Byte>, env2: seq<Byte>, kind: seq<Byte>, schemaMajor: int,
                       key1: seq<Byte>, key2: seq<Byte>, ed: SignatureCheck)
    requires |env1| < TWO64 && |env2| < TWO64 && |ExternalAadFor(kind, schemaMajor)| < TWO64
    requires VerifyEnvelope(env1, kind, schemaMajor, key1, ed).Ok?
    requires VerifyEnvelope(env1, kind, schemaMajor, key1, ed) == VerifyEnvelope(env2, kind, schemaMajor, key2, ed)
    ensures env1 == env2
  {
    var parts := VerifyEnvelope(env1, kind, schemaMajor, key1, ed).value;
    AcceptedIsBuilt(env1, kind, schemaMajor, key1, ed, parts);
    AcceptedIsBuilt(env2, kind, schemaMajor, key2, ed, parts);
  }

  /** The re-encoding comparison can never fail: strict decoding already implies it. */
  lemma PayloadAlwaysCanonical(env: seq<Byte>, kind: seq<Byte>, schemaMajor: int, publicKey: seq<Byte>, ed: SignatureCheck)
    requires |env| < TWO64 && |ExternalAadFor(kind, schemaMajor)| < TWO64
    ensures VerifyEnvelope(env, kind, schemaMajor, publicKey, ed) != Err(PayloadNotCanonical)
  {
    var d := DecodeExact(env);
    if d.Ok? && TopShape(d.value).Ok? && DecodeExact(TopShape(d.value).value.1).Ok? {
      var payload := TopShape(d.value).value.1;
      DecodeExactIffCanonical(payload, DecodeExact(payload).value);
    }
  }

  // ----- What is signed -----

  lemma SigStructureInjective(p1: seq<Byte>, a1: seq<Byte>, y1: seq<Byte>, p2: seq<Byte>, a2: seq<Byte>, y2: seq<Byte>)
    requires |p1| < TWO64 && |a1| < TWO64 && |y1| < TWO64
    requires |p2| < TWO64 && |a2| < TWO64 && |y2| < TWO64
    requires SigStructure(p1, a1, y1) == SigStructure(p2, a2, y2)
    ensures p1 == p2 && a1 == a2 && y1 == y2
  {
    var v, w := SigStructureValue(p1, a1, y1), SigStructureValue(p2, a2, y2);
    Signature1IsUtf8();
    FourEncodable(Tstr(SIGNATURE1), Bstr(p1), Bstr(a1), Bstr(y1));
    FourEncodable(Tstr(SIGNATURE1), Bstr(p2), Bstr(a2), Bstr(y2));
    EncodingPrefixFree(v, w);
    assert v.items[1] == w.items[1] && v.items[2] == w.items[2] && v.items[3] == w.items[3];
  }

  /** The signed bytes laid out: an array of four, the context string, then header, AAD and payload as byte strings. */
  lemma SigStructureLayout(protected: seq<Byte>, aad: seq<Byte>, payload: seq<Byte>)
    requires |protected| < TWO64 && |aad| < TWO64 && |payload| < TWO64
    ensures SigStructure(protected, aad, payload) ==
            [0x84, 0x6A] + SIGNATURE1 + (EncHead(2, |protected|) + protected)
            + (EncHead(2, |aad|) + aad) + (EncHead(2, |payload|) + payload)
  {
    hide EncHead, EncodeAll, SIGNATURE1;
    var sig, p, x, y := Tstr(SIGNATURE1), Bstr(protected), Bstr(aad), Bstr(payload);
    SmallHeads();
    EncodeFour(sig, p, x, y);
    assert SigStructureValue(protected, aad, payload) == Array([sig, p, x, y]);
  }

  lemma EncodeFour(a: Value, b: Value, c: Value, d: Value)
    requires Encodable(a) && Encodable(b) && Encodable(c) && Encodable(d)
    ensures EncodableAll([a, b, c, d])
    ensures EncodeAll([a, b, c, d]) == Encode(a) + Encode(b) + Encode(c) + Encode(d)
  {
    hide Encode, Encodable, EncodeAll, EncodableAll;
    EncodeNone();
    EncodeCons(d, [], [d]);
    EncodeCons(c, [d], [c, d]);
    EncodeCons(b, [c, d], [b, c, d]);
    EncodeCons(a, [b, c, d], [a, b, c, d]);
    assert Encode(d) + [] == Encode(d);
    Reassociate(Encode(a), Encode(b), Encode(c), Encode(d));
  }

  lemma Reassociate(a: seq<Byte>, b: seq<Byte>, c: seq<Byte>, d: seq<Byte>)
    ensures a + (b + (c + d)) == a + b + c + d
  {
  }

  lemma EncodeNone()
    ensures EncodableAll([]) && EncodeAll([]) == []
  {
  }

  lemma EncodeCons(v: Value, rest: seq<Value>, all: seq<Value>)
    requires Encodable(v) && EncodableAll(rest) && all == [v] + rest
    ensures EncodableAll(all) && EncodeAll(all) == Encode(v) + EncodeAll(rest)
  {
    hide Encode, Encodable;
    assert all[1..] == rest;
  }

  lemma SmallHeads()
    ensures EncHead(4, 4) == [0x84] && EncHead(3, 10) == [0x6A] && |SIGNATURE1| == 10
  {
  }

  lemma {:induction false} AsciiIsUtf8(s: seq<Byte>)
    requires forall i :: 0 <= i < |s| ==> s[i] < 0x80
    ensures ValidUtf8(s)
  {
    if s != [] { AsciiIsUtf8(s[1..]); }
  }

  lemma Signature1IsUtf8()
    ensures ValidUtf8(SIGNATURE1)
  {
    hide ValidUtf8;
    AsciiIsUtf8(SIGNATURE1);
  }

  /** The external AAD determines the kind and the schema major, whatever dots the kind contains. */
  lemma AadInjective(k1: seq<Byte>, m1: int, k2: seq<Byte>, m2: int)
    requires ExternalAadFor(k1, m1) == ExternalAadFor(k2, m2)
    ensures k1 == k2 && m1 == m2
  {
    if |Decimal.Str(m1)| <= |Decimal.Str(m2)| {
      AadSplit(k1, Decimal.Str(m1), k2, Decimal.Str(m2));
    } else {
      AadSplit(k2, Decimal.Str(m2), k1, Decimal.Str(m1));
    }
    Decimal.StrInjective(m1, m2);
  }

  lemma AadSplit(k1: seq<Byte>, d1: seq<Byte>, k2: seq<Byte>, d2: seq<Byte>)
    requires |d1| <= |d2| && k1 + DOT_V + d1 == k2 + DOT_V + d2
    requires forall i :: 0 <= i < |d2| ==> d2[i] != DOT
    ensures k1 == k2 && d1 == d2
  {
    var s, t := k1 + DOT_V + d1, k2 + DOT_V + d2;
    forall j | |k2| < j < |t| ensures t[j] != DOT {
      if j > |k2| + 1 { assert t[j] == d2[j - |k2| - 2]; } else { assert t[j] == DOT_V[1]; }
    }
    assert s[|k1|] == DOT;
    assert |k1| == |k2|;
    assert k1 == s[..|k1|] && k2 == t[..|k2|];
    assert d1 == s[|k1| + 2..] && d2 == t[|k2| + 2..];
  }

  /** One signed message belongs to one protected header, kind, schema major and payload. */
  lemma SignedMessageBindsContext(p1: seq<Byte>, k1: seq<Byte>, m1: int, y1: seq<Byte>,
                                  p2: seq<Byte>, k2: seq<Byte>, m2: int, y2: seq<Byte>)
    requires |p1| < TWO64 && |ExternalAadFor(k1, m1)| < TWO64 && |y1| < TWO64
    requires |p2| < TWO64 && |ExternalAadFor(k2, m2)| < TWO64 && |y2| < TWO64
    requires SigStructure(p1, ExternalAadFor(k1, m1), y1) == SigStructure(p2, ExternalAadFor(k2, m2), y2)
    ensures p1 == p2 && k1 == k2 && m1 == m2 && y1 == y2
  {
    SigStructureInjective(p1, ExternalAadFor(k1, m1), y1, p2, ExternalAadFor(k2, m2), y2);
    AadInjective(k1, m1, k2, m2);
  }

  /** Dots and dashes count as one character. */
  predicate SameButDots(a: Byte, b: Byte) {
    a == b || (a in {DOT, DASH} && b in {DOT, DASH})
  }

  /** The content type alone does not: two kinds share it exactly when they differ only in dots and dashes. */
  lemma ContentTypeEqualIff(k1: seq<Byte>, k2: seq<Byte>)
    ensures ContentTypeFor(k1) == ContentTypeFor(k2) <==>
            |k1| == |k2| && forall i :: 0 <= i < |k1| ==> SameButDots(k1[i], k2[i])
  {
    var n := |APPLICATION|;
    var s, t := ContentTypeFor(k1), ContentTypeFor(k2);
    if s == t {
      assert |k1| == |k2|;
      assert s[n..n + |k1|] == DotsToDashes(k1) && t[n..n + |k2|] == DotsToDashes(k2);
      forall i | 0 <= i < |k1|
        ensures SameButDots(k1[i], k2[i])
      {
        assert DotsToDashes(k1)[i] == DotsToDashes(k2)[i];
      }
    }
    if |k1| == |k2| && forall i :: 0 <= i < |k1| ==> SameButDots(k1[i], k2[i]) {
      assert DotsToDashes(k1) == DotsToDashes(k2);
    }
  }

  /** In particular a kind with a dot in it collides with another kind, its own dashed form. */
  lemma ContentTypeCollides(kind: seq<Byte>)
    ensures ContentTypeFor(kind) == ContentTypeFor(DotsToDashes(kind))
    ensures DOT in kind ==> kind != DotsToDashes(kind)
  {
    ContentTypeEqualIff(kind, DotsToDashes(kind));
    if DOT in kind {
      var i :| 0 <= i < |kind| && kind[i] == DOT;
      assert DotsToDashes(kind)[i] == DASH;
    }
  }
}
