/** The deterministic CBOR codec of tools/interop/verify_cose.py (section 4.2.1 of RFC 8949). */
module Cbor {
  import opened Bytes

  datatype Value =
    | Bool(b: bool)
    | Uint(n: int)
    | Nint(n: int)
    | Bstr(bytes: seq<Byte>)
    | Tstr(utf8: seq<Byte>)
    | Array(items: seq<Value>)
    | Map(pairs: seq<Pair>)

  datatype Pair = Pair(key: Value, value: Value)

  datatype Error =
    | Truncated
    | IndexOutOfRange
    | NonShortest
    | UnsupportedInfo
    | UnsupportedSimple
    | UnsupportedMajor
    | InvalidUtf8
    | KeyOrder
    | Trailing

  const TWO64 := 0x1_0000_0000_0000_0000

  // ----- UTF-8 (section 4 of RFC 3629) -----

  predicate Tail(s: seq<Byte>, k: nat) {
    k < |s| && 0x80 <= s[k] <= 0xBF
  }

  /** What `bytes.decode("utf-8")` accepts; a decoded string re-encodes to the same bytes. */
  predicate ValidUtf8(s: seq<Byte>)
  {
    if s == [] then true
    else if s[0] < 0x80 then ValidUtf8(s[1..])
    else if 0xC2 <= s[0] <= 0xDF then Tail(s, 1) && ValidUtf8(s[2..])
    else if 0xE0 <= s[0] <= 0xEF then
      && Tail(s, 1) && Tail(s, 2)
      && (s[0] == 0xE0 ==> s[1] >= 0xA0) && (s[0] == 0xED ==> s[1] <= 0x9F)
      && ValidUtf8(s[3..])
    else if 0xF0 <= s[0] <= 0xF4 then
      && Tail(s, 1) && Tail(s, 2) && Tail(s, 3)
      && (s[0] == 0xF0 ==> s[1] >= 0x90) && (s[0] == 0xF4 ==> s[1] <= 0x8F)
      && ValidUtf8(s[4..])
    else false
  }

  // ----- Encoder -----

  /** The values `cbor_encode` can write: arguments and lengths fit 64 bits. */
  predicate Encodable(v: Value)
    decreases v
  {
    match v
    case Bool(_) => true
    case Uint(n) => 0 <= n < TWO64
    case Nint(n) => -TWO64 <= n < 0
    case Bstr(s) => |s| < TWO64
    case Tstr(s) => |s| < TWO64
    case Array(vs) => |vs| < TWO64 && EncodableAll(vs)
    case Map(ps) => |ps| < TWO64 && EncodablePairs(ps)
  }

  predicate EncodableAll(vs: seq<Value>)
    decreases vs
  {
    vs == [] || (Encodable(vs[0]) && EncodableAll(vs[1..]))
  }

  predicate EncodablePairs(ps: seq<Pair>)
    decreases ps
  {
    ps == [] || (EncodablePair(ps[0]) && EncodablePairs(ps[1..]))
  }

  predicate EncodablePair(p: Pair)
    decreases p
  {
    Encodable(p.key) && Encodable(p.value)
  }

  function EncHead(major: nat, val: nat): (bs: seq<Byte>)
    requires major < 8 && val < TWO64
    ensures |bs| >= 1
  {
    Pow256Values();
    if val < 24 then [32 * major + val]
    else if val < 0x100 then [32 * major + 24, val]
    else if val < 0x1_0000 then [32 * major + 25] + ToBig(val, 2)
    else if val < 0x1_0000_0000 then [32 * major + 26] + ToBig(val, 4)
    else [32 * major + 27] + ToBig(val, 8)
  }

  function Encode(v: Value): (bs: seq<Byte>)
    requires Encodable(v)
    ensures |bs| >= 1
    decreases v
  {
    match v
    case Bool(b) => [0xE0 + if b then 21 else 20]
    case Uint(n) => EncHead(0, n)
    case Nint(n) => EncHead(1, -1 - n)
    case Bstr(s) => EncHead(2, |s|) + s
    case Tstr(s) => EncHead(3, |s|) + s
    case Array(vs) => EncHead(4, |vs|) + EncodeAll(vs)
    case Map(ps) => EncHead(5, |ps|) + EncodePairs(ps)
  }

  function EncodeAll(vs: seq<Value>): seq<Byte>
    requires EncodableAll(vs)
    decreases vs
  {
    if vs == [] then [] else Encode(vs[0]) + EncodeAll(vs[1..])
  }

  function EncodePairs(ps: seq<Pair>): seq<Byte>
    requires EncodablePairs(ps)
    decreases ps
  {
    if ps == [] then [] else EncodePair(ps[0]) + EncodePairs(ps[1..])
  }

  function EncodePair(p: Pair): (bs: seq<Byte>)
    requires EncodablePair(p)
    decreases p
  {
    Encode(p.key) + Encode(p.value)
  }

  /** The values with a deterministic encoding: valid text, strictly ascending encoded keys. */
  predicate WellFormed(v: Value)
    ensures WellFormed(v) ==> Encodable(v)
    decreases v
  {
    match v
    case Tstr(s) => |s| < TWO64 && ValidUtf8(s)
    case Array(vs) => |vs| < TWO64 && WellFormedAll(vs)
    case Map(ps) => |ps| < TWO64 && WellFormedPairs(ps, None)
    case _ => Encodable(v)
  }

  predicate WellFormedAll(vs: seq<Value>)
    ensures WellFormedAll(vs) ==> EncodableAll(vs)
    decreases vs
  {
    vs == [] || (WellFormed(vs[0]) && WellFormedAll(vs[1..]))
  }

  predicate WellFormedPairs(ps: seq<Pair>, prev: Option<seq<Byte>>)
    ensures WellFormedPairs(ps, prev) ==> EncodablePairs(ps)
    decreases ps
  {
    ps == [] ||
    (&& WellFormedPair(ps[0])
     && (prev.Some? ==> !LexLeq(Encode(ps[0].key), prev.value))
     && WellFormedPairs(ps[1..], Some(Encode(ps[0].key))))
  }

  predicate WellFormedPair(p: Pair)
    ensures WellFormedPair(p) ==> EncodablePair(p)
    decreases p
  {
    WellFormed(p.key) && WellFormed(p.value)
  }

  // ----- Decoder -----

  function Remaining(buf: seq<Byte>, i: nat): nat {
    if i <= |buf| then |buf| - i else 0
  }

  datatype Arg = Arg(val: nat, next: nat)
  datatype Decoded<+T> = Decoded(value: T, next: nat)

  /** The argument after an initial byte; multi-byte reads clamp, the one-byte read does not. */
  function DecodeArg(buf: seq<Byte>, i: nat, minor: nat): (r: Result<Arg, Error>)
    ensures r.Ok? ==> r.value.next >= i && r.value.val < TWO64
  {
    Pow256Values();
    if minor < 24 then Ok(Arg(minor, i))
    else if minor == 24 then
      if i >= |buf| then Err(IndexOutOfRange)
      else if buf[i] < 24 then Err(NonShortest)
      else Ok(Arg(buf[i], i + 1))
    else if minor == 25 then DecodeWide(buf, i, 2, 0x100)
    else if minor == 26 then DecodeWide(buf, i, 4, 0x1_0000)
    else if minor == 27 then DecodeWide(buf, i, 8, 0x1_0000_0000)
    else Err(UnsupportedInfo)
  }

  function DecodeWide(buf: seq<Byte>, i: nat, width: nat, least: nat): (r: Result<Arg, Error>)
    requires width in {2, 4, 8}
    ensures r.Ok? ==> r.value.next == i + width && r.value.val < TWO64
  {
    Pow256Values();
    var s := Slice(buf, i, i + width);
    var val := FromBig(s);
    Pow256Monotone(|s|, 8);
    if val < least then Err(NonShortest) else Ok(Arg(val, i + width))
  }

  lemma {:induction false} Pow256Monotone(a: nat, b: nat)
    requires a <= b
    ensures Pow256(a) <= Pow256(b)
    decreases b
  {
    if a < b { Pow256Monotone(a, b - 1); }
  }

  /** `cbor_decode(buf, i)`: the value and the index after it, which may lie past the end. */
  function Decode(buf: seq<Byte>, i: nat): (r: Result<Decoded<Value>, Error>)
    ensures r.Ok? ==> r.value.next > i && Encodable(r.value.value)
    decreases Remaining(buf, i), 0, 0
  {
    if i >= |buf| then Err(Truncated) else
    var major, minor := buf[i] / 32, buf[i] % 32;
    if major == 7 then
      if minor == 20 then Ok(Decoded(Bool(false), i + 1))
      else if minor == 21 then Ok(Decoded(Bool(true), i + 1))
      else Err(UnsupportedSimple)
    else
      match DecodeArg(buf, i + 1, minor)
      case Err(e) => Err(e)
      case Ok(Arg(val, j)) => DecodeBody(buf, i, major, val, j)
  }

  function DecodeBody(buf: seq<Byte>, i: nat, major: nat, val: nat, j: nat): (r: Result<Decoded<Value>, Error>)
    requires i < |buf| && i < j && val < TWO64 && major < 7
    ensures r.Ok? ==> r.value.next > i && Encodable(r.value.value)
    decreases Remaining(buf, j), 2, 0
  {
    if major == 0 then Ok(Decoded(Uint(val), j))
    else if major == 1 then Ok(Decoded(Nint(-1 - val), j))
    else if major == 2 then Ok(Decoded(Bstr(Slice(buf, j, j + val)), j + val))
    else if major == 3 then
      var s := Slice(buf, j, j + val);
      if ValidUtf8(s) then Ok(Decoded(Tstr(s), j + val)) else Err(InvalidUtf8)
    else if major == 4 then
      match DecodeItems(buf, j, val)
      case Err(e) => Err(e)
      case Ok(Decoded(vs, k)) => Ok(Decoded(Array(vs), k))
    else if major == 5 then
      match DecodePairs(buf, j, val, None)
      case Err(e) => Err(e)
      case Ok(Decoded(ps, k)) => Ok(Decoded(Map(ps), k))
    else Err(UnsupportedMajor)
  }

  function DecodeItems(buf: seq<Byte>, i: nat, count: nat): (r: Result<Decoded<seq<Value>>, Error>)
    ensures r.Ok? ==> r.value.next >= i && |r.value.value| == count && EncodableAll(r.value.value)
    decreases Remaining(buf, i), 1, count
  {
    if count == 0 then Ok(Decoded([], i)) else
    match Decode(buf, i)
    case Err(e) => Err(e)
    case Ok(Decoded(v, j)) =>
      match DecodeItems(buf, j, count - 1)
      case Err(e) => Err(e)
      case Ok(Decoded(vs, k)) => Ok(Decoded([v] + vs, k))
  }

  function DecodePairs(buf: seq<Byte>, i: nat, count: nat, prev: Option<seq<Byte>>)
    : (r: Result<Decoded<seq<Pair>>, Error>)
    ensures r.Ok? ==> r.value.next >= i && |r.value.value| == count && EncodablePairs(r.value.value)
    decreases Remaining(buf, i), 1, count
  {
    if count == 0 then Ok(Decoded([], i)) else
    match Decode(buf, i)
    case Err(e) => Err(e)
    case Ok(Decoded(key, j)) =>
      match Decode(buf, j)
      case Err(e) => Err(e)
      case Ok(Decoded(value, k)) =>
        if prev.Some? && LexLeq(Encode(key), prev.value) then Err(KeyOrder) else
        match DecodePairs(buf, k, count - 1, Some(Encode(key)))
        case Err(e) => Err(e)
        case Ok(Decoded(ps, m)) => Ok(Decoded([Pair(key, value)] + ps, m))
  }

  function DecodeExact(buf: seq<Byte>): Result<Value, Error> {
    match Decode(buf, 0)
    case Err(e) => Err(e)
    case Ok(Decoded(v, end)) => if end == |buf| then Ok(v) else Err(Trailing)
  }
}
