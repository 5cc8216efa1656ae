/** `cbor_decode` as the loops it is, proved against the function `Cbor.Decode`. */
module CborDecoder {
  import opened Bytes
  import opened Cbor

  /** What is left of a decode once `done` has been decoded. */
  function After<T>(done: seq<T>, rest: Result<Decoded<seq<T>>, Error>): Result<Decoded<seq<T>>, Error> {
    match rest
    case Err(e) => Err(e)
    case Ok(Decoded(vs, k)) => Ok(Decoded(done + vs, k))
  }

  lemma AfterNothing<T>(rest: Result<Decoded<seq<T>>, Error>)
    ensures After([], rest) == rest
  {
    if rest.Ok? { assert [] + rest.value.value == rest.value.value; }
  }

  method DecodeValue(buf: seq<Byte>, start: nat) returns (r: Result<Decoded<Value>, Error>)
    ensures r == Decode(buf, start)
    decreases Remaining(buf, start), 0
  {
    if start >= |buf| {
      return Err(Truncated);
    }
    var major, minor := buf[start] / 32, buf[start] % 32;
    if major == 7 {
      return if minor == 20 then Ok(Decoded(Bool(false), start + 1))
             else if minor == 21 then Ok(Decoded(Bool(true), start + 1))
             else Err(UnsupportedSimple);
    }
    var head := DecodeArg(buf, start + 1, minor);
    if head.Err? {
      return Err(head.error);
    }
    var val: nat, i: nat := head.value.val, head.value.next;
    if major == 0 {
      r := Ok(Decoded(Uint(val), i));
    } else if major == 1 {
      r := Ok(Decoded(Nint(-1 - val), i));
    } else if major == 2 {
      r := Ok(Decoded(Bstr(Slice(buf, i, i + val)), i + val));
    } else if major == 3 {
      var s := Slice(buf, i, i + val);
      r := if ValidUtf8(s) then Ok(Decoded(Tstr(s), i + val)) else Err(InvalidUtf8);
    } else if major == 4 {
      var items := DecodeArray(buf, i, val);
      r := if items.Err? then Err(items.error) else Ok(Decoded(Array(items.value.value), items.value.next));
    } else if major == 5 {
      var pairs := DecodeMap(buf, i, val);
      r := if pairs.Err? then Err(pairs.error) else Ok(Decoded(Map(pairs.value.value), pairs.value.next));
    } else {
      r := Err(UnsupportedMajor);
    }
  }

  method DecodeArray(buf: seq<Byte>, start: nat, count: nat) returns (r: Result<Decoded<seq<Value>>, Error>)
    ensures r == DecodeItems(buf, start, count)
    decreases Remaining(buf, start), 1
  {
    hide Decode;
    var arr: seq<Value>, i := [], start;
    AfterNothing(DecodeItems(buf, start, count));
    for n := 0 to count
      invariant start <= i
      invariant After(arr, DecodeItems(buf, i, count - n)) == DecodeItems(buf, start, count)
    {
      var item := DecodeValue(buf, i);
      if item.Err? {
        return Err(item.error);
      }
      ghost var rest := DecodeItems(buf, item.value.next, count - n - 1);
      assert rest.Ok? ==> (arr + [item.value.value]) + rest.value.value == arr + ([item.value.value] + rest.value.value);
      arr, i := arr + [item.value.value], item.value.next;
    }
    assert arr + [] == arr;
    r := Ok(Decoded(arr, i));
  }

  method DecodeMap(buf: seq<Byte>, start: nat, count: nat) returns (r: Result<Decoded<seq<Pair>>, Error>)
    ensures r == DecodePairs(buf, start, count, None)
    decreases Remaining(buf, start), 1
  {
    hide Decode, Encode, Encodable, LexLeq;
    var pairs: seq<Pair>, prev: Option<seq<Byte>>, i := [], None, start;
    AfterNothing(DecodePairs(buf, start, count, None));
    for n := 0 to count
      invariant start <= i
      invariant After(pairs, DecodePairs(buf, i, count - n, prev)) == DecodePairs(buf, start, count, None)
    {
      var key := DecodeValue(buf, i);
      if key.Err? {
        return Err(key.error);
      }
      var value := DecodeValue(buf, key.value.next);
      if value.Err? {
        return Err(value.error);
      }
      var keyBytes := Encode(key.value.value);
      if prev.Some? && LexLeq(keyBytes, prev.value) {
        return Err(KeyOrder);
      }
      var pair := Pair(key.value.value, value.value.value);
      ghost var rest := DecodePairs(buf, value.value.next, count - n - 1, Some(keyBytes));
      assert rest.Ok? ==> (pairs + [pair]) + rest.value.value == pairs + ([pair] + rest.value.value);
      prev, pairs, i := Some(keyBytes), pairs + [pair], value.value.next;
    }
    assert pairs + [] == pairs;
    r := Ok(Decoded(pairs, i));
  }

  /** `cbor_decode_exact`: a value comes back exactly for a canonical encoding of it. */
  method DecodeWhole(buf: seq<Byte>) returns (r: Result<Value, Error>)
    ensures r == DecodeExact(buf)
  {
    var d := DecodeValue(buf, 0);
    if d.Err? {
      r := Err(d.error);
    } else if d.value.next != |buf| {
      r := Err(Trailing);
    } else {
      r := Ok(d.value.value);
    }
  }
}
