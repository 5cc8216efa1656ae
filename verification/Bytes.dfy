/** Octets, results, and the big-endian integers of the wire format. */
module Bytes {

  type Byte = x: int | 0 <= x < 256

  datatype Option<+T> = None | Some(value: T)

  datatype Result<+T, +E> = Ok(value: T) | Err(error: E)

  /** 256 to the power k, the number of k-byte big-endian integers. */
  function Pow256(k: nat): (r: nat)
    ensures r > 0
  {
    if k == 0 then 1 else 256 * Pow256(k - 1)
  }

  /** The k-byte big-endian form of n (`int.to_bytes(k, "big")`). */
  function ToBig(n: nat, k: nat): (bs: seq<Byte>)
    requires n < Pow256(k)
    ensures |bs| == k
  {
    if k == 0 then [] else ToBig(n / 256, k - 1) + [n % 256]
  }

  /** `int.from_bytes(bs, "big")`; the empty string is zero. */
  function FromBig(bs: seq<Byte>): (n: nat)
    ensures n < Pow256(|bs|)
  {
    if |bs| == 0 then 0 else 256 * FromBig(bs[..|bs| - 1]) + bs[|bs| - 1]
  }

  lemma {:induction false} BigRoundTrip(n: nat, k: nat)
    requires n < Pow256(k)
    ensures FromBig(ToBig(n, k)) == n
  {
    if k > 0 {
      BigRoundTrip(n / 256, k - 1);
      assert ToBig(n, k)[..k - 1] == ToBig(n / 256, k - 1);
    }
  }

  lemma {:induction false} BigUnique(bs: seq<Byte>)
    ensures ToBig(FromBig(bs), |bs|) == bs
  {
    if |bs| > 0 {
      var init := bs[..|bs| - 1];
      BigUnique(init);
      var n := FromBig(bs);
      assert n / 256 == FromBig(init) && n % 256 == bs[|bs| - 1];
    }
  }

  lemma Pow256Values()
    ensures Pow256(1) == 0x100 && Pow256(2) == 0x1_0000 && Pow256(4) == 0x1_0000_0000
    ensures Pow256(8) == 0x1_0000_0000_0000_0000
  {
    assert Pow256(3) == 0x100_0000;
    assert Pow256(5) == 0x100_0000_0000;
    assert Pow256(6) == 0x1_0000_0000_0000;
    assert Pow256(7) == 0x100_0000_0000_0000;
  }

  /** A Python slice `buf[i:j]`, which clamps both ends instead of failing. */
  function Slice(buf: seq<Byte>, i: nat, j: nat): (s: seq<Byte>)
    requires i <= j
    ensures |s| <= j - i
    ensures j <= |buf| ==> s == buf[i..j] && |s| == j - i
  {
    var hi := if j <= |buf| then j else |buf|;
    var lo := if i <= hi then i else hi;
    buf[lo..hi]
  }

  /** Python's `a <= b` on bytes: lexicographic, a proper prefix being smaller. */
  predicate LexLeq(a: seq<Byte>, b: seq<Byte>)
  {
    if a == [] then true
    else if b == [] then false
    else a[0] < b[0] || (a[0] == b[0] && LexLeq(a[1..], b[1..]))
  }

  /** A slice that reaches past the end stops there; one that begins past it is empty. */
  lemma SliceClamps(buf: seq<Byte>, i: nat, j: nat)
    requires i <= j && |buf| < j
    ensures Slice(buf, i, j) == if i <= |buf| then buf[i..] else []
  {
  }

  /** The two agree up to k, where a is smaller. */
  predicate SmallerAt(a: seq<Byte>, b: seq<Byte>, k: nat) {
    k < |a| && k < |b| && a[..k] == b[..k] && a[k] < b[k]
  }

  /** The order is decided at the first difference, or by being a prefix. */
  lemma {:induction false} LexLeqIff(a: seq<Byte>, b: seq<Byte>)
    ensures LexLeq(a, b) <==> a <= b || exists k :: SmallerAt(a, b, k)
  {
    if a != [] && b != [] {
      var s, t := a[1..], b[1..];
      LexLeqIff(s, t);
      if a[0] < b[0] {
        assert SmallerAt(a, b, 0);
      } else if a[0] == b[0] {
        assert a == [a[0]] + s && b == [b[0]] + t;
        if k: nat :| SmallerAt(s, t, k) {
          assert a[..k + 1] == [a[0]] + s[..k] && b[..k + 1] == [b[0]] + t[..k];
          assert SmallerAt(a, b, k + 1);
        }
        if k: nat :| SmallerAt(a, b, k) {
          assert k > 0;
          assert s[..k - 1] == a[..k][1..] && t[..k - 1] == b[..k][1..];
          assert SmallerAt(s, t, k - 1);
        }
      } else if k: nat :| SmallerAt(a, b, k) {
        assert k > 0 ==> a[0] == a[..k][0] && b[0] == b[..k][0];
      }
    }
  }
}
