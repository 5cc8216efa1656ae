/** Python's `str(n)` as ASCII bytes, and that it can be read back. */
module Decimal {
  import opened Bytes

  const MINUS: Byte := 45

  predicate IsDigit(b: Byte) {
    48 <= b <= 57
  }

  predicate AllDigits(s: seq<Byte>) {
    forall i :: 0 <= i < |s| ==> IsDigit(s[i])
  }

  function Digits(n: nat): (s: seq<Byte>)
    ensures |s| >= 1 && AllDigits(s)
    ensures |s| > 1 ==> s[0] != 48
  {
    if n < 10 then [48 + n] else Digits(n / 10) + [48 + n % 10]
  }

  function Str(n: int): (s: seq<Byte>)
    ensures |s| >= 1
    ensures forall i :: 0 <= i < |s| ==> IsDigit(s[i]) || s[i] == MINUS
  {
    if n < 0 then [MINUS] + Digits(-n) else Digits(n)
  }

  /** `int(s)` on a digit string. */
  function Parse(s: seq<Byte>): nat
    requires AllDigits(s)
  {
    if s == [] then 0 else 10 * Parse(s[..|s| - 1]) + (s[|s| - 1] - 48)
  }

  lemma {:induction false} ParseDigits(n: nat)
    ensures Parse(Digits(n)) == n
  {
    var s := Digits(n);
    if n < 10 {
      assert s[..|s| - 1] == [];
    } else {
      ParseDigits(n / 10);
      assert s[..|s| - 1] == Digits(n / 10);
    }
  }

  /** A digit string without a superfluous leading zero is the canonical form of its value. */
  lemma {:induction false} DigitsParse(s: seq<Byte>)
    requires |s| >= 1 && AllDigits(s) && (|s| > 1 ==> s[0] != 48)
    ensures Digits(Parse(s)) == s
    ensures |s| > 1 ==> Parse(s) >= 10
  {
    var init, last := s[..|s| - 1], s[|s| - 1];
    if |s| > 1 {
      DigitsParse(init);
      if |init| == 1 {
        assert init[0] == s[0] && init[..0] == [];
        assert Parse(init) == init[0] - 48;
      }
      var n := Parse(s);
      assert n == 10 * Parse(init) + (last - 48);
      assert n / 10 == Parse(init) && n % 10 == last - 48;
      assert init + [last] == s;
    } else {
      assert init == [] && s == [last];
    }
  }

  lemma StrInjective(m: int, n: int)
    requires Str(m) == Str(n)
    ensures m == n
  {
    hide Digits, Parse;
    assert m < 0 <==> Str(m)[0] == MINUS;
    assert n < 0 <==> Str(n)[0] == MINUS;
    if m < 0 {
      assert Str(m)[1..] == Digits(-m) && Str(n)[1..] == Digits(-n);
      ParseDigits(-m);
      ParseDigits(-n);
    } else {
      ParseDigits(m);
      ParseDigits(n);
    }
  }
}
