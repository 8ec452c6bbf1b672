/** Numbers written out in decimal, as names are built from row ids. */
module Decimals {
  const DIGITS: string := "0123456789"

  function Decimal(n: nat): (s: string)
    ensures s != "" && forall i :: 0 <= i < |s| ==> '0' <= s[i] <= '9'
  {
    if n < 10 then [DIGITS[n]] else Decimal(n / 10) + [DIGITS[n % 10]]
  }

  lemma DigitsDiffer(m: nat, n: nat)
    requires m < 10 && n < 10 && DIGITS[m] == DIGITS[n]
    ensures m == n
  {
  }

  lemma {:induction false} DecimalIsInjective(m: nat, n: nat)
    requires Decimal(m) == Decimal(n)
    ensures m == n
  {
    var s, t := Decimal(m), Decimal(n);
    DigitsDiffer(m % 10, n % 10) by {
      assert s[|s| - 1] == DIGITS[m % 10] && t[|t| - 1] == DIGITS[n % 10];
    }
    if m >= 10 && n >= 10 {
      assert s[..|s| - 1] == Decimal(m / 10) && t[..|t| - 1] == Decimal(n / 10);
      DecimalIsInjective(m / 10, n / 10);
    }
  }

  /** The number that digits stand for. */
  function Numeral(s: string): int {
    if s == "" then 0 else 10 * Numeral(s[..|s| - 1]) + (s[|s| - 1] as int - '0' as int)
  }

  /** Written out, a number stands for itself, without leading zeros. */
  lemma {:induction false} DecimalDenotes(n: nat)
    ensures Numeral(Decimal(n)) == n
    ensures Decimal(n)[0] == '0' ==> n == 0
  {
    var s := Decimal(n);
    assert DIGITS[n % 10] as int - '0' as int == n % 10;
    if n >= 10 {
      DecimalDenotes(n / 10);
      assert s[..|s| - 1] == Decimal(n / 10);
    } else {
      assert s[..0] == "" && Numeral("") == 0;
    }
  }

  predicate Digits(s: string) {
    forall i :: 0 <= i < |s| ==> '0' <= s[i] <= '9'
  }

  predicate Separate(tail: string) {
    tail == "" || tail[0] == '_'
  }

  lemma DigitsEnd(a: string, tail: string, b: string, tail': string)
    requires Digits(a) && Digits(b) && Separate(tail) && a + tail == b + tail'
    ensures |b| <= |a|
  {
    var whole := a + tail;
    assert whole == b + tail';
    assert forall i :: 0 <= i < |b| ==> whole[i] == b[i];
    assert tail != "" ==> whole[|a|] == '_';
  }

  /** A number ends where the digits end, so what follows it tells nothing new. */
  lemma NumberedNamesDiffer(prefix: string, m: nat, tail: string, n: nat, tail': string)
    requires Separate(tail) && Separate(tail')
    requires prefix + Decimal(m) + tail == prefix + Decimal(n) + tail'
    ensures m == n && tail == tail'
  {
    var a, b := Decimal(m), Decimal(n);
    hide Decimal;
    assert prefix + a + tail == prefix + (a + tail) && prefix + b + tail' == prefix + (b + tail');
    assert a + tail == (prefix + (a + tail))[|prefix|..] && b + tail' == (prefix + (b + tail'))[|prefix|..];
    DigitsEnd(a, tail, b, tail');
    DigitsEnd(b, tail', a, tail);
    assert a == (a + tail)[..|a|] && b == (b + tail')[..|b|] && tail == (a + tail)[|a|..] && tail' == (b + tail')[|b|..];
    DecimalIsInjective(m, n);
  }
}
