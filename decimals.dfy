/** Python's `str` on integers, as `rotate` uses it to compare a page number
    with the string entries of a page selection, and its canonical inverse. */
module Decimals {
  import opened Wrappers

  predicate IsDigit(c: char) {
    '0' <= c <= '9'
  }

  function DigitValue(c: char): (d: nat)
    requires IsDigit(c)
    ensures d < 10
  {
    c as int - '0' as int
  }

  function DigitChar(d: nat): (c: char)
    requires d < 10
    ensures IsDigit(c) && DigitValue(c) == d
  {
    ('0' as int + d) as char
  }

  /** The decimal digits of `n`, most significant first, with no leading zero. */
  function NatDecimal(n: nat): (s: string)
    ensures |s| > 0 && AllDigits(s)
    decreases n
  {
    if n < 10 then [DigitChar(n)] else NatDecimal(n / 10) + [DigitChar(n % 10)]
  }

  /** `str(i)` for a Python int: a minus sign for negatives, then the digits. */
  function Decimal(i: int): (s: string)
    ensures |s| > 0
    ensures s[0] == '-' <==> i < 0
    ensures i < 0 ==> |s| > 1 && AllDigits(s[1..])
    ensures i >= 0 ==> AllDigits(s)
  {
    if i < 0 then "-" + NatDecimal(-i) else NatDecimal(i)
  }

  predicate AllDigits(s: string) {
    forall k | 0 <= k < |s| :: IsDigit(s[k])
  }

  /** A numeral `str` can produce for a natural number: digits only, at least
      one, and no leading zero unless the numeral is "0". */
  predicate Canonical(s: string) {
    |s| > 0 && AllDigits(s) && (s[0] == '0' ==> |s| == 1)
  }

  function DigitsValue(s: string): nat
    requires AllDigits(s)
  {
    if s == [] then 0 else DigitsValue(s[..|s| - 1]) * 10 + DigitValue(s[|s| - 1])
  }

  /** Reads a numeral back only when `str` could have produced it: "-" followed
      by a canonical non-zero numeral, or a canonical numeral. "01", "-0", "+1",
      " 1" and "" read as None. */
  function ParseDecimal(s: string): Option<int> {
    if |s| > 0 && s[0] == '-' then
      if Canonical(s[1..]) && s[1..] != "0" then Some(-(DigitsValue(s[1..]) as int)) else None
    else if Canonical(s) then Some(DigitsValue(s))
    else None
  }

  lemma DigitRoundTrip(c: char)
    requires IsDigit(c)
    ensures DigitChar(DigitValue(c)) == c
  {
  }

  /** The only canonical numeral with a leading zero is "0", of value 0. */
  lemma CanonicalLeadingZero(s: string)
    requires Canonical(s)
    ensures s[0] == '0' ==> s == "0" && DigitsValue(s) == 0
  {
    if s[0] == '0' {
      assert s[..0] == [];
    }
  }

  lemma {:induction false} LeadingNonZeroPositive(s: string)
    requires AllDigits(s) && |s| > 0 && s[0] != '0'
    ensures DigitsValue(s) > 0
    decreases |s|
  {
    var p := s[..|s| - 1];
    if |s| == 1 {
      assert p == [];
    } else {
      assert p[0] == s[0];
      LeadingNonZeroPositive(p);
    }
  }

  /** What `NatDecimal` produces is canonical and reads back as the number. */
  lemma {:induction false} NatDecimalCanonical(n: nat)
    ensures Canonical(NatDecimal(n)) && DigitsValue(NatDecimal(n)) == n
    decreases n
  {
    if n < 10 {
      assert NatDecimal(n)[..0] == [];
    } else {
      NatDecimalCanonical(n / 10);
      var s := NatDecimal(n / 10);
      var t := s + [DigitChar(n % 10)];
      assert t == NatDecimal(n);
      assert t[..|t| - 1] == s;
      CanonicalLeadingZero(s);
      assert t[0] == s[0];
    }
  }

  /** Every canonical numeral is what `NatDecimal` produces for its value. */
  lemma {:induction false} CanonicalNatDecimal(s: string)
    requires Canonical(s)
    ensures NatDecimal(DigitsValue(s)) == s
    decreases |s|
  {
    var p := s[..|s| - 1];
    var c := s[|s| - 1];
    if |s| == 1 {
      assert p == [];
      DigitRoundTrip(c);
      assert s == [c];
    } else {
      assert p[0] == s[0];
      assert Canonical(p);
      CanonicalNatDecimal(p);
      LeadingNonZeroPositive(p);
      var v := DigitsValue(s);
      assert v == DigitsValue(p) * 10 + DigitValue(c);
      assert v / 10 == DigitsValue(p) && v % 10 == DigitValue(c);
      DigitRoundTrip(c);
      assert s == p + [c];
    }
  }

  /** Reading back what `str` wrote gives the number again. */
  lemma DecimalRoundTrip(i: int)
    ensures ParseDecimal(Decimal(i)) == Some(i)
  {
    if i < 0 {
      var d := NatDecimal(-i);
      NatDecimalCanonical(-i);
      assert Decimal(i)[1..] == d;
      CanonicalLeadingZero(d);
    } else {
      NatDecimalCanonical(i);
    }
  }

  /** A numeral that reads as `i` is exactly `str(i)`: `str` has no other
      spelling for a number. */
  lemma DecimalCanonical(s: string, i: int)
    requires ParseDecimal(s) == Some(i)
    ensures Decimal(i) == s
  {
    if |s| > 0 && s[0] == '-' {
      var m := s[1..];
      CanonicalLeadingZero(m);
      LeadingNonZeroPositive(m);
      CanonicalNatDecimal(m);
      assert s == "-" + m;
    } else {
      CanonicalNatDecimal(s);
    }
  }

  /** Two integers have the same decimal form exactly when they are equal. */
  lemma DecimalInjective(i: int, j: int)
    ensures Decimal(i) == Decimal(j) <==> i == j
  {
    DecimalRoundTrip(i);
    DecimalRoundTrip(j);
  }
}
