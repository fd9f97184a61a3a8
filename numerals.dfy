/** Decimal rendering of integers, as Python's str() renders an int. */
module Numerals {

  function DigitChar(d: nat): (c: char)
    requires d < 10
    ensures '0' <= c <= '9'
  {
    (48 + d) as char
  }

  predicate IsDigitString(s: string) {
    forall i :: 0 <= i < |s| ==> '0' <= s[i] <= '9'
  }

  /** The decimal digits of n, most significant first, without leading zeros. */
  function NatToString(n: nat): (s: string)
    ensures |s| >= 1 && IsDigitString(s)
    ensures n >= 10 ==> |s| >= 2
    decreases n
  {
    if n < 10 then [DigitChar(n)] else NatToString(n / 10) + [DigitChar(n % 10)]
  }

  /** str(i) for a Python int: a minus sign before the digits of a negative number. */
  function IntToString(i: int): (s: string)
    ensures |s| >= 1
    ensures i >= 0 <==> IsDigitString(s)
  {
    if i < 0 then
      var s := "-" + NatToString(-i);
      assert s[0] == '-';
      s
    else NatToString(i)
  }

  /** The number a digit string denotes in base ten, most significant digit first. */
  function DigitsValue(s: string): nat
    requires IsDigitString(s)
    decreases |s|
  {
    if s == [] then 0 else 10 * DigitsValue(s[..|s| - 1]) + (s[|s| - 1] as int - '0' as int)
  }

  /** A string Python's int() accepts back: digits, or a minus sign and digits. */
  predicate IsNumeral(s: string) {
    IsDigitString(s) || (|s| >= 2 && s[0] == '-' && IsDigitString(s[1..]))
  }

  /** The integer a numeral denotes. */
  function NumeralValue(s: string): int
    requires IsNumeral(s)
  {
    if IsDigitString(s) then DigitsValue(s) else -(DigitsValue(s[1..]) as int)
  }

  /** The rendering of n reads back, in base ten, as n. */
  lemma {:induction false} NatToStringValue(n: nat)
    ensures DigitsValue(NatToString(n)) == n
    decreases n
  {
    if n >= 10 {
      var s := NatToString(n);
      assert s[..|s| - 1] == NatToString(n / 10);
      assert s[|s| - 1] == DigitChar(n % 10);
      NatToStringValue(n / 10);
    }
  }

  /** A minus sign before a digit string denotes the negated value of the digits. */
  lemma NegativeNumeral(d: string)
    requires |d| >= 1 && IsDigitString(d)
    ensures IsNumeral("-" + d) && NumeralValue("-" + d) == -(DigitsValue(d) as int)
  {
    var s := "-" + d;
    assert s[0] == '-' && s[1..] == d;
  }

  /** str(i) reads back as i, sign included. */
  lemma {:induction false} IntToStringValue(i: int)
    ensures IsNumeral(IntToString(i)) && NumeralValue(IntToString(i)) == i
  {
    if i < 0 {
      assert IntToString(i) == "-" + NatToString(-i);
      NatToStringValue(-i);
      NegativeNumeral(NatToString(-i));
    } else {
      NatToStringValue(i);
    }
  }

  /** Different numbers have different renderings. */
  lemma {:induction false} NatToStringInjective(a: nat, b: nat)
    ensures NatToString(a) == NatToString(b) <==> a == b
    decreases a
  {
    if NatToString(a) == NatToString(b) && a >= 10 && b >= 10 {
      var sa, sb := NatToString(a), NatToString(b);
      assert sa[|sa| - 1] == DigitChar(a % 10) && sb[|sb| - 1] == DigitChar(b % 10);
      assert sa[..|sa| - 1] == NatToString(a / 10);
      assert sb[..|sb| - 1] == NatToString(b / 10);
      NatToStringInjective(a / 10, b / 10);
    }
  }

  /** After its minus sign, the rendering of a negative number is the rendering of its magnitude. */
  lemma NegativeDigits(i: int)
    requires i < 0
    ensures IntToString(i)[1..] == NatToString(-i)
  {
    var d := NatToString(-i);
    assert ("-" + d)[1..] == d;
  }

  lemma {:induction false} IntToStringInjective(i: int, j: int)
    ensures IntToString(i) == IntToString(j) <==> i == j
  {
    if IntToString(i) == IntToString(j) {
      if i < 0 && j < 0 {
        NegativeDigits(i);
        NegativeDigits(j);
        NatToStringInjective(-i, -j);
      } else if i >= 0 && j >= 0 {
        NatToStringInjective(i, j);
      }
    }
  }

  /** The form Python's str() gives a natural number: digits with no leading zero, except for
      the number 0 itself. */
  predicate IsCanonicalDigits(s: string) {
    |s| >= 1 && IsDigitString(s) && (s[0] != '0' || |s| == 1)
  }

  /** The form str() gives an int: canonical digits, or a minus sign before canonical digits
      other than "0". */
  predicate IsCanonicalNumeral(s: string) {
    IsCanonicalDigits(s) || (|s| >= 2 && s[0] == '-' && IsCanonicalDigits(s[1..]) && s[1] != '0')
  }

  /** The rendering of n has no leading zero. */
  lemma {:induction false} NatToStringCanonical(n: nat)
    ensures IsCanonicalDigits(NatToString(n))
    ensures n >= 1 ==> NatToString(n)[0] != '0'
    decreases n
  {
    if n >= 10 {
      NatToStringCanonical(n / 10);
      assert NatToString(n)[0] == NatToString(n / 10)[0];
    }
  }

  /** str(i) is a canonical numeral. */
  lemma IntToStringCanonical(i: int)
    ensures IsCanonicalNumeral(IntToString(i))
  {
    if i < 0 {
      NatToStringCanonical(-i);
      NegativeDigits(i);
    } else {
      NatToStringCanonical(i);
    }
  }

  /** A digit string without a leading zero denotes a positive number. */
  lemma {:induction false} LeadingDigitPositive(s: string)
    requires |s| >= 1 && IsDigitString(s) && s[0] != '0'
    ensures DigitsValue(s) >= 1
    decreases |s|
  {
    if |s| >= 2 {
      LeadingDigitPositive(s[..|s| - 1]);
    }
  }

  /** Canonical digits are exactly what str() writes for the number they denote. */
  lemma {:induction false} DigitsRoundTrip(s: string)
    requires IsCanonicalDigits(s)
    ensures NatToString(DigitsValue(s)) == s
    decreases |s|
  {
    var d := s[|s| - 1] as int - '0' as int;
    assert DigitChar(d) == s[|s| - 1];
    if |s| == 1 {
      assert s[..0] == [];
      assert NatToString(DigitsValue(s)) == [DigitChar(d)];
    } else {
      var front := s[..|s| - 1];
      assert front[0] == s[0];
      LeadingDigitPositive(front);
      DigitsRoundTrip(front);
      var v := DigitsValue(s);
      assert v == 10 * DigitsValue(front) + d;
      assert v / 10 == DigitsValue(front) && v % 10 == d;
      assert s == front + [s[|s| - 1]];
    }
  }

  /** A canonical numeral is exactly what str() writes for the integer it denotes, so str()
      is a bijection between the integers and the canonical numerals. */
  lemma NumeralRoundTrip(s: string)
    requires IsCanonicalNumeral(s)
    ensures IsNumeral(s) && IntToString(NumeralValue(s)) == s
  {
    if IsCanonicalDigits(s) {
      DigitsRoundTrip(s);
    } else {
      var d := s[1..];
      assert s == "-" + d;
      DigitsRoundTrip(d);
      LeadingDigitPositive(d);
      NegativeNumeral(d);
    }
  }
}
