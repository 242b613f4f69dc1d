/**
  Java's 32-bit `int` and the two conversions the application uses on it:
  `Integer.toString` (string concatenation of an int) and `Integer.parseInt`.
  Only ASCII digits are modelled.
*/
module JavaInt {
  import opened Wrappers

  const INT_MIN: int := -0x8000_0000
  const INT_MAX: int := 0x7fff_ffff

  /** A Java `int`. */
  type Int32 = x: int | INT_MIN <= x <= INT_MAX

  predicate IsDigit(c: char) {
    '0' <= c <= '9'
  }

  predicate AllDigits(s: string) {
    forall i :: 0 <= i < |s| ==> IsDigit(s[i])
  }

  function DigitChar(d: nat): (c: char)
    requires d < 10
    ensures IsDigit(c) && c as int - '0' as int == d
  {
    ('0' as int + d) as char
  }

  function DigitValue(c: char): nat
    requires IsDigit(c)
  {
    c as int - '0' as int
  }

  /** The value of a run of decimal digits, most significant digit first. */
  function DigitsValue(s: string): nat
    requires AllDigits(s)
  {
    if s == [] then 0 else DigitsValue(s[..|s| - 1]) * 10 + DigitValue(s[|s| - 1])
  }

  function Pow10(w: nat): (p: nat)
    ensures p >= 1
  {
    if w == 0 then 1 else 10 * Pow10(w - 1)
  }

  /** A run of `w` digits has a value below 10^w. */
  lemma {:induction false} DigitsValueBound(s: string)
    requires AllDigits(s)
    ensures DigitsValue(s) < Pow10(|s|)
  {
    if s != [] {
      DigitsValueBound(s[..|s| - 1]);
    }
  }

  /** A run of digits is worth at least its leading digit times 10^(length - 1). */
  lemma {:induction false} DigitsValueLeading(s: string)
    requires s != [] && AllDigits(s)
    ensures DigitsValue(s) >= DigitValue(s[0]) * Pow10(|s| - 1)
  {
    if |s| > 1 {
      var p := s[..|s| - 1];
      DigitsValueLeading(p);
      assert p[0] == s[0];
      var d, q, v := DigitValue(s[0]), Pow10(|p| - 1), DigitsValue(p);
      assert Pow10(|s| - 1) == 10 * q;
      assert DigitsValue(s) >= v * 10;
      ScaleByTen(v, d, q);
    }
  }

  lemma ScaleByTen(v: int, d: int, q: int)
    requires v >= d * q
    ensures v * 10 >= d * (10 * q)
  {
    assert d * (10 * q) == (d * q) * 10;
  }

  /** The decimal text of a natural number, without leading zeros. */
  function NatToString(n: nat): string {
    if n < 10 then [DigitChar(n)] else NatToString(n / 10) + [DigitChar(n % 10)]
  }

  /** The text of `n` is a non-empty run of digits whose value is `n`. */
  lemma {:induction false} NatToStringValue(n: nat)
    ensures var s := NatToString(n); s != [] && AllDigits(s) && DigitsValue(s) == n
  {
    if n >= 10 {
      NatToStringValue(n / 10);
      var s := NatToString(n);
      assert s[..|s| - 1] == NatToString(n / 10);
    }
  }

  /** `Integer.toString(i)`: a minus sign for a negative value, then the digits of its magnitude. */
  function IntToString(i: int): string
    decreases if i < 0 then 1 else 0
  {
    if i < 0 then "-" + IntToString(-i) else NatToString(i)
  }

  /** The text of an int is not empty and holds only digits, after a leading '-' when negative. */
  lemma IntToStringShape(i: int)
    ensures var s := IntToString(i);
      s != [] && forall k :: 0 <= k < |s| ==> IsDigit(s[k]) || (k == 0 && s[k] == '-' && i < 0)
  {
    if i < 0 {
      NatToStringValue(-i);
    } else {
      NatToStringValue(i);
    }
  }

  /**
    `Integer.parseInt(s)`: an optional '+' or '-', then one or more digits, whose value must
    fit in an int. None stands for the NumberFormatException Java throws otherwise.
  */
  function ParseInt(s: string): Option<Int32> {
    if s == [] then None
    else
      var digits := if s[0] == '-' || s[0] == '+' then s[1..] else s;
      if digits == [] || !AllDigits(digits) then None
      else
        var magnitude: int := DigitsValue(digits);
        var v := if s[0] == '-' then -magnitude else magnitude;
        if INT_MIN <= v <= INT_MAX then Some(v) else None
  }

  /** Printing an int and parsing the text back gives the same int. */
  lemma {:induction false} ParseIntToString(i: Int32)
    ensures ParseInt(IntToString(i)) == Some(i)
  {
    var s := IntToString(i);
    if i < 0 {
      NatToStringValue(-(i as int));
      assert IntToString(-(i as int)) == NatToString(-(i as int));
      assert s == "-" + IntToString(-(i as int));
      assert s[1..] == NatToString(-(i as int));
    } else {
      NatToStringValue(i as int);
      assert s == NatToString(i as int);
      assert IsDigit(s[0]);
    }
  }

  lemma {:induction false} Pow10Monotone(a: nat, b: nat)
    requires a <= b
    ensures Pow10(a) <= Pow10(b)
    decreases b - a
  {
    if a < b {
      Pow10Monotone(a + 1, b);
    }
  }

  /** A run of at most nine digits always parses, to its decimal value. */
  lemma ParseIntOfDigits(s: string)
    requires s != [] && AllDigits(s) && |s| <= 9
    ensures ParseInt(s) == Some(DigitsValue(s))
  {
    DigitsValueBound(s);
    Pow10Monotone(|s|, 9);
    assert Pow10(9) == 1_000_000_000;
  }
}
