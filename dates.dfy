/**
  The creation date of an item: `java.time.LocalDate`, printed by `toString()` and read
  back by `LocalDate.parse`, both in the ISO yyyy-MM-dd form. Years are restricted to
  0000..9999, the range where that form has exactly four year digits and no sign.
*/
module Dates {
  import opened Wrappers
  import opened JavaInt

  datatype Date = Date(year: int, month: int, day: int)

  /** The proleptic Gregorian leap-year rule of the ISO calendar. */
  predicate IsLeapYear(y: int) {
    y % 4 == 0 && (y % 100 != 0 || y % 400 == 0)
  }

  function DaysInMonth(y: int, m: int): int {
    if m == 2 then (if IsLeapYear(y) then 29 else 28)
    else if m == 4 || m == 6 || m == 9 || m == 11 then 30
    else 31
  }

  predicate IsValidDate(d: Date) {
    0 <= d.year <= 9999 && 1 <= d.month <= 12 && 1 <= d.day <= DaysInMonth(d.year, d.month)
  }

  type LocalDate = d: Date | IsValidDate(d) witness Date(2000, 1, 1)

  /** The `w` low decimal digits of `n`, zero-padded on the left. */
  function PaddedDigits(n: nat, w: nat): string {
    if w == 0 then [] else PaddedDigits(n / 10, w - 1) + [DigitChar(n % 10)]
  }

  /** A number below 10^w pads to exactly `w` digits whose value is the number. */
  lemma {:induction false} PaddedDigitsValue(n: nat, w: nat)
    requires n < Pow10(w)
    ensures var s := PaddedDigits(n, w); |s| == w && AllDigits(s) && DigitsValue(s) == n
  {
    if w > 0 {
      PaddedDigitsValue(n / 10, w - 1);
      var s := PaddedDigits(n, w);
      assert s[..|s| - 1] == PaddedDigits(n / 10, w - 1);
    }
  }

  /** `LocalDate.toString()`: yyyy-MM-dd. */
  function FormatIsoDate(d: LocalDate): string {
    PaddedDigits(d.year, 4) + "-" + PaddedDigits(d.month, 2) + "-" + PaddedDigits(d.day, 2)
  }

  /** A printed date is ten characters: digits, with '-' at positions 4 and 7. */
  lemma FormatIsoDateShape(d: LocalDate)
    ensures var s := FormatIsoDate(d);
      |s| == 10 && s[4] == '-' && s[7] == '-'
      && forall k :: 0 <= k < |s| && k != 4 && k != 7 ==> IsDigit(s[k])
  {
    PaddedDigitsValue(d.year, 4);
    PaddedDigitsValue(d.month, 2);
    PaddedDigitsValue(d.day, 2);
  }

  /**
    `LocalDate.parse(s)` with the ISO local-date format: four year digits, two month digits and
    two day digits separated by '-', naming a day that exists. None stands for the
    DateTimeParseException Java throws otherwise.
  */
  function ParseIsoDate(s: string): (r: Option<LocalDate>)
    ensures r.Some? ==> |s| == 10
  {
    if |s| == 10 && s[4] == '-' && s[7] == '-'
       && AllDigits(s[..4]) && AllDigits(s[5..7]) && AllDigits(s[8..])
    then
      var d := Date(DigitsValue(s[..4]), DigitsValue(s[5..7]), DigitsValue(s[8..]));
      if IsValidDate(d) then Some(d) else None
    else None
  }

  /** Printing a date and parsing the text back gives the same date. */
  lemma ParseFormatIsoDate(d: LocalDate)
    ensures ParseIsoDate(FormatIsoDate(d)) == Some(d)
  {
    var y, m, dd := PaddedDigits(d.year, 4), PaddedDigits(d.month, 2), PaddedDigits(d.day, 2);
    PaddedDigitsValue(d.year, 4);
    PaddedDigitsValue(d.month, 2);
    PaddedDigitsValue(d.day, 2);
    IsoSlices(y, m, dd);
    assert Date(DigitsValue(y), DigitsValue(m), DigitsValue(dd)) == d;
  }

  /** Where the parts of a yyyy-MM-dd text sit. */
  lemma IsoSlices(y: string, m: string, d: string)
    requires |y| == 4 && |m| == 2 && |d| == 2
    ensures var s := y + "-" + m + "-" + d;
      |s| == 10 && s[..4] == y && s[4] == '-' && s[5..7] == m && s[7] == '-' && s[8..] == d
  {
  }

  /**
    The strict calendar check: 29 February of a year parses exactly when the year is a leap
    year, and then to that day.
  */
  lemma LeapDayIffLeapYear(y: nat)
    requires y <= 9999
    ensures var s := PaddedDigits(y, 4) + "-02-29";
      ParseIsoDate(s) == if IsLeapYear(y) then Some(Date(y, 2, 29)) else None
  {
    var s := PaddedDigits(y, 4) + "-02-29";
    PaddedDigitsValue(y, 4);
    assert s[..4] == PaddedDigits(y, 4);
    assert s[5..7] == "02" && s[8..] == "29";
    assert DigitsValue("02") == 2 by {
      assert "02"[..1] == "0";
    }
    assert DigitsValue("29") == 29 by {
      assert "29"[..1] == "2";
    }
  }

}
