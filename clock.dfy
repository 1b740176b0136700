/**
 * The clock block's text, chrono's `format("%F %T")` (src/main.rs:120), from
 * the fields of a local date and time. Reading the clock and converting to the
 * local time zone happen outside the model; the fields are an input.
 */
module Clock {

  import opened Text

  /**
   * A local date and time reduced to what `%F %T` prints. `second` is the
   * number chrono prints for `%S`, so a leap second already reads as 60.
   */
  datatype LocalDateTime = LocalDateTime(year: int, month: nat, day: nat, hour: nat, minute: nat, second: nat)

  /**
   * chrono's `%Y`: years 0 to 9999 as four digits with leading zeros; any
   * other year with an explicit sign, its magnitude padded to four digits.
   */
  function YearText(y: int): string {
    YearSign(y) + PadZero(Magnitude(y), 4)
  }

  /** No sign for years 0 to 9999; otherwise `-` or `+`. */
  function YearSign(y: int): string {
    if 0 <= y < 10000 then "" else if y < 0 then "-" else "+"
  }

  function Magnitude(y: int): nat {
    if y < 0 then -y else y
  }

  /** `%F %T`, that is `%Y-%m-%d %H:%M:%S`, every field but the year padded to two digits. */
  function Format(t: LocalDateTime): string {
    YearText(t.year) + "-" + PadZero(t.month, 2) + "-" + PadZero(t.day, 2) + " "
      + PadZero(t.hour, 2) + ":" + PadZero(t.minute, 2) + ":" + PadZero(t.second, 2)
  }

  /** Field values a calendar clock produces, with the year in chrono's four-digit range. */
  predicate InRange(t: LocalDateTime) {
    0 <= t.year <= 9999 && 1 <= t.month <= 12 && 1 <= t.day <= 31
    && t.hour < 24 && t.minute < 60 && t.second <= 60
  }

  lemma {:induction false} PadTwo(n: nat)
    requires n < 100
    ensures |PadZero(n, 2)| == 2
  {
    assert Pow10(2) == 100;
    NatTextLength(n, 2);
  }

  lemma {:induction false} PadFour(n: nat)
    requires n < 10000
    ensures |PadZero(n, 4)| == 4
  {
    assert Pow10(4) == 10000;
    NatTextLength(n, 4);
  }

  /** Years 0 to 9999 are written as exactly four digits, with no sign, that read back as the year. */
  lemma YearTextInRange(y: int)
    requires 0 <= y < 10000
    ensures YearText(y) == PadZero(y, 4)
    ensures |YearText(y)| == 4 && AllDigits(YearText(y)) && DigitsValue(YearText(y)) == y
  {
    assert YearSign(y) == "" && Magnitude(y) == y;
    PadFour(y);
  }

  /** Where the six groups and five separators of `%F %T` sit in the text. */
  lemma Layout(y: string, mo: string, d: string, h: string, mi: string, s: string)
    requires |y| == 4 && |mo| == 2 && |d| == 2 && |h| == 2 && |mi| == 2 && |s| == 2
    ensures var r := y + "-" + mo + "-" + d + " " + h + ":" + mi + ":" + s;
      |r| == 19
      && r[4] == '-' && r[7] == '-' && r[10] == ' ' && r[13] == ':' && r[16] == ':'
      && r[0..4] == y && r[5..7] == mo && r[8..10] == d
      && r[11..13] == h && r[14..16] == mi && r[17..19] == s
  {
    var r := y + "-" + mo + "-" + d + " " + h + ":" + mi + ":" + s;
    var p1 := y + "-" + mo + "-" + d + " ";
    var p2 := h + ":" + mi + ":" + s;
    assert r == p1 + p2;
    assert p1[0..4] == y && p1[5..7] == mo && p1[8..10] == d;
    assert p2[0..2] == h && p2[3..5] == mi && p2[6..8] == s;
    assert r[0..4] == p1[0..4];
    assert r[5..7] == p1[5..7];
    assert r[8..10] == p1[8..10];
    assert r[11..13] == p2[0..2];
    assert r[14..16] == p2[3..5];
    assert r[17..19] == p2[6..8];
  }

  /**
   * For a calendar date in years 0 to 9999 the text has the shape
   * `YYYY-MM-DD HH:MM:SS`, and each digit group reads back as its field.
   */
  lemma FormatShape(t: LocalDateTime)
    requires InRange(t)
    ensures var r := Format(t);
      |r| == 19
      && r[4] == '-' && r[7] == '-' && r[10] == ' ' && r[13] == ':' && r[16] == ':'
      && AllDigits(r[0..4]) && DigitsValue(r[0..4]) == t.year
      && AllDigits(r[5..7]) && DigitsValue(r[5..7]) == t.month
      && AllDigits(r[8..10]) && DigitsValue(r[8..10]) == t.day
      && AllDigits(r[11..13]) && DigitsValue(r[11..13]) == t.hour
      && AllDigits(r[14..16]) && DigitsValue(r[14..16]) == t.minute
      && AllDigits(r[17..19]) && DigitsValue(r[17..19]) == t.second
  {
    YearTextInRange(t.year);
    PadFour(t.year);
    PadTwo(t.month);
    PadTwo(t.day);
    PadTwo(t.hour);
    PadTwo(t.minute);
    PadTwo(t.second);
    Layout(PadZero(t.year, 4), PadZero(t.month, 2), PadZero(t.day, 2),
           PadZero(t.hour, 2), PadZero(t.minute, 2), PadZero(t.second, 2));
  }
}
