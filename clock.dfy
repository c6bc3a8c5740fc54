/** The receive time stored with each buffered message, and its rendering with
    `strftime("%Y-%m-%d %H:%M")`. The source stores `datetime.now().isoformat()` and
    parses it back with `datetime.fromisoformat`; here the stored value is the
    date-time itself. */
module Clock {
  import opened Options

  function Pow10(n: nat): (p: nat)
    ensures p >= 1
  {
    if n == 0 then 1 else 10 * Pow10(n - 1)
  }

  predicate IsLeapYear(year: int) {
    year % 4 == 0 && (year % 100 != 0 || year % 400 == 0)
  }

  function DaysInMonth(year: int, month: int): int
    requires 1 <= month <= 12
  {
    if month == 2 then (if IsLeapYear(year) then 29 else 28)
    else if month == 4 || month == 6 || month == 9 || month == 11 then 30
    else 31
  }

  /** The fields of a Python `datetime` (naive local time). */
  datatype Instant = Instant(year: int, month: int, day: int, hour: int, minute: int, second: int, microsecond: int)
  {
    predicate Valid() {
      && 1 <= year <= 9999
      && 1 <= month <= 12
      && 1 <= day <= DaysInMonth(year, month)
      && 0 <= hour < 24
      && 0 <= minute < 60
      && 0 <= second < 60
      && 0 <= microsecond < 1000000
    }
  }

  /** A date-time that Python's `datetime` can represent. */
  type DateTime = t: Instant | t.Valid() witness Instant(1970, 1, 1, 0, 0, 0, 0)

  /** What the rendered stamp keeps of a date-time: everything down to the minute. */
  datatype Minute = Minute(year: nat, month: nat, day: nat, hour: nat, minute: nat)

  function MinuteOf(t: DateTime): Minute {
    Minute(t.year, t.month, t.day, t.hour, t.minute)
  }

  predicate IsDigit(ch: char) {
    '0' <= ch <= '9'
  }

  predicate AllDigits(s: string) {
    forall i :: 0 <= i < |s| ==> IsDigit(s[i])
  }

  /** `n` written in decimal with zero padding to exactly `width` digits. */
  function Digits(n: nat, width: nat): (s: string)
    requires n < Pow10(width)
    ensures |s| == width
    ensures AllDigits(s)
  {
    if width == 0 then ""
    else
      assert n / 10 < Pow10(width - 1);
      Digits(n / 10, width - 1) + [('0' as int + n % 10) as char]
  }

  /** The number a string of decimal digits denotes. */
  function DigitsValue(s: string): nat
    requires AllDigits(s)
  {
    if s == [] then 0
    else 10 * DigitsValue(s[..|s| - 1]) + (s[|s| - 1] as int - '0' as int)
  }

  /** Reading zero-padded digits back gives the number that was written. */
  lemma {:induction false} DigitsValueOfDigits(n: nat, width: nat)
    requires n < Pow10(width)
    ensures DigitsValue(Digits(n, width)) == n
  {
    if width > 0 {
      var s := Digits(n, width);
      assert n / 10 < Pow10(width - 1);
      assert s[..|s| - 1] == Digits(n / 10, width - 1);
      DigitsValueOfDigits(n / 10, width - 1);
    }
  }

  /** `strftime("%Y-%m-%d %H:%M")`: year to four digits, the other fields to two. */
  function FormatMinute(t: DateTime): (s: string)
    ensures |s| == 16
  {
    Digits(t.year, 4) + "-" + Digits(t.month, 2) + "-" + Digits(t.day, 2)
      + " " + Digits(t.hour, 2) + ":" + Digits(t.minute, 2)
  }

  /** Reads a `YYYY-MM-DD HH:MM` stamp; `None` for text of any other shape. */
  function ParseMinute(s: string): Option<Minute> {
    if |s| == 16 && s[4] == '-' && s[7] == '-' && s[10] == ' ' && s[13] == ':'
       && AllDigits(s[0..4]) && AllDigits(s[5..7]) && AllDigits(s[8..10])
       && AllDigits(s[11..13]) && AllDigits(s[14..16])
    then Some(Minute(DigitsValue(s[0..4]), DigitsValue(s[5..7]), DigitsValue(s[8..10]),
                     DigitsValue(s[11..13]), DigitsValue(s[14..16])))
    else None
  }

  /** The rendered stamp reads back as the message's date and time to the minute. */
  lemma {:induction false} ParseFormatMinute(t: DateTime)
    ensures ParseMinute(FormatMinute(t)) == Some(MinuteOf(t))
  {
    var s := FormatMinute(t);
    assert s[0..4] == Digits(t.year, 4);
    assert s[5..7] == Digits(t.month, 2);
    assert s[8..10] == Digits(t.day, 2);
    assert s[11..13] == Digits(t.hour, 2);
    assert s[14..16] == Digits(t.minute, 2);
    DigitsValueOfDigits(t.year, 4);
    DigitsValueOfDigits(t.month, 2);
    DigitsValueOfDigits(t.day, 2);
    DigitsValueOfDigits(t.hour, 2);
    DigitsValueOfDigits(t.minute, 2);
  }

  /** Two stamps are equal exactly when the date-times agree down to the minute. */
  lemma FormatMinuteInjective(t1: DateTime, t2: DateTime)
    ensures FormatMinute(t1) == FormatMinute(t2) <==> MinuteOf(t1) == MinuteOf(t2)
  {
    ParseFormatMinute(t1);
    ParseFormatMinute(t2);
  }

  /** A stamp is one line of text: digits and the separators `-`, ` ` and `:`. */
  lemma FormatMinuteSingleLine(t: DateTime)
    ensures '\n' !in FormatMinute(t)
  {
  }
}
