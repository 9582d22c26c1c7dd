/**
 * Calendar dates as Python's `datetime.date` holds them, and their ISO 8601
 * calendar form `YYYY-MM-DD` as `date.isoformat()` writes it. `ParseIso` is
 * the reading direction; the round trip shows that the rendering loses nothing.
 */
module IsoDate {
  import opened Wrappers

  datatype Ymd = Ymd(year: int, month: int, day: int)

  predicate IsLeapYear(year: int) {
    year % 4 == 0 && (year % 100 != 0 || year % 400 == 0)
  }

  function DaysInMonth(year: int, month: int): int
    requires 1 <= month <= 12
  {
    if month == 2 then (if IsLeapYear(year) then 29 else 28)
    else if month == 4 || month == 6 || month == 9 || month == 11 then 30
    else 31
  }

  /** The days `datetime.date` accepts: years 1 to 9999 of the proleptic Gregorian calendar. */
  predicate ValidDate(d: Ymd) {
    && 1 <= d.year <= 9999
    && 1 <= d.month <= 12
    && 1 <= d.day <= DaysInMonth(d.year, d.month)
  }

  type Date = d: Ymd | ValidDate(d) witness Ymd(1, 1, 1)

  function Pow10(n: nat): nat {
    if n == 0 then 1 else 10 * Pow10(n - 1)
  }

  predicate IsDigit(c: char) {
    '0' <= c <= '9'
  }

  function DigitChar(n: int): char
    requires 0 <= n < 10
  {
    (('0' as int) + n) as char
  }

  function DigitValue(c: char): int
    requires IsDigit(c)
  {
    c as int - '0' as int
  }

  /** `n` in exactly `width` decimal digits, zero-padded on the left (`%0<width>d`). */
  function Padded(n: nat, width: nat): (r: string)
    requires n < Pow10(width)
    ensures |r| == width
    ensures forall i :: 0 <= i < |r| ==> IsDigit(r[i])
  {
    if width == 0 then ""
    else
      assert n / 10 < Pow10(width - 1);
      Padded(n / 10, width - 1) + [DigitChar(n % 10)]
  }

  /** The value of a string of decimal digits; None when some character is not a digit. */
  function ParseDigits(s: string): (r: Option<nat>)
    ensures r.Some? <==> forall i :: 0 <= i < |s| ==> IsDigit(s[i])
  {
    if |s| == 0 then Some(0)
    else if !IsDigit(s[|s| - 1]) then None
    else match ParseDigits(s[..|s| - 1])
      case None => None
      case Some(v) => Some(10 * v + DigitValue(s[|s| - 1]))
  }

  lemma {:induction false} ParsePadded(n: nat, width: nat)
    requires n < Pow10(width)
    ensures ParseDigits(Padded(n, width)) == Some(n)
  {
    if width > 0 {
      var s := Padded(n, width);
      assert n / 10 < Pow10(width - 1);
      assert s[..|s| - 1] == Padded(n / 10, width - 1);
      ParsePadded(n / 10, width - 1);
      assert DigitValue(DigitChar(n % 10)) == n % 10;
    }
  }

  /** `date.isoformat()`. */
  function ToIso(d: Date): (r: string)
    ensures |r| == 10 && r[4] == '-' && r[7] == '-'
    ensures forall i :: 0 <= i < 10 && i != 4 && i != 7 ==> IsDigit(r[i])
  {
    assert Pow10(2) == 100;
    assert Pow10(4) == 10000;
    Padded(d.year, 4) + "-" + Padded(d.month, 2) + "-" + Padded(d.day, 2)
  }

  /** Reads `YYYY-MM-DD` back; None for any other shape or for a day the calendar lacks. */
  function ParseIso(s: string): (r: Option<Date>)
    ensures r.Some? ==> |s| == 10 && s[4] == '-' && s[7] == '-'
  {
    if |s| != 10 || s[4] != '-' || s[7] != '-' then None
    else match (ParseDigits(s[..4]), ParseDigits(s[5..7]), ParseDigits(s[8..]))
      case (Some(y), Some(m), Some(d)) =>
        if ValidDate(Ymd(y, m, d)) then Some(Ymd(y, m, d)) else None
      case _ => None
  }

  lemma IsoRoundTrip(d: Date)
    ensures ParseIso(ToIso(d)) == Some(d)
  {
    assert Pow10(2) == 100;
    assert Pow10(4) == 10000;
    var s := ToIso(d);
    assert s[..4] == Padded(d.year, 4);
    assert s[5..7] == Padded(d.month, 2);
    assert s[8..] == Padded(d.day, 2);
    ParsePadded(d.year, 4);
    ParsePadded(d.month, 2);
    ParsePadded(d.day, 2);
  }

  /** Distinct dates never share an ISO string. */
  lemma ToIsoInjective(d1: Date, d2: Date)
    ensures ToIso(d1) == ToIso(d2) <==> d1 == d2
  {
    IsoRoundTrip(d1);
    IsoRoundTrip(d2);
  }
}
