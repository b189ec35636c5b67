/**
 * The `humanDate` template function: a time rendered in UTC with Go's layout
 * "02 Jan 2006 at 15:04", or the empty string for the zero time.
 */
module DateFormat {
  import opened Wrappers

  /** The calendar fields of an instant in UTC, as `t.UTC()` exposes them. */
  datatype Time = Time(year: int, month: int, day: int, hour: int, minute: int, second: int, nanosecond: int)
  {
    /** Every Go `time.Time` has fields in these ranges. */
    predicate Valid() {
      && 1 <= month <= 12
      && 1 <= day <= DaysIn(year, month)
      && 0 <= hour < 24
      && 0 <= minute < 60
      && 0 <= second < 60
      && 0 <= nanosecond < 1_000_000_000
    }

    /** `time.Time.IsZero`: the instant January 1, year 1, 00:00:00.000000000 UTC. */
    predicate IsZero() {
      year == 1 && month == 1 && day == 1 && hour == 0 && minute == 0 && second == 0 && nanosecond == 0
    }

    /** The fields the layout shows; seconds and nanoseconds are not among them. */
    function Shown(): DateMinute {
      DateMinute(year, month, day, hour, minute)
    }
  }

  datatype DateMinute = DateMinute(year: int, month: int, day: int, hour: int, minute: int)

  predicate IsLeap(year: int) {
    year % 4 == 0 && (year % 100 != 0 || year % 400 == 0)
  }

  function DaysIn(year: int, month: int): (r: int)
    requires 1 <= month <= 12
  {
    if month == 2 then (if IsLeap(year) then 29 else 28)
    else if month == 4 || month == 6 || month == 9 || month == 11 then 30
    else 31
  }

  /** The first three letters of each `time.Month` name, January first. */
  const SHORT_MONTH_NAMES: seq<string> :=
    ["Jan", "Feb", "Mar", "Apr", "May", "Jun", "Jul", "Aug", "Sep", "Oct", "Nov", "Dec"]

  predicate IsDigit(c: char) {
    '0' <= c <= '9'
  }

  predicate AllDigits(s: string) {
    forall i :: 0 <= i < |s| ==> IsDigit(s[i])
  }

  function Digit(d: nat): (c: char)
    requires d < 10
    ensures IsDigit(c) && DigitValue(c) == d
  {
    (48 + d) as char
  }

  function DigitValue(c: char): (r: nat)
    requires IsDigit(c)
  {
    c as int - 48
  }

  function Pow10(k: nat): (r: nat) {
    if k == 0 then 1 else 10 * Pow10(k - 1)
  }

  /**
   * The decimal digits of `n`, padded on the left with zeros to at least
   * `width` characters (what Go's time formatting does for a numeric field).
   */
  function PadInt(n: nat, width: nat): (r: string)
    ensures AllDigits(r)
    ensures 1 <= |r| && width <= |r|
    decreases n + width
  {
    if n < 10 && width <= 1 then [Digit(n)]
    else PadInt(n / 10, if width == 0 then 0 else width - 1) + [Digit(n % 10)]
  }

  /** The value of a string of decimal digits; the partner of PadInt. */
  function ParseNat(s: string): (r: nat)
    requires AllDigits(s)
  {
    if s == [] then 0 else ParseNat(s[..|s| - 1]) * 10 + DigitValue(s[|s| - 1])
  }

  /** The "2006" field: a '-' for a negative year, then its magnitude padded to four digits. */
  function YearText(year: int): (r: string)
    ensures |r| >= 4
  {
    if year < 0 then "-" + PadInt(-year, 4) else PadInt(year, 4)
  }

  /** `t.Format("02 Jan 2006 at 15:04")`. */
  function Layout(t: Time): (r: string)
    requires t.Valid()
  {
    PadInt(t.day, 2) + " " + SHORT_MONTH_NAMES[t.month - 1] + " " + YearText(t.year)
      + " at " + PadInt(t.hour, 2) + ":" + PadInt(t.minute, 2)
  }

  /** `humanDate(t)`: empty for the zero time, the UTC layout otherwise. */
  function HumanDate(t: Time): (r: string)
    requires t.Valid()
    ensures r == "" <==> t.IsZero()
  {
    if t.IsZero() then "" else Layout(t)
  }

  /** The month number (1 to 12) whose abbreviation is `s`. */
  function MonthNumber(s: string): (r: Option<int>)
    ensures r.Some? ==> 1 <= r.value <= 12 && SHORT_MONTH_NAMES[r.value - 1] == s
    ensures r.None? ==> s !in SHORT_MONTH_NAMES
  {
    MonthFrom(s, 0)
  }

  function MonthFrom(s: string, i: nat): (r: Option<int>)
    requires i <= 12
    ensures r.Some? ==> i < r.value <= 12 && SHORT_MONTH_NAMES[r.value - 1] == s
    ensures r.None? ==> forall j :: i <= j < 12 ==> SHORT_MONTH_NAMES[j] != s
    decreases 12 - i
  {
    if i == 12 then None
    else if SHORT_MONTH_NAMES[i] == s then Some(i + 1)
    else MonthFrom(s, i + 1)
  }

  function ParseYear(s: string): (r: Option<int>) {
    if |s| >= 2 && s[0] == '-' && AllDigits(s[1..]) then Some(-(ParseNat(s[1..]) as int))
    else if |s| >= 1 && AllDigits(s) then Some(ParseNat(s))
    else None
  }

  /**
   * Reads back the fields shown by the layout "02 Jan 2006 at 15:04": the
   * year text sits between the fixed seven-character head "DD Mon " and the
   * fixed nine-character tail " at HH:MM".
   */
  function ParseHumanDate(s: string): (r: Option<DateMinute>) {
    if |s| < 17 then None
    else
      var n := |s|;
      var day, month, year, hour, minute := s[..2], s[3..6], s[7..n - 9], s[n - 5..n - 3], s[n - 2..];
      if && s[2] == ' ' && s[6] == ' ' && s[n - 9..n - 5] == " at " && s[n - 3] == ':'
         && AllDigits(day) && AllDigits(hour) && AllDigits(minute)
         && MonthNumber(month).Some? && ParseYear(year).Some?
      then Some(DateMinute(ParseYear(year).value, MonthNumber(month).value,
                           ParseNat(day), ParseNat(hour), ParseNat(minute)))
      else None
  }

  lemma {:induction false} ParseNatPadInt(n: nat, width: nat)
    ensures ParseNat(PadInt(n, width)) == n
    decreases n + width
  {
    if n < 10 && width <= 1 {
    } else {
      var w := if width == 0 then 0 else width - 1;
      var head := PadInt(n / 10, w);
      var text := head + [Digit(n % 10)];
      ParseNatPadInt(n / 10, w);
      assert text[..|text| - 1] == head;
      assert ParseNat(text) == ParseNat(head) * 10 + n % 10;
    }
  }

  lemma {:induction false} PadIntLength(n: nat, width: nat)
    requires 1 <= width && n < Pow10(width)
    ensures |PadInt(n, width)| == width
  {
    if n < 10 && width <= 1 {
    } else {
      assert width >= 2;
      PadIntLength(n / 10, width - 1);
    }
  }

  /** A value too wide for its field is written with all its digits and no leading zero. */
  lemma {:induction false} PadIntNoLeadingZero(n: nat, width: nat)
    requires n >= Pow10(width)
    ensures PadInt(n, width)[0] != '0'
    decreases n + width
  {
    if n < 10 && width <= 1 {
      assert width == 0;
    } else {
      var w := if width == 0 then 0 else width - 1;
      assert Pow10(width) == (if width == 0 then 1 else 10 * Pow10(w));
      assert n / 10 >= Pow10(w);
      PadIntNoLeadingZero(n / 10, w);
      assert PadInt(n, width)[0] == PadInt(n / 10, w)[0];
    }
  }

  /** A two-digit field is the tens digit followed by the units digit. */
  lemma PadTwoDigits(n: nat)
    requires n < 100
    ensures PadInt(n, 2) == [Digit(n / 10), Digit(n % 10)]
  {
  }

  /** A year from 0 to 9999 is written as exactly four digits. */
  lemma YearFourDigits(year: int)
    requires 0 <= year <= 9999
    ensures YearText(year) == [Digit(year / 1000), Digit(year / 100 % 10), Digit(year / 10 % 10), Digit(year % 10)]
  {
    var tens := year / 10;
    var hundreds := tens / 10;
    assert hundreds == year / 100 && hundreds / 10 == year / 1000;
    PadTwoDigits(hundreds);
    assert PadInt(tens, 3) == PadInt(hundreds, 2) + [Digit(tens % 10)];
    assert PadInt(year, 4) == PadInt(tens, 3) + [Digit(year % 10)];
  }

  /**
   * A year from -9999 to -1 is written as '-' followed by the four digits of
   * its magnitude, zero-padded: five characters in all.
   */
  lemma YearNegativeDigits(year: int)
    requires -9999 <= year < 0
    ensures YearText(year) == "-" + YearText(-year)
    ensures YearText(year) == ['-', Digit(-year / 1000), Digit(-year / 100 % 10), Digit(-year / 10 % 10), Digit(-year % 10)]
  {
    YearFourDigits(-year);
  }

  lemma {:induction false} ParseYearText(year: int)
    ensures ParseYear(YearText(year)) == Some(year)
  {
    var digits := PadInt(if year < 0 then -year else year, 4);
    ParseNatPadInt(if year < 0 then -year else year, 4);
    if year < 0 {
      var text := "-" + digits;
      assert text[1..] == digits;
      assert |text| >= 2 && text[0] == '-';
    } else {
      assert IsDigit(digits[0]);
    }
  }

  lemma MonthNumberOf(month: int)
    requires 1 <= month <= 12
    ensures MonthNumber(SHORT_MONTH_NAMES[month - 1]) == Some(month)
  {
    var r := MonthNumber(SHORT_MONTH_NAMES[month - 1]);
    assert SHORT_MONTH_NAMES[month - 1] in SHORT_MONTH_NAMES;
    MonthNamesDistinct(r.value - 1, month - 1);
  }

  lemma MonthNamesDistinct(i: nat, j: nat)
    requires i < 12 && j < 12 && SHORT_MONTH_NAMES[i] == SHORT_MONTH_NAMES[j]
    ensures i == j
  {
    var a, b := SHORT_MONTH_NAMES[i], SHORT_MONTH_NAMES[j];
    assert a[0] == b[0] && a[1] == b[1] && a[2] == b[2];
  }

  /** Where each part of "02 Jan 2006 at 15:04" sits in the text, whatever the year's length. */
  lemma LayoutPositions(day: string, month: string, year: string, hour: string, minute: string)
    requires |day| == 2 && |month| == 3 && |hour| == 2 && |minute| == 2
    ensures var s := day + " " + month + " " + year + " at " + hour + ":" + minute;
      && |s| == 16 + |year|
      && s[..2] == day && s[2] == ' ' && s[3..6] == month && s[6] == ' '
      && s[7..|s| - 9] == year
      && s[|s| - 9..|s| - 5] == " at " && s[|s| - 5..|s| - 3] == hour
      && s[|s| - 3] == ':' && s[|s| - 2..] == minute
  {
    var head := day + " " + month + " ";
    var tail := " at " + hour + ":" + minute;
    var s := day + " " + month + " " + year + " at " + hour + ":" + minute;
    assert s == head + year + tail;
    assert s[..7] == head;
    assert s[7..|s| - 9] == year;
    assert s[|s| - 9..] == tail;
    assert head[..2] == day && head[3..6] == month;
    assert tail[..4] == " at " && tail[4..6] == hour && tail[7..] == minute;
  }

  /**
   * For a non-zero time the output is: the two-digit day, a space, the month
   * abbreviation, a space, the year, " at ", the two-digit 24-hour hour, ':'
   * and the two-digit minute.
   */
  lemma HumanDateLayout(t: Time)
    requires t.Valid() && !t.IsZero()
    ensures var r := HumanDate(t);
      && |r| == 16 + |YearText(t.year)|
      && r[..2] == [Digit(t.day / 10), Digit(t.day % 10)]
      && r[2] == ' '
      && r[3..6] == SHORT_MONTH_NAMES[t.month - 1]
      && r[6] == ' '
      && r[7..|r| - 9] == YearText(t.year)
      && r[|r| - 9..|r| - 5] == " at "
      && r[|r| - 5..|r| - 3] == [Digit(t.hour / 10), Digit(t.hour % 10)]
      && r[|r| - 3] == ':'
      && r[|r| - 2..] == [Digit(t.minute / 10), Digit(t.minute % 10)]
  {
    PadTwoDigits(t.day);
    PadTwoDigits(t.hour);
    PadTwoDigits(t.minute);
    LayoutPositions(PadInt(t.day, 2), SHORT_MONTH_NAMES[t.month - 1], YearText(t.year),
                    PadInt(t.hour, 2), PadInt(t.minute, 2));
  }

  /** Text laid out as "02 Jan 2006 at 15:04" reads back as the values of its parts. */
  lemma ParseLayout(day: string, month: string, year: string, hour: string, minute: string)
    requires |day| == 2 && |month| == 3 && |hour| == 2 && |minute| == 2
    requires AllDigits(day) && AllDigits(hour) && AllDigits(minute)
    requires MonthNumber(month).Some? && ParseYear(year).Some?
    ensures ParseHumanDate(day + " " + month + " " + year + " at " + hour + ":" + minute)
         == Some(DateMinute(ParseYear(year).value, MonthNumber(month).value,
                            ParseNat(day), ParseNat(hour), ParseNat(minute)))
  {
    LayoutPositions(day, month, year, hour, minute);
  }

  /** The output of a non-zero time reads back as the fields it shows. */
  lemma HumanDateRoundTrip(t: Time)
    requires t.Valid() && !t.IsZero()
    ensures ParseHumanDate(HumanDate(t)) == Some(t.Shown())
  {
    PadTwoDigits(t.day);
    PadTwoDigits(t.hour);
    PadTwoDigits(t.minute);
    ParseNatPadInt(t.day, 2);
    ParseNatPadInt(t.hour, 2);
    ParseNatPadInt(t.minute, 2);
    ParseYearText(t.year);
    MonthNumberOf(t.month);
    ParseLayout(PadInt(t.day, 2), SHORT_MONTH_NAMES[t.month - 1], YearText(t.year),
                PadInt(t.hour, 2), PadInt(t.minute, 2));
  }

  /**
   * Two non-zero times give the same text exactly when they agree on the
   * year, month, day, hour and minute: seconds and nanoseconds never show.
   */
  lemma HumanDateSameIff(t1: Time, t2: Time)
    requires t1.Valid() && !t1.IsZero() && t2.Valid() && !t2.IsZero()
    ensures HumanDate(t1) == HumanDate(t2) <==> t1.Shown() == t2.Shown()
  {
    if HumanDate(t1) == HumanDate(t2) {
      HumanDateRoundTrip(t1);
      HumanDateRoundTrip(t2);
    }
  }
}
