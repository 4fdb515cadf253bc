/** The helpers that make dates and times readable on a card.

    `formatTime` shows a 24-hour `HH:MM` time as a 12-hour clock with AM/PM.
    Date and time fields are modelled as `Option`s: `None` stands for the
    empty string (and any other falsy value), which both helpers show as "N/A".
 */
module Formatting {
  import opened Calendar
  import opened Wrappers

  /** `formatDate`: "N/A" for an empty date; any other date is rendered by the
      browser's locale (`toLocaleDateString`), which is a parameter here. */
  function FormatDate(date: Option<Date>, localeText: Date -> string): (r: string)
    ensures date.None? ==> r == "N/A"
    ensures date.Some? ==> r == localeText(date.value)
  {
    match date
    case None => "N/A"
    case Some(d) => localeText(d)
  }

  predicate IsDigit(c: char)
  {
    '0' <= c <= '9'
  }

  predicate AllDigits(s: string)
  {
    forall i :: 0 <= i < |s| ==> IsDigit(s[i])
  }

  function DigitChar(d: int): (c: char)
    requires 0 <= d < 10
    ensures IsDigit(c) && (c as int) - ('0' as int) == d
  {
    "0123456789"[d]
  }

  /** The value of a string of decimal digits. */
  function DigitsValue(s: string): nat
    requires AllDigits(s)
  {
    if s == [] then 0
    else DigitsValue(s[..|s| - 1]) * 10 + ((s[|s| - 1] as int) - ('0' as int))
  }

  /** The decimal text JavaScript produces for a non-negative integer. */
  function DecimalText(n: nat): (s: string)
    ensures AllDigits(s)
    ensures |s| >= 1
    ensures n < 10 ==> |s| == 1
    ensures 10 <= n < 100 ==> |s| == 2
    ensures n >= 1 ==> s[0] != '0'
  {
    if n < 10 then [DigitChar(n)] else DecimalText(n / 10) + [DigitChar(n % 10)]
  }

  lemma {:induction false} DecimalTextRoundTrip(n: nat)
    ensures DigitsValue(DecimalText(n)) == n
  {
    if n >= 10 {
      var s := DecimalText(n);
      assert s[..|s| - 1] == DecimalText(n / 10);
      DecimalTextRoundTrip(n / 10);
    }
  }

  /** The hour as a 12-hour clock shows it. */
  function DisplayHour(h: Hour): (r: int)
    ensures 1 <= r <= 12
    ensures r % 12 == h % 12
  {
    if h % 12 == 0 then 12 else h % 12
  }

  /** "PM" from noon on, "AM" before. */
  function Meridiem(h: Hour): (r: string)
    ensures r == "AM" || r == "PM"
    ensures r == "PM" <==> h >= 12
  {
    if h >= 12 then "PM" else "AM"
  }

  /** Minutes below ten get a leading zero. */
  function MinuteText(m: Minute): (r: string)
    ensures |r| == 2 && AllDigits(r)
    ensures DigitsValue(r) == m
    ensures m < 10 ==> r[0] == '0'
  {
    DecimalTextRoundTrip(m);
    if m < 10 then
      var r := "0" + DecimalText(m);
      assert r[..|r| - 1] == "0";
      r
    else DecimalText(m)
  }

  /** `formatTime`: "N/A" for an empty time, otherwise `h:mm AM` / `h:mm PM`. */
  function FormatTime(time: Option<Clock>): (r: string)
    ensures time.None? ==> r == "N/A"
    ensures time.Some? ==> 7 <= |r| <= 8 && r[|r| - 6] == ':' && r[|r| - 3] == ' '
    ensures time.Some? ==> r[|r| - 2..] == Meridiem(time.value.hour)
    ensures time.Some? ==> (r[|r| - 2..] == "PM" <==> time.value.hour >= 12)
    ensures time.Some? ==> AllDigits(r[|r| - 5..|r| - 3]) && DigitsValue(r[|r| - 5..|r| - 3]) == time.value.minute
    ensures time.Some? ==> AllDigits(r[..|r| - 6]) && DigitsValue(r[..|r| - 6]) == DisplayHour(time.value.hour)
    ensures time.Some? ==> r[0] != '0' && (|r| == 7 <==> DisplayHour(time.value.hour) < 10)
  {
    match time
    case None => "N/A"
    case Some(c) =>
      var h := DecimalText(DisplayHour(c.hour));
      var mm := MinuteText(c.minute);
      var r := h + ":" + mm + " " + Meridiem(c.hour);
      DecimalTextRoundTrip(DisplayHour(c.hour));
      assert r[..|r| - 6] == h && r[|r| - 5..|r| - 3] == mm && r[|r| - 2..] == Meridiem(c.hour);
      r
  }

  /** The 24-hour hour that a 12-hour display hour and meridiem stand for. */
  function Hour24(h12: int, pm: bool): (h: int)
    requires 1 <= h12 <= 12
    ensures 0 <= h < 24
    ensures (h >= 12) == pm
  {
    if pm then (if h12 == 12 then 12 else h12 + 12)
    else (if h12 == 12 then 0 else h12)
  }

  /** Reads a displayed time back; "N/A", a zero-padded hour and anything
      else unreadable give None. */
  function ReadDisplay(s: string): Option<Clock>
  {
    if |s| < 7 || |s| > 8 then None
    else
      var n := |s|;
      var hh, mm, suffix := s[..n - 6], s[n - 5..n - 3], s[n - 2..];
      if s[n - 6] != ':' || s[n - 3] != ' ' || !AllDigits(hh) || !AllDigits(mm)
        || hh[0] == '0' || (suffix != "AM" && suffix != "PM")
      then None
      else
        var h12, m := DigitsValue(hh), DigitsValue(mm);
        if 1 <= h12 <= 12 && m < 60 then Some(Clock(Hour24(h12, suffix == "PM"), m)) else None
  }

  lemma Hour24OfDisplayHour(h: Hour)
    ensures Hour24(DisplayHour(h), h >= 12) == h
  {
  }

  /** formatTime loses nothing: the 12-hour display determines the time. */
  lemma FormatTimeRoundTrip(time: Option<Clock>)
    ensures ReadDisplay(FormatTime(time)) == time
  {
    var r := FormatTime(time);
    if time.Some? {
      var c := time.value;
      var n := |r|;
      var hh, mm, suffix := r[..n - 6], r[n - 5..n - 3], r[n - 2..];
      assert suffix == Meridiem(c.hour) && hh[0] == r[0];
      assert DigitsValue(hh) == DisplayHour(c.hour);
      assert DigitsValue(mm) == c.minute;
      Hour24OfDisplayHour(c.hour);
      assert (suffix == "PM") == (c.hour >= 12);
    } else {
      assert |r| == 3;
    }
  }

  /** Different times never display the same. */
  lemma FormatTimeInjective(a: Option<Clock>, b: Option<Clock>)
    requires FormatTime(a) == FormatTime(b)
    ensures a == b
  {
    FormatTimeRoundTrip(a);
    FormatTimeRoundTrip(b);
  }

  lemma FormatTimeMidnightExample()
    ensures FormatTime(Some(Clock(0, 5))) == "12:05 AM"
  {
    assert DisplayHour(0) == 12 && DecimalText(12) == "12";
    assert MinuteText(5) == "05";
  }

  lemma FormatTimeAfternoonExample()
    ensures FormatTime(Some(Clock(14, 30))) == "2:30 PM"
  {
    assert DisplayHour(14) == 2 && DecimalText(2) == "2";
    assert DecimalText(3) == "3";
    assert DecimalText(30) == DecimalText(3) + [DigitChar(0)];
    assert MinuteText(30) == "30";
    assert FormatTime(Some(Clock(14, 30))) == "2" + ":" + "30" + " " + "PM";
  }
}
