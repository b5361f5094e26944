/** `parseTime` of electron/analyzer.ts: a wall-clock hour and minute shown on a 12-hour
    clock. The local-time conversion of the epoch value (`getHours`, `getMinutes`) is an
    input. */
module Clock {
  import opened Wrappers
  import opened Strings

  /** `hours % 12 || 12`. */
  function DisplayHour(hours: nat): (h: nat)
    ensures 1 <= h <= 12 && h % 12 == hours % 12
  {
    if hours % 12 == 0 then 12 else hours % 12
  }

  /** `hours >= 12 ? 'PM' : 'AM'`. */
  function Period(hours: nat): (p: string)
    ensures p == "PM" <==> hours >= 12
    ensures p == "AM" <==> hours < 12
  {
    if hours >= 12 then "PM" else "AM"
  }

  /** `minutes.toString().padStart(2, '0')`. */
  function MinuteText(minutes: nat): (ms: string)
    requires minutes < 60
    ensures |ms| == 2 && AllDigits(ms) && DigitsValue(ms) == minutes
  {
    PaddedValue(minutes);
    PadStart(NatToString(minutes), 2, '0')
  }

  lemma PaddedValue(m: nat)
    requires m < 60
    ensures var ms := PadStart(NatToString(m), 2, '0');
      |ms| == 2 && AllDigits(ms) && DigitsValue(ms) == m
  {
    var ns := NatToString(m);
    DigitsValueOfNatToString(m);
    if m < 10 {
      assert ns == [DigitChar(m)];
      PadOneDigit(DigitChar(m));
    } else {
      assert |ns| == 2;
    }
  }

  /** A single digit padded with a zero keeps its value. */
  lemma PadOneDigit(c: char)
    requires IsDigit(c)
    ensures var ms := PadStart([c], 2, '0'); ms == ['0', c] && AllDigits(ms) && DigitsValue(ms) == DigitsValue([c])
  {
    var ms := PadStart([c], 2, '0');
    assert ms == ['0', c];
    assert ms[..1] == ['0'];
  }

  /** `displayHours` as text: one or two digits. */
  function HourText(hours: nat): (hs: string)
    ensures 1 <= |hs| <= 2 && AllDigits(hs) && DigitsValue(hs) == DisplayHour(hours)
  {
    DigitsValueOfNatToString(DisplayHour(hours));
    NatToString(DisplayHour(hours))
  }

  /** `${displayHours}:${minutes.toString().padStart(2, '0')} ${period}`. */
  function ParseTime(hours: nat, minutes: nat): (s: string)
    requires hours < 24 && minutes < 60
    ensures 7 <= |s| <= 8
    ensures s[|s| - 3] == ' ' && s[|s| - 1] == 'M'
  {
    HourText(hours) + ":" + MinuteText(minutes) + " " + Period(hours)
  }

  /** Reads a 12-hour clock reading back into an hour `0..23` and a minute. */
  function ReadTime(s: string): Option<(nat, nat)> {
    if |s| < 7 then None
    else
      var hs, ms, period := s[..|s| - 6], s[|s| - 5..|s| - 3], s[|s| - 2..];
      if s[|s| - 6] != ':' || s[|s| - 3] != ' ' || hs == [] || !AllDigits(hs) || !AllDigits(ms)
         || (period != "AM" && period != "PM") then None
      else
        var h, m := DigitsValue(hs), DigitsValue(ms);
        if h < 1 || 12 < h || 60 <= m then None
        else Some((h % 12 + (if period == "PM" then 12 else 0), m))
  }

  /** Reading a text assembled from an hour field, a two-digit minute field and a period. */
  lemma ReadAssembled(s: string, hs: string, ms: string, period: string, hours: nat, minutes: nat)
    requires s == hs + ":" + ms + " " + period
    requires 1 <= |hs| <= 2 && AllDigits(hs) && 1 <= DigitsValue(hs) <= 12
    requires |ms| == 2 && AllDigits(ms) && DigitsValue(ms) == minutes < 60
    requires period == "AM" || period == "PM"
    requires DigitsValue(hs) % 12 + (if period == "PM" then 12 else 0) == hours
    ensures ReadTime(s) == Some((hours, minutes))
  {
    assert s[..|s| - 6] == hs;
    assert s[|s| - 5..|s| - 3] == ms;
    assert s[|s| - 2..] == period;
  }

  /** The displayed text determines the time: the hour shown is `1..12`, the suffix says
      whether it is past noon, and the minutes are two digits, so `parseTime` loses
      nothing within a day. */
  lemma ReadParseTime(hours: nat, minutes: nat)
    requires hours < 24 && minutes < 60
    ensures ReadTime(ParseTime(hours, minutes)) == Some((hours, minutes))
  {
    HourFromDisplay(hours);
    ReadAssembled(ParseTime(hours, minutes), HourText(hours), MinuteText(minutes), Period(hours), hours, minutes);
  }

  /** The displayed hour together with the suffix gives the hour back. */
  lemma HourFromDisplay(hours: nat)
    requires hours < 24
    ensures DisplayHour(hours) % 12 + (if Period(hours) == "PM" then 12 else 0) == hours
  {
    if hours < 12 {
      assert hours % 12 == hours;
    } else {
      assert hours % 12 == hours - 12;
    }
  }
}
