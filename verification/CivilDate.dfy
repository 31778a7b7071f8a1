/** The modification time shown for local files: a count of seconds turned
    into a calendar date and a time of day, without a date library. */
module CivilDate {
  import opened Decimals

  type u64 = x: int | 0 <= x < 0x1_0000_0000_0000_0000

  type i64 = x: int | -0x8000_0000_0000_0000 <= x < 0x8000_0000_0000_0000

  datatype Minute = Minute(year: nat, month: nat, day: nat, hour: nat, minute: nat)

  predicate IsLeapYear(year: nat) {
    (year % 4 == 0 && year % 100 != 0) || year % 400 == 0
  }

  function MonthLengths(leap: bool): (lengths: seq<i64>)
    ensures |lengths| == 12
  {
    [31, if leap then 29 else 28, 31, 30, 31, 30, 31, 31, 30, 31, 30, 31]
  }

  // ---------- The calendar, in closed form ----------

  /** Days from 1 January 1970 to 1 January of the year. */
  function DaysBeforeYear(year: nat): int
    requires year >= 1970
  {
    365 * (year - 1970) + (year - 1) / 4 - (year - 1) / 100 + (year - 1) / 400 - 477
  }

  const DAYS_BEFORE_MONTH: seq<nat> := [0, 31, 59, 90, 120, 151, 181, 212, 243, 273, 304, 334]

  function DaysBeforeMonth(leap: bool, month: nat): nat
    requires 1 <= month <= 12
  {
    DAYS_BEFORE_MONTH[month - 1] + if leap && month > 2 then 1 else 0
  }

  predicate IsCivil(m: Minute) {
    && m.year >= 1970
    && 1 <= m.month <= 12
    && 1 <= m.day <= MonthLengths(IsLeapYear(m.year))[m.month - 1]
    && m.hour < 24
    && m.minute < 60
  }

  function DayOfYear(m: Minute): nat
    requires IsCivil(m)
  {
    DaysBeforeMonth(IsLeapYear(m.year), m.month) + m.day - 1
  }

  /** Minutes since the beginning of 1970. */
  function MinuteNumber(m: Minute): int
    requires IsCivil(m)
  {
    (DaysBeforeYear(m.year) + DayOfYear(m)) * 1440 + m.hour * 60 + m.minute
  }

  function YearLength(year: nat): nat {
    if IsLeapYear(year) then 366 else 365
  }

  lemma EveryFourth(y: nat)
    ensures (y + 1) / 4 == y / 4 + if (y + 1) % 4 == 0 then 1 else 0
  {
  }

  lemma EveryHundredth(y: nat)
    ensures (y + 1) / 100 == y / 100 + if (y + 1) % 100 == 0 then 1 else 0
  {
  }

  lemma EveryFourHundredth(y: nat)
    ensures (y + 1) / 400 == y / 400 + if (y + 1) % 400 == 0 then 1 else 0
  {
  }

  lemma HundredIsFourTwentyFives(year: nat)
    ensures year % 100 == 0 ==> year % 4 == 0
  {
    var q, r := year / 100, year % 100;
    assert year == 4 * (25 * q) + r;
  }

  lemma FourHundredIsFourHundreds(year: nat)
    ensures year % 400 == 0 ==> year % 100 == 0
  {
    var q, r := year / 400, year % 400;
    assert year == 100 * (4 * q) + r;
  }

  lemma NextYear(year: nat)
    requires year >= 1970
    ensures DaysBeforeYear(year + 1) == DaysBeforeYear(year) + YearLength(year)
  {
    EveryFourth(year - 1);
    EveryHundredth(year - 1);
    EveryFourHundredth(year - 1);
    HundredIsFourTwentyFives(year);
    FourHundredIsFourHundreds(year);
  }

  lemma NextMonth(leap: bool, month: nat)
    requires 1 <= month <= 12
    ensures var end := DaysBeforeMonth(leap, month) + MonthLengths(leap)[month - 1];
      if month < 12 then end == DaysBeforeMonth(leap, month + 1) else end == if leap then 366 else 365
  {
    var lengths := MonthLengths(leap);
    assert lengths[0] == 31 && lengths[1] == (if leap then 29 else 28) && lengths[2] == 31 && lengths[3] == 30;
    assert lengths[4] == 31 && lengths[5] == 30 && lengths[6] == 31 && lengths[7] == 31;
    assert lengths[8] == 30 && lengths[9] == 31 && lengths[10] == 30 && lengths[11] == 31;
  }

  lemma {:induction false} LaterYear(a: nat, b: nat)
    requires 1970 <= a < b
    ensures DaysBeforeYear(a) + YearLength(a) <= DaysBeforeYear(b)
    decreases b
  {
    NextYear(b - 1);
    if a < b - 1 {
      LaterYear(a, b - 1);
    }
  }

  lemma {:induction false} LaterMonth(leap: bool, a: nat, b: nat)
    requires 1 <= a < b <= 12
    ensures DaysBeforeMonth(leap, a) + MonthLengths(leap)[a - 1] <= DaysBeforeMonth(leap, b)
    decreases b
  {
    NextMonth(leap, b - 1);
    if a < b - 1 {
      LaterMonth(leap, a, b - 1);
    }
  }

  lemma DayOfYearFits(m: Minute)
    requires IsCivil(m)
    ensures DayOfYear(m) < YearLength(m.year)
  {
    var leap := IsLeapYear(m.year);
    NextMonth(leap, m.month);
    if m.month < 12 {
      LaterMonth(leap, m.month, 12);
      NextMonth(leap, 12);
    }
  }

  /** Field by field, from the year down. */
  predicate Before(a: Minute, b: Minute) {
    || a.year < b.year
    || (a.year == b.year && (
        || a.month < b.month
        || (a.month == b.month && (
            || a.day < b.day
            || (a.day == b.day && (a.hour < b.hour || (a.hour == b.hour && a.minute < b.minute)))))))
  }

  lemma BeforeIsEarlier(a: Minute, b: Minute)
    requires IsCivil(a) && IsCivil(b) && Before(a, b)
    ensures MinuteNumber(a) < MinuteNumber(b)
  {
    DayOfYearFits(a);
    DayOfYearFits(b);
    if a.year < b.year {
      LaterYear(a.year, b.year);
    } else if a.month < b.month {
      LaterMonth(IsLeapYear(a.year), a.month, b.month);
    }
    hide DaysBeforeYear, IsLeapYear, MonthLengths, YearLength;
    var da, db := DaysBeforeYear(a.year) + DayOfYear(a), DaysBeforeYear(b.year) + DayOfYear(b);
    assert da < db || (da == db && a.day == b.day && a.month == b.month && a.year == b.year);
  }

  /** The order of the fields is the order of time, and every minute has one date. */
  lemma FieldOrderIsTimeOrder(a: Minute, b: Minute)
    requires IsCivil(a) && IsCivil(b)
    ensures Before(a, b) <==> MinuteNumber(a) < MinuteNumber(b)
    ensures a == b <==> MinuteNumber(a) == MinuteNumber(b)
  {
    hide IsCivil, MinuteNumber;
    if Before(a, b) {
      BeforeIsEarlier(a, b);
    } else if Before(b, a) {
      BeforeIsEarlier(b, a);
    } else {
      assert a == b;
    }
  }

  // ---------- The computation ----------

  function Render(m: Minute): string {
    Padded(m.year, 4) + "-" + Padded(m.month, 2) + "-" + Padded(m.day, 2) + " " + Padded(m.hour, 2) + ":" + Padded(m.minute, 2)
  }

  /** The text, and the five numbers printed in it: a valid date and time, the
      minute that contains the given second. */
  method FormatUnixTimestamp(seconds: u64) returns (text: string, when: Minute)
    ensures IsCivil(when) && MinuteNumber(when) == seconds / 60
    ensures text == Render(when)
  {
    var daysSinceEpoch := seconds / 86400;
    var secsOfDay := seconds % 86400;
    var hours := secsOfDay / 3600;
    var minutes := secsOfDay % 3600 / 60;
    var year: u64 := 1970;
    var day: i64 := daysSinceEpoch;
    while true
      invariant 1970 <= year && 0 <= day && year - 1970 + day <= daysSinceEpoch
      invariant DaysBeforeYear(year) + day == daysSinceEpoch
      decreases day
    {
      var yearDays := if IsLeapYear(year) then 366 else 365;
      if day < yearDays {
        break;
      }
      NextYear(year);
      day := day - yearDays;
      year := year + 1;
    }
    ghost var dayOfYear := day;
    var monthDays := MonthLengths(IsLeapYear(year));
    var month := 0;
    var i := 0;
    while i < |monthDays|
      invariant 0 <= i <= 12 && 0 <= day && month == 0
      invariant dayOfYear == day + (if i < 12 then DaysBeforeMonth(IsLeapYear(year), i + 1) else YearLength(year))
      invariant dayOfYear < YearLength(year)
    {
      NextMonth(IsLeapYear(year), i + 1);
      if day < monthDays[i] {
        month := i;
        break;
      }
      day := day - monthDays[i];
      i := i + 1;
    }
    when := Minute(year, month + 1, day + 1, hours, minutes);
    text := Render(when);
    MinuteOfDay(seconds);
  }

  lemma MinuteOfDay(seconds: nat)
    ensures seconds / 86400 * 1440 + seconds % 86400 / 3600 * 60 + seconds % 86400 % 3600 / 60 == seconds / 60
    ensures seconds % 86400 / 3600 < 24 && seconds % 86400 % 3600 / 60 < 60
  {
    var days, rest := seconds / 86400, seconds % 86400;
    var hours, left := rest / 3600, rest % 3600;
    assert seconds == 60 * (days * 1440 + hours * 60) + left;
    assert seconds / 60 == days * 1440 + hours * 60 + left / 60;
  }

  // ---------- The text ----------

  lemma Pieces(y: string, mo: string, d: string, h: string, mi: string)
    requires |mo| == 2 && |d| == 2 && |h| == 2 && |mi| == 2
    ensures var s := y + "-" + mo + "-" + d + " " + h + ":" + mi; var n := |y|;
      && |s| == n + 12
      && s[..n] == y && s[n + 1..n + 3] == mo && s[n + 4..n + 6] == d && s[n + 7..n + 9] == h && s[n + 10..] == mi
  {
  }

  lemma DayHasTwoDigits(m: Minute)
    requires IsCivil(m)
    ensures m.day < 100
  {
    assert MonthLengths(IsLeapYear(m.year))[m.month - 1] <= 31;
  }

  lemma TwoDigitFields(m: Minute)
    requires IsCivil(m)
    ensures |Padded(m.month, 2)| == 2 && |Padded(m.day, 2)| == 2 && |Padded(m.hour, 2)| == 2 && |Padded(m.minute, 2)| == 2
  {
    DayHasTwoDigits(m);
    hide Padded, MonthLengths, IsLeapYear;
    TwoDigits(m.month);
    TwoDigits(m.day);
    TwoDigits(m.hour);
    TwoDigits(m.minute);
  }

  lemma RenderedPieces(m: Minute)
    requires IsCivil(m)
    ensures var s := Render(m); var n := |Padded(m.year, 4)|;
      && |s| == n + 12
      && s[..n] == Padded(m.year, 4)
      && s[n + 1..n + 3] == Padded(m.month, 2) && s[n + 4..n + 6] == Padded(m.day, 2)
      && s[n + 7..n + 9] == Padded(m.hour, 2) && s[n + 10..] == Padded(m.minute, 2)
  {
    TwoDigitFields(m);
    hide Padded, IsCivil;
    Pieces(Padded(m.year, 4), Padded(m.month, 2), Padded(m.day, 2), Padded(m.hour, 2), Padded(m.minute, 2));
  }

  /** Two times are shown alike exactly when they are in the same minute. */
  lemma ShownAlikeIffSameMinute(a: Minute, b: Minute)
    requires IsCivil(a) && IsCivil(b)
    ensures Render(a) == Render(b) <==> MinuteNumber(a) == MinuteNumber(b)
  {
    FieldOrderIsTimeOrder(a, b);
    if Render(a) == Render(b) {
      RenderedPieces(a);
      RenderedPieces(b);
      hide Render, MinuteNumber;
      SamePadded(a.year, b.year, 4);
      SamePadded(a.month, b.month, 2);
      SamePadded(a.day, b.day, 2);
      SamePadded(a.hour, b.hour, 2);
      SamePadded(a.minute, b.minute, 2);
    }
  }

  lemma SamePadded(m: nat, n: nat, width: nat)
    requires Padded(m, width) == Padded(n, width)
    ensures m == n
  {
    DigitsOfPadded(m, width);
    DigitsOfPadded(n, width);
  }
}
