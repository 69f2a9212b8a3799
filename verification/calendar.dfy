/**
 UTC calendar arithmetic as Go's `time` package performs it: instants are Unix seconds,
 `Truncate(24 * time.Hour)` floors to midnight, and a day is named by its proleptic
 Gregorian (year, month, day) with astronomical year numbering (year 0 exists).
 The two layouts the pipeline prints are "2006-01-02" and "02-01-2006".
 */
module Calendar {
  import Text

  const SecondsPerDay: int := 86400

  /** Days from 0000-01-01 to 1970-01-01 (proved below: `UnixEpochIsNewYear1970`). */
  const UnixEpochOrdinal: int := 719528

  predicate IsLeapYear(y: int)
  {
    y % 4 == 0 && (y % 100 != 0 || y % 400 == 0)
  }

  function DaysInYear(y: int): int
  {
    if IsLeapYear(y) then 366 else 365
  }

  /** Days of year `y` that lie before the first of month `m`; month 13 closes the year. */
  function DaysBeforeMonth(y: int, m: int): int
    requires 1 <= m <= 13
  {
    var common :=
      if m == 1 then 0 else if m == 2 then 31 else if m == 3 then 59
      else if m == 4 then 90 else if m == 5 then 120 else if m == 6 then 151
      else if m == 7 then 181 else if m == 8 then 212 else if m == 9 then 243
      else if m == 10 then 273 else if m == 11 then 304 else if m == 12 then 334
      else 365;
    if m > 2 && IsLeapYear(y) then common + 1 else common
  }

  function DaysInMonth(y: int, m: int): int
    requires 1 <= m <= 12
  {
    DaysBeforeMonth(y, m + 1) - DaysBeforeMonth(y, m)
  }

  /** Days from 0000-01-01 to the first of January of year `y` (negative before year 0). */
  function DaysBeforeYear(y: int): int
    decreases if y < 0 then -y else y
  {
    if y == 0 then 0
    else if y > 0 then DaysBeforeYear(y - 1) + DaysInYear(y - 1)
    else DaysBeforeYear(y + 1) - DaysInYear(y)
  }

  datatype Date = Date(year: int, month: nat, day: nat)

  ghost predicate Valid(d: Date)
  {
    1 <= d.month <= 12 && 1 <= d.day <= DaysInMonth(d.year, d.month)
  }

  /** Days from 0000-01-01 to `d`. */
  function Ordinal(d: Date): int
    requires Valid(d)
  {
    DaysBeforeYear(d.year) + DaysBeforeMonth(d.year, d.month) + d.day - 1
  }

  // ---------------------------------------------------------------- year and month arithmetic

  lemma DaysBeforeNextYear(y: int)
    ensures DaysBeforeYear(y + 1) == DaysBeforeYear(y) + DaysInYear(y)
  {
  }

  lemma {:induction false} DaysBeforeYearMonotone(a: int, b: int)
    requires a <= b
    ensures DaysBeforeYear(a) <= DaysBeforeYear(b)
    decreases b - a
  {
    if a < b {
      DaysBeforeYearMonotone(a, b - 1);
      DaysBeforeNextYear(b - 1);
    }
  }

  lemma DaysBeforeMonthMonotone(y: int, m1: int, m2: int)
    requires 1 <= m1 <= m2 <= 13
    ensures DaysBeforeMonth(y, m1) <= DaysBeforeMonth(y, m2)
    ensures m1 < m2 ==> DaysBeforeMonth(y, m1) < DaysBeforeMonth(y, m2)
  {
  }

  lemma MonthsFillYear(y: int)
    ensures DaysBeforeMonth(y, 13) == DaysInYear(y)
  {
  }

  /** A valid date lies inside its own year. */
  lemma OrdinalWithinYear(d: Date)
    requires Valid(d)
    ensures DaysBeforeYear(d.year) <= Ordinal(d) < DaysBeforeYear(d.year + 1)
  {
    DaysBeforeMonthMonotone(d.year, d.month + 1, 13);
    DaysBeforeNextYear(d.year);
  }

  /** Distinct valid dates have distinct ordinals. */
  lemma OrdinalInjective(a: Date, b: Date)
    requires Valid(a) && Valid(b)
    requires Ordinal(a) == Ordinal(b)
    ensures a == b
  {
    OrdinalWithinYear(a);
    OrdinalWithinYear(b);
    if a.year < b.year {
      DaysBeforeYearMonotone(a.year + 1, b.year);
    } else if b.year < a.year {
      DaysBeforeYearMonotone(b.year + 1, a.year);
    }
    assert a.year == b.year;
    if a.month < b.month {
      DaysBeforeMonthMonotone(a.year, a.month + 1, b.month);
    } else if b.month < a.month {
      DaysBeforeMonthMonotone(a.year, b.month + 1, a.month);
    }
  }

  // ---------------------------------------------------------------- ordinal to civil date

  function YearUp(y: int, n: int): (r: int)
    requires DaysBeforeYear(y) <= n
    ensures DaysBeforeYear(r) <= n < DaysBeforeYear(r + 1)
    decreases n - DaysBeforeYear(y)
  {
    DaysBeforeNextYear(y);
    if n < DaysBeforeYear(y + 1) then y else YearUp(y + 1, n)
  }

  function YearDown(y: int, n: int): (r: int)
    requires n < DaysBeforeYear(y + 1)
    ensures DaysBeforeYear(r) <= n < DaysBeforeYear(r + 1)
    decreases DaysBeforeYear(y + 1) - n
  {
    DaysBeforeNextYear(y);
    if DaysBeforeYear(y) <= n then y else YearDown(y - 1, n)
  }

  /** The year that day number `n` (counted from 0000-01-01) falls in. */
  function YearOf(n: int): int
  {
    if n >= 0 then YearUp(0, n) else YearDown(-1, n)
  }

  lemma YearOfBounds(n: int)
    ensures DaysBeforeYear(YearOf(n)) <= n < DaysBeforeYear(YearOf(n) + 1)
  {
  }

  /** The month, from `m` on, whose days hold day `r` of year `y` (counted from 0). */
  function MonthFrom(y: int, m: int, r: int): int
    requires 1 <= m <= 12
    requires DaysBeforeMonth(y, m) <= r < DaysInYear(y)
    decreases 12 - m
  {
    MonthsFillYear(y);
    if r < DaysBeforeMonth(y, m + 1) then m else MonthFrom(y, m + 1, r)
  }

  lemma {:induction false} MonthFromBounds(y: int, m: int, r: int)
    requires 1 <= m <= 12
    requires DaysBeforeMonth(y, m) <= r < DaysInYear(y)
    ensures m <= MonthFrom(y, m, r) <= 12
    ensures DaysBeforeMonth(y, MonthFrom(y, m, r)) <= r < DaysBeforeMonth(y, MonthFrom(y, m, r) + 1)
    decreases 12 - m
  {
    MonthsFillYear(y);
    if r >= DaysBeforeMonth(y, m + 1) {
      MonthFromBounds(y, m + 1, r);
    }
  }

  /** The civil date of day number `n`; with `Ordinal` it forms a bijection (`FromOrdinalCounts`). */
  function FromOrdinal(n: int): Date
  {
    var y := YearOf(n);
    var r := n - DaysBeforeYear(y);
    YearOfBounds(n);
    DaysBeforeNextYear(y);
    MonthFromBounds(y, 1, r);
    var m := MonthFrom(y, 1, r);
    Date(y, m, r - DaysBeforeMonth(y, m) + 1)
  }

  /** The date of a day number is a real date, and counting its days gives back `n`. */
  lemma FromOrdinalCounts(n: int)
    ensures Valid(FromOrdinal(n))
    ensures Ordinal(FromOrdinal(n)) == n
  {
    var y := YearOf(n);
    YearOfBounds(n);
    DaysBeforeNextYear(y);
    var m := MonthFrom(y, 1, n - DaysBeforeYear(y));
    MonthFromBounds(y, 1, n - DaysBeforeYear(y));
    assert FromOrdinal(n) == Date(y, m, n - DaysBeforeYear(y) - DaysBeforeMonth(y, m) + 1);
  }

  /** Naming a valid date and counting back to it returns the same date. */
  lemma FromOrdinalOfOrdinal(d: Date)
    requires Valid(d)
    ensures FromOrdinal(Ordinal(d)) == d
  {
    FromOrdinalCounts(Ordinal(d));
    OrdinalInjective(FromOrdinal(Ordinal(d)), d);
  }

  /** Closed form of `DaysBeforeYear` for years from 0 on; used to evaluate concrete dates. */
  lemma {:induction false} DaysBeforeYearFormula(y: nat)
    ensures DaysBeforeYear(y) == 365 * y + (y + 3) / 4 - (y + 99) / 100 + (y + 399) / 400
  {
    if y > 0 {
      DaysBeforeYearFormula(y - 1);
      var x := y - 1;
      StepBy4(x);
      StepBy100(x);
      StepBy400(x);
      LeapCount(x);
    }
  }

  /** The length of a year as the formula counts it: +1 every 4 years, -1 every 100, +1 every 400. */
  lemma LeapCount(x: int)
    ensures DaysInYear(x) == 365 + (if x % 4 == 0 then 1 else 0) - (if x % 100 == 0 then 1 else 0)
                                 + (if x % 400 == 0 then 1 else 0)
  {
    Multiple400Is100(x);
    Multiple100Is4(x);
  }

  lemma Multiple400Is100(x: int)
    ensures x % 400 == 0 ==> x % 100 == 0
  {
    if x % 400 == 0 {
      var q := x / 400;
      assert x == 100 * (4 * q) + 0;
    }
  }

  lemma Multiple100Is4(x: int)
    ensures x % 100 == 0 ==> x % 4 == 0
  {
    if x % 100 == 0 {
      var q := x / 100;
      assert x == 4 * (25 * q) + 0;
    }
  }

  /** The three rounded-up quotients of the formula, stepped from `x` to `x + 1`. */
  lemma StepBy4(x: nat)
    ensures (x + 4) / 4 == (x + 3) / 4 + (if x % 4 == 0 then 1 else 0)
  {
  }

  lemma StepBy100(x: nat)
    ensures (x + 100) / 100 == (x + 99) / 100 + (if x % 100 == 0 then 1 else 0)
  {
  }

  lemma StepBy400(x: nat)
    ensures (x + 400) / 400 == (x + 399) / 400 + (if x % 400 == 0 then 1 else 0)
  {
  }

  // ---------------------------------------------------------------- Unix seconds

  /** Days since 1970-01-01, rounding towards the past. */
  function DayNumber(t: int): int
  {
    t / SecondsPerDay
  }

  /** `t.Truncate(24 * time.Hour)` on a UTC instant: the midnight that starts its day. */
  function Truncate(t: int): (r: int)
    ensures r % SecondsPerDay == 0
    ensures r <= t < r + SecondsPerDay
    ensures DayNumber(r) == DayNumber(t)
  {
    t - t % SecondsPerDay
  }

  /** Every instant of a day truncates to that day's midnight. */
  lemma TruncateWithinDay(midnight: int, offset: int)
    requires midnight % SecondsPerDay == 0 && 0 <= offset < SecondsPerDay
    ensures Truncate(midnight + offset) == midnight
  {
    var q := midnight / SecondsPerDay;
    assert midnight == q * SecondsPerDay;
    assert (midnight + offset) / SecondsPerDay == q;
  }

  /** The calendar day of a UTC instant, as `time.Time.Date()` reports it. */
  function CivilDate(t: int): Date
  {
    FromOrdinal(UnixEpochOrdinal + DayNumber(t))
  }

  /** Every instant has a real calendar date. */
  lemma CivilDateValid(t: int)
    ensures Valid(CivilDate(t))
  {
    FromOrdinalCounts(UnixEpochOrdinal + DayNumber(t));
  }

  /** Two instants get the same calendar date exactly when they fall in the same UTC day. */
  lemma CivilDateSameDay(t1: int, t2: int)
    ensures CivilDate(t1) == CivilDate(t2) <==> DayNumber(t1) == DayNumber(t2)
  {
    FromOrdinalCounts(UnixEpochOrdinal + DayNumber(t1));
    FromOrdinalCounts(UnixEpochOrdinal + DayNumber(t2));
    if CivilDate(t1) == CivilDate(t2) {
      assert Ordinal(CivilDate(t1)) == Ordinal(CivilDate(t2));
    }
  }

  /** Two midnights are equal exactly when they name the same day. */
  lemma TruncateSameDay(t1: int, t2: int)
    ensures Truncate(t1) == Truncate(t2) <==> DayNumber(t1) == DayNumber(t2)
  {
  }

  /** To show which date an instant has, it suffices to count the date's days. */
  lemma CivilDateIs(t: int, d: Date)
    requires Valid(d)
    requires Ordinal(d) == UnixEpochOrdinal + DayNumber(t)
    ensures CivilDate(t) == d
  {
    FromOrdinalCounts(UnixEpochOrdinal + DayNumber(t));
    OrdinalInjective(CivilDate(t), d);
  }

  lemma UnixEpochIsNewYear1970()
    ensures CivilDate(0) == Date(1970, 1, 1)
  {
    DaysBeforeYearFormula(1970);
    CivilDateIs(0, Date(1970, 1, 1));
  }

  /** Every instant of 2024-04-15 (UTC), day 19828 after the epoch, has that civil date. */
  lemma April15Of2024(t: int)
    requires 1713139200 <= t < 1713139200 + SecondsPerDay
    ensures CivilDate(t) == Date(2024, 4, 15)
  {
    DaysBeforeYearFormula(2024);
    assert DayNumber(t) == 19828;
    CivilDateIs(t, Date(2024, 4, 15));
  }

  // ---------------------------------------------------------------- printing

  /** Go's "2006" field: `appendInt(b, year, 4)`, a sign for negative years, then four or more digits. */
  function YearText(y: int): string
  {
    if y < 0 then "-" + Text.PadLeft(-y, 4) else Text.PadLeft(y, 4)
  }

  /** Layout "2006-01-02". */
  function FormatIso(d: Date): string
  {
    YearText(d.year) + "-" + Text.PadLeft(d.month, 2) + "-" + Text.PadLeft(d.day, 2)
  }

  /** Layout "02-01-2006". */
  function FormatDmy(d: Date): string
  {
    Text.PadLeft(d.day, 2) + "-" + Text.PadLeft(d.month, 2) + "-" + YearText(d.year)
  }

  /** Shape of a year field: at least four characters, all digits after the first, which is '-' only for negative years. */
  lemma YearTextShape(y: int)
    ensures |YearText(y)| >= 4
    ensures forall i :: 1 <= i < |YearText(y)| ==> Text.IsDigit(YearText(y)[i])
    ensures YearText(y)[0] == '-' <==> y < 0
    ensures '=' !in YearText(y)
  {
  }

  lemma YearTextInjective(a: int, b: int)
    requires YearText(a) == YearText(b)
    ensures a == b
  {
    YearTextShape(a);
    YearTextShape(b);
    if a < 0 {
      assert Text.PadLeft(-a, 4) == YearText(a)[1..];
      assert Text.PadLeft(-b, 4) == YearText(b)[1..];
      Text.PadLeftInjective(-a, -b, 4);
    } else {
      Text.PadLeftInjective(a, b, 4);
    }
  }

  lemma IsoLength(d: Date)
    requires Valid(d)
    ensures |FormatIso(d)| == |YearText(d.year)| + 6
    ensures FormatIso(d)[..|YearText(d.year)|] == YearText(d.year)
    ensures FormatIso(d)[|YearText(d.year)|] == '-'
  {
    Text.PadTwoLength(d.month);
    Text.PadTwoLength(d.day);
  }

  /** Distinct valid dates print differently in layout "2006-01-02". */
  lemma FormatIsoInjective(a: Date, b: Date)
    requires Valid(a) && Valid(b)
    requires FormatIso(a) == FormatIso(b)
    ensures a == b
  {
    var s := FormatIso(a);
    var ya := YearText(a.year);
    var yb := YearText(b.year);
    Text.PadTwoLength(a.month);
    Text.PadTwoLength(a.day);
    Text.PadTwoLength(b.month);
    Text.PadTwoLength(b.day);
    assert |ya| == |yb|;
    assert ya == s[..|ya|] == yb;
    YearTextInjective(a.year, b.year);
    var k := |ya|;
    assert Text.PadLeft(a.month, 2) == s[k + 1..k + 3] == Text.PadLeft(b.month, 2);
    assert Text.PadLeft(a.day, 2) == s[k + 4..] == Text.PadLeft(b.day, 2);
    Text.PadLeftInjective(a.month, b.month, 2);
    Text.PadLeftInjective(a.day, b.day, 2);
  }

  /**
   An ISO date followed by any text can be split back into the two: the year field ends at
   the first '-' after position 0, which is where the digits stop.
   */
  lemma FormatIsoPrefixFree(a: Date, p: string, b: Date, q: string)
    requires Valid(a) && Valid(b)
    requires FormatIso(a) + p == FormatIso(b) + q
    ensures a == b && p == q
  {
    var s := FormatIso(a) + p;
    var la := |YearText(a.year)|;
    var lb := |YearText(b.year)|;
    YearTextShape(a.year);
    YearTextShape(b.year);
    IsoLength(a);
    IsoLength(b);
    assert s[la] == '-' && s[lb] == '-';
    assert forall i :: 1 <= i < la ==> s[i] == YearText(a.year)[i];
    assert forall i :: 1 <= i < lb ==> s[i] == YearText(b.year)[i];
    assert la == lb;
    assert FormatIso(a) == s[..la + 6] == FormatIso(b);
    FormatIsoInjective(a, b);
  }

  /** Distinct valid dates print differently in layout "02-01-2006", which never holds '='. */
  lemma FormatDmyInjective(a: Date, b: Date)
    requires Valid(a) && Valid(b)
    ensures FormatDmy(a) == FormatDmy(b) ==> a == b
    ensures '=' !in FormatDmy(a)
  {
    YearTextShape(a.year);
    Text.PadTwoLength(a.month);
    Text.PadTwoLength(a.day);
    Text.PadTwoLength(b.month);
    Text.PadTwoLength(b.day);
    var s := FormatDmy(a);
    if s == FormatDmy(b) {
      assert Text.PadLeft(a.day, 2) == s[..2] == Text.PadLeft(b.day, 2);
      assert Text.PadLeft(a.month, 2) == s[3..5] == Text.PadLeft(b.month, 2);
      assert YearText(a.year) == s[6..] == YearText(b.year);
      Text.PadLeftInjective(a.day, b.day, 2);
      Text.PadLeftInjective(a.month, b.month, 2);
      YearTextInjective(a.year, b.year);
    }
  }

  /** The ISO name of a UTC instant's day: equal exactly when the days are equal. */
  lemma IsoNamesTheDay(t1: int, t2: int)
    ensures FormatIso(CivilDate(t1)) == FormatIso(CivilDate(t2)) <==> DayNumber(t1) == DayNumber(t2)
  {
    CivilDateSameDay(t1, t2);
    CivilDateValid(t1);
    CivilDateValid(t2);
    if FormatIso(CivilDate(t1)) == FormatIso(CivilDate(t2)) {
      FormatIsoInjective(CivilDate(t1), CivilDate(t2));
    }
  }

  /** The two layouts applied to 2024-04-15. */
  lemma April15Of2024Printed()
    ensures FormatDmy(Date(2024, 4, 15)) == "15-04-2024"
    ensures FormatIso(Date(2024, 4, 15)) == "2024-04-15"
  {
    assert Text.PadLeft(2024, 4) == "2024";
  }
}
