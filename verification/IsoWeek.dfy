/** Week dates (section 4.1.4 of ISO 8601:2004) as day numbers. */
module IsoWeek {
  import opened Datenum

  /** The weekday of a day number: Monday is 1, Sunday 7. Day 0, 1 January 1970, was a Thursday. */
  function Weekday(dn: int): (w: int)
    ensures 1 <= w <= 7
  {
    (dn + 3) % 7 + 1
  }

  /** The program's day of the week has Sunday as 0. */
  lemma DayOfWeek(dn: int)
    requires dn + DNOFF >= 0
    ensures Weekday(dn) == (dn + DNOFF + 6) % 7 + 1 && Dn2Dow(dn) == Weekday(dn) % 7
  {
    WholeWeeks(102738, dn + 3);
    WholeWeeks(102737, dn + 4);
    OneMore(dn + 3);
  }

  lemma OneMore(x: int)
    ensures (x + 1) % 7 == (x % 7 + 1) % 7
  {
  }

  /** The Monday of the week that holds 4 January. */
  function FirstMonday(year: int): int
    requires year >= 1
  {
    DayNumber(year, 1, 4) - (Weekday(DayNumber(year, 1, 4)) - 1)
  }

  /** What a week date means. */
  function WeekDate(year: int, week: int, weekday: int): int
    requires year >= 1
  {
    FirstMonday(year) + 7 * (week - 1) + (weekday - 1)
  }

  /** Week 1 runs from a Monday to a Sunday and holds 4 January; the other weeks follow. */
  lemma WeekOne(year: int, week: int, weekday: int)
    requires year >= 1
    ensures Weekday(WeekDate(year, 1, 1)) == 1 && Weekday(WeekDate(year, 1, 7)) == 7
    ensures WeekDate(year, 1, 1) <= DayNumber(year, 1, 4) <= WeekDate(year, 1, 7)
    ensures WeekDate(year, week, weekday + 1) == WeekDate(year, week, weekday) + 1
    ensures WeekDate(year, week + 1, weekday) == WeekDate(year, week, weekday) + 7
  {
    hide DayNumber;
  }

  /** Four centuries are a whole number of weeks; a century is five days more than that. */
  lemma CenturyWeeks(a: nat, b: nat, yy: nat)
    requires b < 4 && yy < 100
    ensures DaysInYears(400 * a + 100 * b + yy) % 7 == (b * 5 + yy + yy / 4) % 7
  {
    hide DaysInYears;
    var n := 400 * a + 100 * b + yy;
    YearsToDaysCounts(n);
    Quotients(a, b, yy);
    WholeWeeks(20871 * a + 5217 * b + 52 * yy, b * 5 + yy + yy / 4);
  }

  lemma Quotients(a: nat, b: nat, yy: nat)
    requires b < 4 && yy < 100
    ensures var n := 400 * a + 100 * b + yy;
            n / 4 == 100 * a + 25 * b + yy / 4 && n / 100 == 4 * a + b && n / 400 == a
  {
    var n := 400 * a + 100 * b + yy;
    assert n / 100 == 4 * a + b;
  }

  lemma WholeWeeks(weeks: int, days: int)
    ensures (7 * weeks + days) % 7 == days % 7
  {
  }

  /** The weekday of 1 January, as the program computes it. */
  function Jan1Weekday(year: int): int
    requires year >= 1
  {
    var yy := (year - 1) % 100;
    var c := (year - 1) - yy;
    1 + (c / 100 % 4 * 5 + (yy + yy / 4)) % 7
  }

  lemma Jan1WeekdayIs(year: int)
    requires year >= 1
    ensures Jan1Weekday(year) == Weekday(DayNumber(year, 1, 1))
  {
    var yy := (year - 1) % 100;
    var c := (year - 1) - yy;
    var a, b := c / 100 / 4, c / 100 % 4;
    assert c == 100 * (c / 100);
    assert year - 1 == 400 * a + 100 * b + yy;
    CenturyWeeks(a, b, yy);
    var d := DaysInYears(year - 1);
    SinceYearOne(year, 1, 1);
    assert DayNumber(year, 1, 1) + DNOFF == d + 1;
    DayOfWeek(DayNumber(year, 1, 1));
    assert (d + 1 + 6) % 7 == d % 7;
  }

  /** The Monday of week 1, counted from 1 January. */
  lemma FirstMondayIs(year: int)
    requires year >= 1
    ensures var j := Jan1Weekday(year);
            FirstMonday(year) == DayNumber(year, 1, 1) + (if j < 5 then 1 - j else 8 - j)
  {
    hide Jan1Weekday, DaysInYears;
    Jan1WeekdayIs(year);
    ThreeDaysOn(DayNumber(year, 1, 1));
  }

  lemma ThreeDaysOn(dn: int)
    ensures Weekday(dn + 3) == if Weekday(dn) < 5 then Weekday(dn) + 3 else Weekday(dn) - 4
  {
  }

  /** Sums month lengths up to a day of the year. */
  method MonthOf(year: int, dayOfYr: int) returns (mo: int, day: int)
    requires 1 <= dayOfYr <= YearLength(year)
    ensures 1 <= mo <= 12 && 1 <= day <= MonthLength(year, mo) && DaysBefore(year, mo) + day == dayOfYr
  {
    hide IsLeap;
    var month := new int[] [31, 28, 31, 30, 31, 30, 31, 31, 30, 31, 30, 31];
    if IsLeap(year) {
      month[1] := 29;
    }
    DaysBeforeTable(year);
    var h, i := 0, 0;
    while h < dayOfYr
      invariant 0 <= i <= 12 && h == DaysBefore(year, i + 1)
      invariant i > 0 ==> DaysBefore(year, i) < dayOfYr
      invariant forall k | 0 <= k < 12 :: month[k] == MonthLength(year, k + 1)
      decreases 12 - i
    {
      h, i := h + month[i], i + 1;
    }
    mo := i;
    day := dayOfYr - (h - month[i - 1]);
  }

  /** The date of a week date, as year, month and day. */
  method Week2Gregorian(year: int, week: int, weekday: int) returns (gYear: int, gMonth: int, gDay: int)
    requires year >= 1 && 1 <= week <= 53 && 1 <= weekday <= 7
    ensures ValidDate(gYear, gMonth, gDay)
    ensures DayNumber(gYear, gMonth, gDay) == WeekDate(year, week, weekday)
  {
    hide IsLeap, DaysBefore, Weekday;
    FirstMondayIs(year);
    Jan1WeekdayIs(year);
    FirstDay(year);
    FirstDay(year + 1);
    var yy := (year - 1) % 100;
    var c := (year - 1) - yy;
    var g := yy + yy / 4;
    var jan1WkDay := 1 + (c / 100 % 4 * 5 + g) % 7;
    assert jan1WkDay == Jan1Weekday(year);
    hide Jan1Weekday;
    if week == 1 && jan1WkDay < 5 && weekday < jan1WkDay {
      YearOneStartsOnMonday(year);
      LastDays(year - 1);
      return year - 1, 12, 32 - (jan1WkDay - weekday);
    }
    var dayOfYr := (week - 1) * 7;
    if jan1WkDay < 5 {
      dayOfYr := dayOfYr + weekday - (jan1WkDay - 1);
    } else {
      dayOfYr := dayOfYr + weekday + (8 - jan1WkDay);
    }
    if dayOfYr > (if IsLeap(year) then 366 else 365) {
      return year + 1, 1, dayOfYr - if IsLeap(year) then 366 else 365;
    }
    gYear := year;
    gMonth, gDay := MonthOf(year, dayOfYr);
  }

  lemma FirstDay(year: int)
    requires year >= 1
    ensures DaysBefore(year, 1) == 0
    ensures DayNumber(year, 1, 1) == DaysInYears(year - 1) + 1 - DNOFF
    ensures DaysInYears(year) == DaysInYears(year - 1) + YearLength(year)
  {
    SinceYearOne(year, 1, 1);
  }

  /** In December the day of the year counts back from the next 1 January. */
  lemma LastDays(year: int)
    requires year >= 1
    ensures DayNumber(year, 12, 31) == DaysInYears(year) - DNOFF
  {
    hide IsLeap;
    SinceYearOne(year, 12, 31);
    DaysBeforeTable(year);
  }

  /** 1 January of year 1 is a Monday, so no week of year 1 begins before it. */
  lemma YearOneStartsOnMonday(year: int)
    requires year >= 1
    ensures Jan1Weekday(year) > 1 ==> year >= 2
  {
  }

  /** The weekday of the date is the weekday that was asked for. */
  lemma WeekdayIsKept(year: int, week: int, weekday: int)
    requires year >= 1 && week >= 1 && 1 <= weekday <= 7
    ensures WeekDate(year, week, weekday) + DNOFF >= 0
    ensures Weekday(WeekDate(year, week, weekday)) == weekday && Dn2Dow(WeekDate(year, week, weekday)) == weekday % 7
  {
    hide IsLeap, DaysInYears;
    FirstDay(year);
    SinceYearOne(year, 1, 4);
    var d := DayNumber(year, 1, 4) + DNOFF;
    DayOfWeek(DayNumber(year, 1, 4));
    DayOfWeek(WeekDate(year, week, weekday));
    assert d == DaysInYears(year - 1) + 4;
    MondayBefore(d);
    Later(d - (d + 6) % 7, week, weekday);
  }

  lemma MondayBefore(d: int)
    requires d >= 4
    ensures (d - (d + 6) % 7) % 7 == 1 && d - (d + 6) % 7 >= 1
  {
  }

  lemma Later(m: int, week: int, weekday: int)
    requires m % 7 == 1 && m >= 1 && week >= 1 && 1 <= weekday <= 7
    ensures var x := m + 7 * (week - 1) + (weekday - 1); x % 7 == weekday % 7 && (x + 6) % 7 + 1 == weekday
  {
    var k := m / 7 + week - 1;
    assert m + 7 * (week - 1) + (weekday - 1) == 7 * k + weekday;
    WholeWeeks(k, weekday);
    WholeWeeks(k, weekday + 6);
  }
}
