/** Day numbers: days since 1 January 1970 in the Gregorian calendar. */
module Datenum {
  import opened Words

  const DNOFF := 719163

  predicate IsLeap(yr: int) {
    yr % 400 == 0 || (yr % 4 == 0 && yr % 100 != 0)
  }

  // ---- The calendar, day by day ----

  function MonthLength(yr: int, mo: int): int
    requires 1 <= mo <= 12
  {
    if mo == 2 then if IsLeap(yr) then 29 else 28
    else if mo == 4 || mo == 6 || mo == 9 || mo == 11 then 30 else 31
  }

  function YearLength(yr: int): int {
    if IsLeap(yr) then 366 else 365
  }

  /** Days in the years 1 to yr. */
  function DaysInYears(yr: nat): nat {
    if yr == 0 then 0 else DaysInYears(yr - 1) + YearLength(yr)
  }

  /** Days in the months before mo. */
  function DaysBefore(yr: int, mo: int): int
    requires 1 <= mo <= 13
    decreases mo
  {
    if mo == 1 then 0 else DaysBefore(yr, mo - 1) + MonthLength(yr, mo - 1)
  }

  predicate ValidDate(yr: int, mo: int, day: int) {
    yr >= 1 && 1 <= mo <= 12 && 1 <= day <= MonthLength(yr, mo)
  }

  /** Days in the years from a to the one before b. */
  function DaysFrom(a: int, b: int): int
    requires a <= b
    decreases b - a
  {
    if a == b then 0 else DaysFrom(a, b - 1) + YearLength(b - 1)
  }

  /** How many days after 1 January 1970 a date is, counted in years and months; less than zero for
      a date before. */
  function DayNumber(yr: int, mo: int, day: int): int
    requires 1 <= mo <= 12
  {
    (if yr >= 1970 then DaysFrom(1970, yr) else -DaysFrom(yr, 1970)) + DaysBefore(yr, mo) + (day - 1)
  }

  /** The day after a date. */
  function NextDay(yr: int, mo: int, day: int): (int, int, int)
    requires ValidDate(yr, mo, day)
  {
    if day < MonthLength(yr, mo) then (yr, mo, day + 1)
    else if mo < 12 then (yr, mo + 1, 1)
    else (yr + 1, 1, 1)
  }

  /** 1 January 1970 is day 0, and every day has the number that follows the number of the day before. */
  lemma DaysAreCounted(yr: int, mo: int, day: int)
    requires ValidDate(yr, mo, day)
    ensures DayNumber(1970, 1, 1) == 0
    ensures var (y, m, d) := NextDay(yr, mo, day); ValidDate(y, m, d) && DayNumber(y, m, d) == DayNumber(yr, mo, day) + 1
  {
    hide IsLeap;
    DaysBeforeTable(yr);
    if yr < 1970 {
      FirstYear(yr, 1970);
    }
  }

  lemma {:induction false} FirstYear(a: int, b: int)
    requires a < b
    ensures DaysFrom(a, b) == YearLength(a) + DaysFrom(a + 1, b)
    decreases b - a
  {
    if a + 1 < b {
      FirstYear(a, b - 1);
    }
  }

  /** The same, counted from the beginning of year 1. */
  lemma SinceYearOne(yr: int, mo: int, day: int)
    requires yr >= 1 && 1 <= mo <= 12
    ensures DayNumber(yr, mo, day) == DaysInYears(yr - 1) + DaysBefore(yr, mo) + day - DNOFF
  {
    hide DaysInYears, DaysBefore;
    YearsToDaysCounts(1969);
    if yr >= 1970 {
      DaysFromIs(1970, yr);
    } else {
      DaysFromIs(yr, 1970);
    }
  }

  lemma {:induction false} DaysFromIs(a: int, b: int)
    requires 1 <= a <= b
    ensures DaysFrom(a, b) == DaysInYears(b - 1) - DaysInYears(a - 1)
    decreases b
  {
    if a < b {
      DaysFromIs(a, b - 1);
      assert DaysInYears(b - 1) == DaysInYears(b - 2) + YearLength(b - 1);
    }
  }

  lemma DaysBeforeTable(yr: int)
    ensures var l := if IsLeap(yr) then 1 else 0;
            forall mo | 1 <= mo <= 13 :: DaysBefore(yr, mo) ==
              [0, 31, 59 + l, 90 + l, 120 + l, 151 + l, 181 + l, 212 + l, 243 + l, 273 + l, 304 + l, 334 + l, 365 + l][mo - 1]
  {
    assert DaysBefore(yr, 1) == 0 && DaysBefore(yr, 2) == 31;
    assert DaysBefore(yr, 4) == DaysBefore(yr, 3) + 31;
    assert DaysBefore(yr, 6) == DaysBefore(yr, 4) + 61;
    assert DaysBefore(yr, 8) == DaysBefore(yr, 6) + 61;
    assert DaysBefore(yr, 10) == DaysBefore(yr, 8) + 61;
    assert DaysBefore(yr, 12) == DaysBefore(yr, 10) + 61;
    assert DaysBefore(yr, 13) == DaysBefore(yr, 12) + 31;
  }

  // ---- The formulas ----

  /** A C long: the low 32 bits, taken as a signed number. */
  function Wrap(x: int): (w: int)
    ensures INT_MIN <= w <= INT_MAX
  {
    (x - INT_MIN) % 0x1_0000_0000 + INT_MIN
  }

  lemma WrapSum(a: int, b: int)
    ensures Wrap(Wrap(a) + b) == Wrap(a + b)
  {
  }

  function MonthsToDays(month: int): int {
    (month * 3057 - 3007) / 100
  }

  /** Division in C drops the fraction. */
  function Quot(a: int, b: int): int
    requires b > 0
  {
    if a >= 0 then a / b else -(-a / b)
  }

  function YearsToDays(yr: int): int {
    yr * 365 + Quot(yr, 4) - Quot(yr, 100) + Quot(yr, 400)
  }

  lemma Formula(yr: nat)
    ensures YearsToDays(yr) == yr * 365 + yr / 4 - yr / 100 + yr / 400
  {
  }

  /** The formula for years counts the days of the calendar. */
  lemma {:induction false} YearsToDaysCounts(yr: nat)
    ensures YearsToDays(yr) == DaysInYears(yr)
  {
    hide YearsToDays, Quot;
    Formula(yr);
    if yr > 0 {
      YearsToDaysCounts(yr - 1);
      Formula(yr - 1);
      Fours(yr);
      Centuries(yr);
      FourCenturies(yr);
      Remainders(yr);
    }
  }

  lemma Fours(yr: nat)
    requires yr > 0
    ensures yr / 4 == (yr - 1) / 4 + if yr % 4 == 0 then 1 else 0
  {
  }

  lemma Centuries(yr: nat)
    requires yr > 0
    ensures yr / 100 == (yr - 1) / 100 + if yr % 100 == 0 then 1 else 0
  {
  }

  lemma FourCenturies(yr: nat)
    requires yr > 0
    ensures yr / 400 == (yr - 1) / 400 + if yr % 400 == 0 then 1 else 0
  {
  }

  /** The formula for months, with its adjustment past February. */
  lemma MonthsToDaysCounts(yr: int, mo: int)
    requires 1 <= mo <= 12
    ensures MonthsToDays(mo) - (if mo > 2 then if IsLeap(yr) then 1 else 2 else 0) == DaysBefore(yr, mo)
  {
    DaysBeforeTable(yr);
    assert mo == 1 || mo == 2 || mo == 3 || mo == 4 || mo == 5 || mo == 6 || mo == 7 || mo == 8 || mo == 9 || mo == 10
        || mo == 11 || mo == 12;
  }

  /** The day number of a date, as far as an int can hold it. */
  method Date2Dn(yr: int, mo: int, day: int) returns (dn: int)
    requires yr >= 1 && 1 <= mo <= 12
    ensures dn == Wrap(DayNumber(yr, mo, day))
  {
    MonthsToDaysCounts(yr, mo);
    dn := day + MonthsToDays(mo);
    if mo > 2 {
      dn := dn - if IsLeap(yr) then 1 else 2;
    }
    YearsToDaysCounts(yr - 1);
    dn := Wrap(dn + Wrap(YearsToDays(yr - 1)) - DNOFF);
    SinceYearOne(yr, mo, day);
    WrapSum(YearsToDays(yr - 1), DaysBefore(yr, mo) + day - DNOFF);
  }

  // ---- From a day number to a date ----

  /** The year that the d-th day since the beginning of year 1 falls in. */
  ghost predicate InYear(d: int, yr: int) {
    yr >= 1 && DaysInYears(yr - 1) < d <= DaysInYears(yr)
  }

  /** 400 years have 146097 days; how far the days of n years can be from that rate. */
  lemma YearDrift(n: nat)
    ensures -591 <= 400 * YearsToDays(n) - 146097 * n <= 288
  {
    var r, s := n % 400, n % 100;
    Remainders(n);
    assert 400 * YearsToDays(n) - 146097 * n == -100 * (n % 4) + 4 * s - r;
    assert r == 100 * (r / 100) + s && 0 <= r / 100 <= 3;
    assert s == 4 * (s / 4) + n % 4 && 0 <= s / 4 <= 24;
  }

  lemma Remainders(n: nat)
    ensures n % 400 % 100 == n % 100 && n % 100 % 4 == n % 4
  {
    Multiple(n % 400, 4 * (n / 400));
    Quadruple(n % 100, 25 * (n / 100));
  }

  lemma Multiple(r: int, k: int)
    ensures (100 * k + r) % 100 == r % 100
  {
  }

  lemma Quadruple(r: int, k: int)
    ensures (4 * k + r) % 4 == r % 4
  {
  }

  /** The search for the year starts no later than the answer and no more than two years early. */
  lemma SearchIsShort(d: int, yr: int)
    requires InYear(d, yr)
    ensures 0 <= d * 400 / 146097 <= yr <= d * 400 / 146097 + 2
  {
    YearDrift(yr);
    YearDrift(yr - 1);
    YearsToDaysCounts(yr);
    YearsToDaysCounts(yr - 1);
  }

  lemma {:induction false} DaysGrow(a: nat, b: nat)
    requires a <= b
    ensures DaysInYears(a) + 365 * (b - a) <= DaysInYears(b)
    decreases b
  {
    if a < b {
      DaysGrow(a, b - 1);
    }
  }

  /** Every day from the first of year 1 on falls in a year. */
  lemma {:induction false} YearOf(d: int, bound: nat) returns (yr: int)
    requires 1 <= d <= DaysInYears(bound)
    ensures InYear(d, yr)
  {
    if d <= DaysInYears(bound - 1) {
      yr := YearOf(d, bound - 1);
    } else {
      yr := bound;
    }
  }

  /** The product in the year search is exact up to day 5368709 since the beginning of year 1, and
      from the next day on it is not. */
  lemma ProductBound(d: int)
    requires d >= 0
    ensures Wrap(d * 400) == d * 400 <==> d <= 5368709
  {
  }

  /** The last day promised, 31 December 14699, is inside that bound. */
  lemma LastDayFits()
    ensures DayNumber(14699, 12, 31) + DNOFF == DaysInYears(14699) == 5368699
  {
    SinceYearOne(14699, 12, 31);
    YearsToDaysCounts(14699);
    YearsToDaysCounts(14698);
    DaysBeforeTable(14699);
  }

  /** Splits a day of the year into month and day. */
  method MonthAndDay(dayOfYear: int, yr: int) returns (mo: int, day: int)
    requires 1 <= dayOfYear <= YearLength(yr)
    ensures 1 <= mo <= 12 && 1 <= day <= MonthLength(yr, mo) && DaysBefore(yr, mo) + day == dayOfYear
  {
    hide IsLeap, DaysBefore;
    DaysBeforeTable(yr);
    var n := dayOfYear;
    if n > 59 {
      n := n + 2;
      if IsLeap(yr) {
        n := n - if n > 62 then 1 else 2;
      }
    }
    mo := (n * 100 + 3007) / 3057;
    day := n - MonthsToDays(mo);
    assert mo == 1 || mo == 2 || mo == 3 || mo == 4 || mo == 5 || mo == 6 || mo == 7 || mo == 8 || mo == 9 || mo == 10
        || mo == 11 || mo == 12;
  }

  /** The last year that ends before an int does. */
  const LAST_YEAR := 5879610
  const LAST_DAY := 2147483455

  lemma LastYearEnds()
    ensures DaysInYears(LAST_YEAR) == LAST_DAY && DaysInYears(LAST_YEAR + 1) > INT_MAX
  {
    YearsToDaysCounts(LAST_YEAR);
    YearsToDaysCounts(LAST_YEAR + 1);
  }

  /** The day number of the last day of a year is an int exactly for the years up to that one. */
  lemma YearFits(d: int, yr: int)
    requires InYear(d, yr) && d <= INT_MAX
    ensures DaysInYears(yr) <= INT_MAX <==> d <= LAST_DAY
  {
    hide YearLength;
    LastYearEnds();
    if yr <= LAST_YEAR {
      DaysGrow(yr, LAST_YEAR);
    } else {
      DaysGrow(LAST_YEAR, yr - 1);
      DaysGrow(LAST_YEAR + 1, yr);
    }
  }

  /** Where the search begins: never after the answer, even if the product has overflowed. */
  lemma SearchStart(d: int, yr: int)
    requires InYear(d, yr) && d <= INT_MAX
    ensures -14699 <= Quot(Wrap(d * 400), 146097) <= yr
  {
    SearchIsShort(d, yr);
    assert Wrap(d * 400) <= d * 400;
  }

  lemma WrapValue(x: int)
    requires INT_MIN <= x <= INT_MAX + 366
    ensures Wrap(x) == if x <= INT_MAX then x else x - 0x1_0000_0000
  {
  }

  lemma YearsBefore(n: int)
    requires -14699 <= n < 0
    ensures INT_MIN <= YearsToDays(n) < 0
  {
  }

  /** The search goes past every year before the answer. It stops at the answer exactly if that year
      ends before an int does; otherwise it goes on to later years. */
  lemma SearchStops(d: int, yr: int, n: int)
    requires InYear(d, yr) && d <= INT_MAX && -14699 <= n <= yr
    ensures Wrap(YearsToDays(n)) >= d <==> n == yr && d <= LAST_DAY
  {
    hide Wrap, YearsToDays;
    YearFits(d, yr);
    if n < 0 {
      YearsBefore(n);
    } else {
      YearsToDaysCounts(n);
      if n < yr {
        DaysGrow(n, yr - 1);
      } else {
        assert DaysInYears(yr) == DaysInYears(yr - 1) + YearLength(yr);
      }
    }
    WrapValue(YearsToDays(n));
  }

  /** The first day on which it does not stop: the search passes all years up to the answer, and the
      answer too. */
  lemma SearchPassesBy(n: int)
    requires -14699 <= n <= LAST_YEAR + 1
    ensures LAST_DAY + 1 == 2147483456 && InYear(LAST_DAY + 1, LAST_YEAR + 1)
    ensures Wrap(YearsToDays(n)) < LAST_DAY + 1
  {
    hide Wrap, YearsToDays;
    LastYearEnds();
    SearchStops(LAST_DAY + 1, LAST_YEAR + 1, n);
  }

  /** The date of a day number, also on days on which the product overflows. */
  method Dn2Date(dn: int) returns (yr: int, mo: int, day: int)
    requires 1 <= dn + DNOFF <= LAST_DAY
    ensures ValidDate(yr, mo, day) && DayNumber(yr, mo, day) == dn
  {
    var d := dn + DNOFF;
    DaysGrow(0, d);
    ghost var answer := YearOf(d, d);
    SearchStart(d, answer);
    yr := Quot(Wrap(d * 400), 146097);
    SearchStops(d, answer, yr);
    while Wrap(YearsToDays(yr)) < d
      invariant -14699 <= yr <= answer
      invariant Wrap(YearsToDays(yr)) >= d <==> yr == answer
      decreases answer - yr
    {
      yr := yr + 1;
      SearchStops(d, answer, yr);
    }
    YearsToDaysCounts(yr - 1);
    mo, day := MonthAndDay(d - YearsToDays(yr - 1), yr);
    SinceYearOne(yr, mo, day);
  }

  lemma DayOfYear(yr: int, mo: int, day: int)
    requires ValidDate(yr, mo, day)
    ensures 1 <= DaysBefore(yr, mo) + day <= YearLength(yr)
    ensures mo < 12 ==> DaysBefore(yr, mo) + day <= DaysBefore(yr, mo + 1)
    ensures DaysInYears(yr) == DaysInYears(yr - 1) + YearLength(yr)
  {
    hide IsLeap;
    DaysBeforeTable(yr);
  }

  lemma {:induction false} MonthsGrow(yr: int, a: int, b: int)
    requires 1 <= a <= b <= 13
    ensures DaysBefore(yr, a) <= DaysBefore(yr, b)
    decreases b
  {
    if a < b {
      MonthsGrow(yr, a, b - 1);
    }
  }

  /** No two dates have the same day number, so the two conversions undo each other. */
  lemma DatesDiffer(y1: int, m1: int, d1: int, y2: int, m2: int, d2: int)
    requires ValidDate(y1, m1, d1) && ValidDate(y2, m2, d2) && DayNumber(y1, m1, d1) == DayNumber(y2, m2, d2)
    ensures y1 == y2 && m1 == m2 && d1 == d2
  {
    hide IsLeap, DaysBefore, DaysInYears;
    SinceYearOne(y1, m1, d1);
    SinceYearOne(y2, m2, d2);
    DayOfYear(y1, m1, d1);
    DayOfYear(y2, m2, d2);
    if y1 < y2 {
      DaysGrow(y1, y2 - 1);
    } else if y2 < y1 {
      DaysGrow(y2, y1 - 1);
    } else if m1 < m2 {
      MonthsGrow(y1, m1 + 1, m2);
    } else if m2 < m1 {
      MonthsGrow(y1, m2 + 1, m1);
    }
  }

  /** The date that Dn2Date must give is the one that Date2Dn was given. */
  method RoundTrip(yr: int, mo: int, day: int) returns (y: int, m: int, d: int)
    requires ValidDate(yr, mo, day) && yr <= LAST_YEAR
    ensures y == yr && m == mo && d == day
  {
    hide IsLeap, DaysBefore, DaysInYears;
    SinceYearOne(yr, mo, day);
    DayOfYear(yr, mo, day);
    DaysGrow(0, yr - 1);
    DaysGrow(yr, LAST_YEAR);
    LastYearEnds();
    var dn := Date2Dn(yr, mo, day);
    y, m, d := Dn2Date(dn);
    DatesDiffer(yr, mo, day, y, m, d);
  }

  function Dn2Dow(dn: int): int
    requires dn + DNOFF >= 0
  {
    (dn + DNOFF) % 7
  }
}
