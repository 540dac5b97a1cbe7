/** The two calendar loops: the daemon's, from a date to a day count, and the CLI's, from a day count to a
    date. Both are proved against one closed formula. */
module Calendar {
  import opened Wrappers

  datatype Date = Date(year: nat, month: nat, day: nat)

  predicate IsLeap(year: int) {
    (year % 4 == 0 && year % 100 != 0) || year % 400 == 0
  }

  function DaysInYear(year: int): nat {
    if IsLeap(year) then 366 else 365
  }

  const MONTH_DAYS: seq<nat> := [0, 31, 28, 31, 30, 31, 30, 31, 31, 30, 31, 30, 31]

  /** The number of days of a month; section 5.7 and Appendix C of RFC 3339 say the same. */
  function DaysInMonth(year: int, month: nat): nat
    requires 1 <= month <= 12
  {
    MONTH_DAYS[month] + if month == 2 && IsLeap(year) then 1 else 0
  }

  predicate IsLegal(d: Date) {
    d.year >= 1970 && 1 <= d.month <= 12 && 1 <= d.day <= DaysInMonth(d.year, d.month)
  }

  // ---------------------------------------------------------------- the closed formula

  /** Days from 1 January 1970 to 1 January of `year`: the "Seconds Since the Epoch" formula of XBD
      section 4.16 of IEEE Std 1003.1-2017, whose `tm_year` is the year minus 1900. */
  function DaysBeforeYear(year: int): int {
    var tmYear := year - 1900;
    (tmYear - 70) * 365 + (tmYear - 69) / 4 - (tmYear - 1) / 100 + (tmYear + 299) / 400
  }

  /** Days of a common year before each month; entry 13 is the whole year. */
  const DAYS_BEFORE_MONTH: seq<nat> := [0, 0, 31, 59, 90, 120, 151, 181, 212, 243, 273, 304, 334, 365]

  function DaysBeforeMonth(year: int, month: nat): nat
    requires 1 <= month <= 13
  {
    DAYS_BEFORE_MONTH[month] + if month > 2 && IsLeap(year) then 1 else 0
  }

  /** The day number of a date, counted from 1 January 1970. */
  function DayNumber(d: Date): int
    requires 1 <= d.month <= 13
  {
    DaysBeforeYear(d.year) + DaysBeforeMonth(d.year, d.month) + d.day - 1
  }

  lemma EveryFourth(year: int)
    ensures (year - 1968) / 4 == (year - 1969) / 4 + if year % 4 == 0 then 1 else 0
  {
  }

  lemma EveryHundredth(year: int)
    ensures (year - 1900) / 100 == (year - 1901) / 100 + if year % 100 == 0 then 1 else 0
  {
  }

  lemma EveryFourHundredth(year: int)
    ensures (year - 1600) / 400 == (year - 1601) / 400 + if year % 400 == 0 then 1 else 0
    ensures year % 400 == 0 ==> year % 100 == 0
    ensures year % 100 == 0 ==> year % 4 == 0
  {
  }

  lemma YearStep(year: int)
    ensures DaysBeforeYear(year + 1) == DaysBeforeYear(year) + DaysInYear(year)
    ensures DaysBeforeYear(1970) == 0
  {
    EveryFourth(year);
    EveryHundredth(year);
    EveryFourHundredth(year);
    var t := year - 1900;
    assert (t + 1 - 69, t + 1 - 1, t + 1 + 299) == (year - 1968, year - 1900, year - 1600);
    assert (t - 69, t - 1, t + 299) == (year - 1969, year - 1901, year - 1601);
  }

  lemma MonthStep(year: int, month: nat)
    requires 1 <= month <= 12
    ensures DaysBeforeMonth(year, month + 1) == DaysBeforeMonth(year, month) + DaysInMonth(year, month)
    ensures DaysBeforeMonth(year, 1) == 0 && DaysBeforeMonth(year, 13) == DaysInYear(year)
  {
  }

  // ---------------------------------------------------------------- dates and day numbers

  lemma {:induction false} MonthsAreOrdered(year: int, m: nat, n: nat)
    requires 1 <= m < n <= 13
    ensures DaysBeforeMonth(year, m) + DaysInMonth(year, m) <= DaysBeforeMonth(year, n)
    decreases n
  {
    MonthStep(year, n - 1);
    if m < n - 1 {
      MonthsAreOrdered(year, m, n - 1);
    }
  }

  lemma {:induction false} YearsAreOrdered(y: int, z: int)
    requires y < z
    ensures DaysBeforeYear(y) + DaysInYear(y) <= DaysBeforeYear(z)
    decreases z - y
  {
    YearStep(z - 1);
    if y < z - 1 {
      YearsAreOrdered(y, z - 1);
    }
  }

  ghost predicate Earlier(a: Date, b: Date) {
    a.year < b.year || (a.year == b.year && (a.month < b.month || (a.month == b.month && a.day < b.day)))
  }

  lemma DayInYear(d: Date)
    requires IsLegal(d)
    ensures DaysBeforeYear(d.year) <= DayNumber(d) < DaysBeforeYear(d.year) + DaysInYear(d.year)
  {
    MonthStep(d.year, d.month);
    MonthStep(d.year, 12);
    if d.month < 12 {
      MonthsAreOrdered(d.year, d.month, 13);
    }
  }

  /** Legal dates and day numbers are in the same order; so a day number belongs to at most one date. */
  lemma DayNumbersFollowDates(a: Date, b: Date)
    requires IsLegal(a) && IsLegal(b)
    ensures Earlier(a, b) <==> DayNumber(a) < DayNumber(b)
    ensures a == b <==> DayNumber(a) == DayNumber(b)
  {
    if Earlier(a, b) {
      EarlierMeansFewerDays(a, b);
    } else if Earlier(b, a) {
      EarlierMeansFewerDays(b, a);
    } else {
      assert a == b;
    }
  }

  lemma EarlierMeansFewerDays(a: Date, b: Date)
    requires IsLegal(a) && IsLegal(b) && Earlier(a, b)
    ensures DayNumber(a) < DayNumber(b)
  {
    if a.year < b.year {
      DayInYear(a);
      DayInYear(b);
      YearsAreOrdered(a.year, b.year);
    } else if a.month < b.month {
      MonthsAreOrdered(a.year, a.month, b.month);
    }
  }

  lemma LegalDaysAreNotNegative(d: Date)
    requires IsLegal(d)
    ensures DayNumber(d) >= 0
  {
    DayInYear(d);
    YearStep(1970);
    if d.year > 1970 {
      YearsAreOrdered(1970, d.year);
    }
  }

  // ---------------------------------------------------------------- the daemon's loops

  /** The day count of `chrono_parse_naive`. A month above 13 indexes the month table out of bounds and
      aborts the call; years before 1970 contribute nothing. */
  method CountDays(year: nat, month: nat, day: nat) returns (days: Option<int>)
    ensures days.None? <==> month > 13
    ensures days.Some? ==> days.value == DaysFromFields(year, month, day)
  {
    var count := 0;
    var y := 1970;
    YearStep(1970);
    while y < year
      invariant 1970 <= y && (year < 1970 ==> y == 1970) && (year >= 1970 ==> y <= year)
      invariant count == DaysBeforeYear(y)
    {
      YearStep(y);
      count := count + if IsLeap(y) then 366 else 365;
      y := y + 1;
    }
    ghost var yearDays := count;
    var m := 1;
    MonthStep(year, 1);
    while m < month
      invariant 1 <= m <= 13 && (month >= 1 ==> m <= month) && (month == 0 ==> m == 1)
      invariant count == yearDays + DaysBeforeMonth(year, m)
      decreases month - m
    {
      if m > 12 {
        return None;
      }
      MonthStep(year, m);
      count := count + MONTH_DAYS[m];
      if m == 2 && IsLeap(year) {
        count := count + 1;
      }
      m := m + 1;
    }
    return Some(count + day - 1);
  }

  /** The same count in closed form. */
  function DaysFromFields(year: nat, month: nat, day: nat): int
    requires month <= 13
  {
    (if year < 1970 then 0 else DaysBeforeYear(year))
    + (if month == 0 then 0 else DaysBeforeMonth(year, month)) + day - 1
  }

  /** The day count of a month from 1 to 12 is the day number of the date exactly from 1970 on, whatever the
      day; before 1970 it is too large. */
  lemma CountIsExact(year: nat, month: nat, day: nat)
    requires 1 <= month <= 12
    ensures DaysFromFields(year, month, day) == DayNumber(Date(year, month, day)) <==> year >= 1970
    ensures year < 1970 ==> DaysFromFields(year, month, day) > DayNumber(Date(year, month, day))
  {
    if year < 1970 {
      YearStep(1970);
      YearsAreOrdered(year, 1970);
    }
  }

  // ---------------------------------------------------------------- the CLI's loops

  /** The legal date with a given day number. */
  ghost function DateOf(days: nat): (d: Date)
    ensures IsLegal(d) && DayNumber(d) == days
  {
    DateExists(days);
    var d :| IsLegal(d) && DayNumber(d) == days;
    d
  }

  lemma {:induction false} DateExists(days: nat)
    ensures exists d :: IsLegal(d) && DayNumber(d) == days
  {
    YearStep(1970);
    if days == 0 {
      assert IsLegal(Date(1970, 1, 1)) && DayNumber(Date(1970, 1, 1)) == 0;
    } else {
      DateExists(days - 1);
      var d :| IsLegal(d) && DayNumber(d) == days - 1;
      var next := NextDay(d);
    }
  }

  lemma NextDay(d: Date) returns (next: Date)
    requires IsLegal(d)
    ensures IsLegal(next) && DayNumber(next) == DayNumber(d) + 1
  {
    MonthStep(d.year, d.month);
    if d.day < DaysInMonth(d.year, d.month) {
      next := Date(d.year, d.month, d.day + 1);
    } else if d.month < 12 {
      next := Date(d.year, d.month + 1, 1);
    } else {
      YearStep(d.year);
      MonthStep(d.year, 12);
      MonthStep(d.year + 1, 1);
      next := Date(d.year + 1, 1, 1);
    }
  }

  /** `days_to_date`, with its two loops. */
  method DaysToDate(days0: nat) returns (d: Date)
    ensures IsLegal(d) && DayNumber(d) == days0
    ensures d == DateOf(days0)
  {
    var days, year := days0, 1970;
    YearStep(1970);
    while true
      invariant 1970 <= year && 0 <= days && days0 == DaysBeforeYear(year) + days
      decreases days
    {
      var daysInYear := if IsLeap(year) then 366 else 365;
      if days < daysInYear {
        break;
      }
      YearStep(year);
      days := days - daysInYear;
      year := year + 1;
    }
    ghost var inYear := days;
    var lengths := if IsLeap(year) then [31, 29, 31, 30, 31, 30, 31, 31, 30, 31, 30, 31]
                   else [31, 28, 31, 30, 31, 30, 31, 31, 30, 31, 30, 31];
    MonthLengths(year, lengths);
    var month := 1;
    for i := 0 to |lengths|
      invariant month == i + 1 && 0 <= days && inYear == DaysBeforeMonth(year, month) + days
      invariant inYear < DaysInYear(year) && DaysBeforeMonth(year, 13) == DaysInYear(year)
    {
      MonthStep(year, month);
      if days < lengths[i] {
        break;
      }
      days := days - lengths[i];
      month := month + 1;
    }
    d := Date(year, month, days + 1);
    DayNumbersFollowDates(d, DateOf(days0));
  }

  lemma MonthLengths(year: int, lengths: seq<nat>)
    requires lengths == if IsLeap(year) then [31, 29, 31, 30, 31, 30, 31, 31, 30, 31, 30, 31]
                        else [31, 28, 31, 30, 31, 30, 31, 31, 30, 31, 30, 31]
    ensures forall i :: 0 <= i < 12 ==> lengths[i] == DaysInMonth(year, i + 1)
    ensures DaysBeforeMonth(year, 1) == 0 && DaysBeforeMonth(year, 13) == DaysInYear(year)
  {
  }
}
