/** Day counts since 1 January 1900 as Gregorian dates. */
module Calendar {
  import opened Arithmetic

  datatype Date = Date(year: int, month: int, day: int)

  predicate IsLeap(year: int) {
    (year % 4 == 0 && year % 100 != 0) || year % 400 == 0
  }

  function YearDays(year: int): int {
    if IsLeap(year) then 366 else 365
  }

  function MonthDays(year: int, month: int): (n: int)
    requires 1 <= month <= 12
    ensures 28 <= n <= 31
  {
    if month == 2 then (if IsLeap(year) then 29 else 28)
    else if month in {4, 6, 9, 11} then 30
    else 31
  }

  predicate ValidDate(d: Date) {
    d.year >= 1900 && 1 <= d.month <= 12 && 1 <= d.day <= MonthDays(d.year, d.month)
  }

  /** Leap years among the years 1 to `year`. */
  function LeapsUpTo(year: int): int {
    year / 4 - year / 100 + year / 400
  }

  /** The closed form: days from 1 January 1900 to 1 January of that year. */
  function DaysBeforeYear(year: int): int {
    (year - 1900) * 365 + LeapsUpTo(year - 1) - LeapsUpTo(1899)
  }

  /** The closed form for months: thirty days each, with the usual corrections. */
  function DaysBeforeMonth(year: int, month: int): int
    requires 1 <= month <= 13
  {
    if month == 1 then 0
    else if month == 2 then 31
    else 30 * (month - 1) + (if month <= 8 then month / 2 else (month + 1) / 2) - (if IsLeap(year) then 1 else 2)
  }

  function DayNumber(d: Date): int
    requires 1 <= d.month <= 12
  {
    DaysBeforeYear(d.year) + DaysBeforeMonth(d.year, d.month) + d.day - 1
  }

  lemma NextQuotient(n: int, k: nat)
    requires k > 1
    ensures n / k == (n - 1) / k + if n % k == 0 then 1 else 0
  {
    var q, r := n / k, n % k;
    if r == 0 {
      assert (q - 1) * k == q * k - k;
      DivModUnique(n - 1, q - 1, k - 1, k);
    } else {
      DivModUnique(n - 1, q, r - 1, k);
    }
  }

  lemma NextYear(year: int)
    ensures DaysBeforeYear(year + 1) == DaysBeforeYear(year) + YearDays(year)
    ensures DaysBeforeYear(1900) == 0
  {
    NextQuotient(year, 4);
    NextQuotient(year, 100);
    NextQuotient(year, 400);
    Centuries(year);
    assert year + 1 - 1 == year;
  }

  /** A year divisible by 400 is divisible by 100, and one divisible by 100 is divisible by 4. */
  lemma Centuries(year: int)
    ensures year % 400 == 0 ==> year % 100 == 0
    ensures year % 100 == 0 ==> year % 4 == 0
  {
  }

  lemma NextMonth(year: int, month: int)
    requires 1 <= month <= 12
    ensures DaysBeforeMonth(year, month + 1) == DaysBeforeMonth(year, month) + MonthDays(year, month)
    ensures DaysBeforeMonth(year, 13) == YearDays(year)
  {
    hide IsLeap;
  }

  /**
   * DaysSince1900ToYmd, with its two subtraction loops: a date whose day number
   * is the count, and a valid one exactly if the count is not negative.
   */
  method DaysSince1900ToYmd(days: int) returns (d: Date)
    ensures 1 <= d.month <= 12 && DayNumber(d) == days
    ensures ValidDate(d) <==> days >= 0
  {
    hide IsLeap, DaysBeforeYear, DaysBeforeMonth, MonthDays;
    var year, remaining := 1900, days;
    NextYear(1900);
    while remaining >= 365
      invariant year >= 1900 && remaining == days - DaysBeforeYear(year)
      invariant if days >= 0 then remaining >= 0 else year == 1900 && remaining == days
      decreases remaining
    {
      var yearDays := if IsLeap(year) then 366 else 365;
      if remaining < yearDays {
        break;
      }
      NextYear(year);
      remaining := remaining - yearDays;
      year := year + 1;
    }
    var month := 1;
    assert DaysBeforeMonth(year, 1) == 0 by { FirstMonth(year); }
    while month <= 12
      invariant 1 <= month <= 13
      invariant remaining + DaysBeforeMonth(year, month) == days - DaysBeforeYear(year)
      invariant remaining + DaysBeforeMonth(year, month) < YearDays(year)
      invariant if days >= 0 then remaining >= 0 else month == 1 && remaining == days
      decreases 13 - month
    {
      var monthDays := MonthDays(year, month);
      if remaining < monthDays {
        break;
      }
      NextMonth(year, month);
      remaining := remaining - monthDays;
      month := month + 1;
    }
    NextMonth(year, 1);
    d := Date(year, month, remaining + 1);
  }

  lemma FirstMonth(year: int)
    ensures DaysBeforeMonth(year, 1) == 0
  {
  }

  lemma {:induction false} NegativeYear(year: int)
    requires year >= 1900
    ensures DaysBeforeYear(year) >= 0
    decreases year
  {
    hide IsLeap, DaysBeforeYear;
    NextYear(1900);
    if year > 1900 {
      NextYear(year - 1);
      NegativeYear(year - 1);
    }
  }

  // ----- One date for each count, and in the same order -----

  ghost predicate Earlier(a: Date, b: Date) {
    a.year < b.year || (a.year == b.year && (a.month < b.month || (a.month == b.month && a.day < b.day)))
  }

  lemma {:induction false} YearsGrow(a: int, b: int)
    requires a < b
    ensures DaysBeforeYear(a) + YearDays(a) <= DaysBeforeYear(b)
    decreases b - a
  {
    hide IsLeap, DaysBeforeYear;
    NextYear(b - 1);
    if a < b - 1 {
      YearsGrow(a, b - 1);
    }
  }

  lemma {:induction false} MonthsGrow(year: int, a: int, b: int)
    requires 1 <= a < b <= 13
    ensures DaysBeforeMonth(year, a) + MonthDays(year, a) <= DaysBeforeMonth(year, b)
    decreases b - a
  {
    hide IsLeap, DaysBeforeMonth, MonthDays;
    NextMonth(year, b - 1);
    if a < b - 1 {
      MonthsGrow(year, a, b - 1);
    }
  }

  lemma WithinYear(d: Date)
    requires ValidDate(d)
    ensures 0 <= DaysBeforeMonth(d.year, d.month) + d.day - 1 < YearDays(d.year)
  {
    hide IsLeap, DaysBeforeMonth, MonthDays;
    NextMonth(d.year, d.month);
    FirstMonth(d.year);
    if d.month > 1 {
      MonthsGrow(d.year, 1, d.month);
    }
    if d.month < 12 {
      MonthsGrow(d.year, d.month, 13);
    }
  }

  lemma EarlierIsLess(a: Date, b: Date)
    requires ValidDate(a) && ValidDate(b) && Earlier(a, b)
    ensures DayNumber(a) < DayNumber(b)
  {
    hide IsLeap, DaysBeforeYear, DaysBeforeMonth, MonthDays, YearDays;
    WithinYear(a);
    WithinYear(b);
    if a.year < b.year {
      YearsGrow(a.year, b.year);
    } else if a.month < b.month {
      MonthsGrow(a.year, a.month, b.month);
    }
  }

  /** Valid dates are ordered as their day numbers, and no two share one. */
  lemma SameOrder(a: Date, b: Date)
    requires ValidDate(a) && ValidDate(b)
    ensures Earlier(a, b) <==> DayNumber(a) < DayNumber(b)
    ensures a == b <==> DayNumber(a) == DayNumber(b)
  {
    hide DayNumber, ValidDate;
    if Earlier(a, b) {
      EarlierIsLess(a, b);
    } else if Earlier(b, a) {
      EarlierIsLess(b, a);
    } else {
      assert a == b;
    }
  }

  /** The conversion takes back every valid date. */
  method RoundTrip(d: Date) returns (back: Date)
    requires ValidDate(d)
    ensures back == d
  {
    assert DayNumber(d) >= 0 by {
      NegativeYear(d.year);
      WithinYear(d);
    }
    back := DaysSince1900ToYmd(DayNumber(d));
    SameOrder(back, d);
  }
}
