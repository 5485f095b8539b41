/** Python's `datetime.date`: the proleptic Gregorian calendar, years 1 to 9999. */
module Calendar {
  import opened JsonValues

  datatype Date = Date(year: int, month: int, day: int)

  predicate IsLeap(year: int) {
    year % 4 == 0 && (year % 100 != 0 || year % 400 == 0)
  }

  function DaysInMonth(year: int, month: int): (n: int)
    ensures 28 <= n <= 31
  {
    if month == 2 then (if IsLeap(year) then 29 else 28)
    else if month in {4, 6, 9, 11} then 30
    else 31
  }

  function DaysInYear(year: int): int {
    if IsLeap(year) then 366 else 365
  }

  predicate Valid(d: Date) {
    d.year >= 1 && 1 <= d.month <= 12 && 1 <= d.day <= DaysInMonth(d.year, d.month)
  }

  /** The day after; the reference the arithmetic below is held against. */
  function NextDay(d: Date): (next: Date)
    requires Valid(d)
    ensures Valid(next)
  {
    if d.day < DaysInMonth(d.year, d.month) then d.(day := d.day + 1)
    else if d.month < 12 then Date(d.year, d.month + 1, 1)
    else Date(d.year + 1, 1, 1)
  }

  function DaysBeforeYear(year: int): int {
    365 * (year - 1) + (year - 1) / 4 - (year - 1) / 100 + (year - 1) / 400
  }

  function DaysBeforeMonth(year: int, month: int): (n: int)
    requires 1 <= month <= 13
  {
    if month == 1 then 0 else DaysBeforeMonth(year, month - 1) + DaysInMonth(year, month - 1)
  }

  /** `date.toordinal`: the first of January of year 1 is day 1. */
  function Ordinal(d: Date): int
    requires Valid(d)
  {
    DaysBeforeYear(d.year) + DaysBeforeMonth(d.year, d.month) + d.day
  }

  const LAST_YEAR := 9999
  const LAST_ORDINAL := 3652059

  lemma QuotientStep(n: int, k: int)
    requires k in {4, 100, 400}
    ensures n / k == (n - 1) / k + if n % k == 0 then 1 else 0
  {
  }

  lemma CenturiesDivide(year: int)
    ensures year % 400 == 0 ==> year % 100 == 0
    ensures year % 100 == 0 ==> year % 4 == 0
  {
  }

  lemma YearLength(year: int)
    ensures DaysBeforeYear(year + 1) == DaysBeforeYear(year) + DaysInYear(year)
  {
    var fours, hundreds, all := (year - 1) / 4, (year - 1) / 100, (year - 1) / 400;
    assert DaysBeforeYear(year) == 365 * (year - 1) + fours - hundreds + all;
    assert DaysBeforeYear(year + 1) == 365 * year + year / 4 - year / 100 + year / 400;
    hide DaysBeforeYear;
    QuotientStep(year, 4);
    QuotientStep(year, 100);
    QuotientStep(year, 400);
    CenturiesDivide(year);
  }

  lemma YearIsTwelveMonths(year: int)
    ensures DaysBeforeMonth(year, 13) == DaysInYear(year)
  {
    assert DaysBeforeMonth(year, 2) == 31;
    assert DaysBeforeMonth(year, 3) == 31 + DaysInMonth(year, 2);
    assert DaysBeforeMonth(year, 4) == DaysBeforeMonth(year, 3) + 31;
    assert DaysBeforeMonth(year, 5) == DaysBeforeMonth(year, 4) + 30;
    assert DaysBeforeMonth(year, 6) == DaysBeforeMonth(year, 5) + 31;
    assert DaysBeforeMonth(year, 7) == DaysBeforeMonth(year, 6) + 30;
    assert DaysBeforeMonth(year, 8) == DaysBeforeMonth(year, 7) + 31;
    assert DaysBeforeMonth(year, 9) == DaysBeforeMonth(year, 8) + 31;
    assert DaysBeforeMonth(year, 10) == DaysBeforeMonth(year, 9) + 30;
    assert DaysBeforeMonth(year, 11) == DaysBeforeMonth(year, 10) + 31;
    assert DaysBeforeMonth(year, 12) == DaysBeforeMonth(year, 11) + 30;
  }

  lemma {:induction false} MonthsAreOrdered(year: int, m: int, n: int)
    requires 1 <= m <= n <= 13
    ensures DaysBeforeMonth(year, m) + 28 * (n - m) <= DaysBeforeMonth(year, n)
    ensures m < n ==> DaysBeforeMonth(year, m) + DaysInMonth(year, m) <= DaysBeforeMonth(year, n)
    decreases n
  {
    if m < n {
      MonthsAreOrdered(year, m, n - 1);
    }
  }

  lemma {:induction false} YearsAreOrdered(y: int, z: int)
    requires y <= z
    ensures DaysBeforeYear(y) + 365 * (z - y) <= DaysBeforeYear(z)
    decreases z - y
  {
    if y < z {
      YearsAreOrdered(y, z - 1);
      YearLength(z - 1);
    }
  }

  lemma DayOfYearBounds(d: Date)
    requires Valid(d)
    ensures 1 <= DaysBeforeMonth(d.year, d.month) + d.day <= DaysInYear(d.year)
  {
    MonthsAreOrdered(d.year, 1, d.month);
    MonthsAreOrdered(d.year, d.month, 13);
    YearIsTwelveMonths(d.year);
  }

  /** Ordinals count days: the next day has the next ordinal. */
  lemma OrdinalCountsDays(d: Date)
    requires Valid(d)
    ensures Ordinal(NextDay(d)) == Ordinal(d) + 1
  {
    if d.day == DaysInMonth(d.year, d.month) && d.month == 12 {
      YearLength(d.year);
      YearIsTwelveMonths(d.year);
    }
  }

  function YearFrom(n: int, y: int): (year: int)
    requires DaysBeforeYear(y) < n
    ensures y <= year && DaysBeforeYear(year) < n <= DaysBeforeYear(year + 1)
    decreases n - DaysBeforeYear(y)
  {
    YearLength(y);
    if DaysBeforeYear(y + 1) < n then YearFrom(n, y + 1) else y
  }

  function MonthFrom(year: int, n: int, m: int): (month: int)
    requires 1 <= m <= 12 && DaysBeforeMonth(year, m) < n <= DaysBeforeMonth(year, 13)
    ensures m <= month <= 12 && DaysBeforeMonth(year, month) < n <= DaysBeforeMonth(year, month + 1)
    decreases 12 - m
  {
    if DaysBeforeMonth(year, m + 1) < n then MonthFrom(year, n, m + 1) else m
  }

  /** `date.fromordinal` */
  function FromOrdinal(n: int): (d: Date)
    requires n >= 1
    ensures Valid(d) && Ordinal(d) == n
  {
    var year := YearFrom(n, 1);
    YearLength(year);
    YearIsTwelveMonths(year);
    var rest := n - DaysBeforeYear(year);
    var month := MonthFrom(year, rest, 1);
    Date(year, month, rest - DaysBeforeMonth(year, month))
  }

  /** Later dates have larger ordinals, so that different dates have different ordinals. */
  lemma OrdinalsFollowDates(d: Date, e: Date)
    requires Valid(d) && Valid(e)
    requires d.year < e.year || (d.year == e.year && (d.month < e.month || (d.month == e.month && d.day < e.day)))
    ensures Ordinal(d) < Ordinal(e)
  {
    DayOfYearBounds(d);
    DayOfYearBounds(e);
    if d.year < e.year {
      YearLength(d.year);
      YearsAreOrdered(d.year + 1, e.year);
    } else if d.month < e.month {
      MonthsAreOrdered(d.year, d.month, e.month);
    }
  }

  /** Dates and positive ordinals correspond one to one. */
  lemma OrdinalIsBijective(d: Date)
    requires Valid(d)
    ensures Ordinal(d) >= 1 && FromOrdinal(Ordinal(d)) == d
  {
    DayOfYearBounds(d);
    YearsAreOrdered(1, d.year);
    var e := FromOrdinal(Ordinal(d));
    if e != d {
      if d.year < e.year || (d.year == e.year && (d.month < e.month || (d.month == e.month && d.day < e.day))) {
        OrdinalsFollowDates(d, e);
      } else {
        OrdinalsFollowDates(e, d);
      }
    }
  }

  /** The representable dates. */
  predicate InRange(d: Date) {
    Valid(d) && d.year <= LAST_YEAR
  }

  /** A representable date. */
  type Day = d: Date | InRange(d) witness Date(1, 1, 1)

  lemma RangeByOrdinal(d: Date)
    requires Valid(d)
    ensures InRange(d) <==> Ordinal(d) <= LAST_ORDINAL
  {
    var last := Date(9999, 12, 31);
    YearIsTwelveMonths(9999);
    assert Ordinal(last) == LAST_ORDINAL;
    if d.year <= LAST_YEAR {
      DayOfYearBounds(d);
      YearLength(d.year);
      YearsAreOrdered(d.year + 1, 10000);
      YearLength(9999);
    } else {
      OrdinalsFollowDates(last, d);
    }
  }

  /** `d + timedelta(days=n)` for non-negative `n`, which raises past the last representable day. */
  function AddDays(d: Date, n: int): (r: Result<Date>)
    requires InRange(d) && n >= 0
    ensures r.Ok? <==> Ordinal(d) + n <= LAST_ORDINAL
    ensures r.Ok? ==> InRange(r.value) && Ordinal(r.value) == Ordinal(d) + n
  {
    OrdinalIsBijective(d);
    var sum := Ordinal(d) + n;
    RangeByOrdinal(FromOrdinal(sum));
    if sum <= LAST_ORDINAL then Ok(FromOrdinal(sum)) else Raised
  }

  /** `(target - reference).days` */
  function DaysBetween(target: Date, reference: Date): int
    requires Valid(target) && Valid(reference)
  {
    Ordinal(target) - Ordinal(reference)
  }
}
