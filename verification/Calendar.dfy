/** The closed-form day count of the proleptic Gregorian calendar. */
module Calendar {
  import opened IntMath
  import opened TimeDeltas

  /** chrono keeps years within 1/2^13 of the range of an `i32`. */
  const MIN_YEAR: int := -262_144
  const MAX_YEAR: int := 262_143

  predicate IsLeap(year: int) { year % 4 == 0 && (year % 100 != 0 || year % 400 == 0) }

  function YearLength(year: int): nat { if IsLeap(year) then 366 else 365 }

  /** Days from January 1 of year 1 to January 1 of the given year, one year at a time. */
  function DaysBefore(year: int): int
    decreases if year >= 1 then year else 2 - year
  {
    if year == 1 then 0
    else if year > 1 then DaysBefore(year - 1) + YearLength(year - 1)
    else DaysBefore(year + 1) - YearLength(year)
  }

  /** The sum of leap-year corrections, with floor division. */
  function Closed(n: int): int { 365 * n + n / 4 - n / 100 + n / 400 }

  lemma FloorStep(n: int, d: int)
    requires d > 0
    ensures n / d == (n - 1) / d + (if n % d == 0 then 1 else 0)
  {
    var q, r := n / d, n % d;
    assert n == d * q + r;
    if r == 0 {
      assert n - 1 == d * (q - 1) + (d - 1);
      SameDivision(d, q - 1, d - 1, (n - 1) / d, (n - 1) % d);
    } else {
      SameDivision(d, q, r - 1, (n - 1) / d, (n - 1) % d);
    }
  }

  lemma Divisibility(n: int)
    ensures n % 400 == 0 ==> n % 100 == 0
    ensures n % 100 == 0 ==> n % 4 == 0
  {}

  lemma ClosedStep(n: int)
    ensures Closed(n) == Closed(n - 1) + YearLength(n)
  {
    FloorStep(n, 4);
    FloorStep(n, 100);
    FloorStep(n, 400);
    Divisibility(n);
  }

  lemma {:induction false} ClosedForm(year: int)
    ensures DaysBefore(year) == Closed(year - 1)
    decreases if year >= 1 then year else 2 - year
  {
    if year > 1 {
      ClosedForm(year - 1);
      ClosedStep(year - 1);
    } else if year < 1 {
      ClosedForm(year + 1);
      ClosedStep(year);
    }
  }

  /** Four hundred years are always the same number of days. */
  lemma Cycles(n: int, k: int)
    ensures Closed(n + 400 * k) == Closed(n) + 146_097 * k
  {
    assert (n + 400 * k) / 4 == n / 4 + 100 * k;
    assert (n + 400 * k) / 100 == n / 100 + 4 * k;
    assert (n + 400 * k) / 400 == n / 400 + k;
  }

  /** For years of the era, the quarter-day product and two shifts. */
  lemma Quarters(y: nat)
    ensures y * 1461 / 4 - y / 100 + y / 100 / 4 == Closed(y)
    ensures Quot(y, 100) == y / 100
  {
    assert y * 1461 / 4 == 365 * y + y / 4;
    assert y / 100 / 4 == y / 400;
  }

  /** `num_days_from_ce`: shifts years before the era by whole cycles, multiplies by
      1461 quarter days and corrects for centuries.  January 1 of year 1 is day 1. */
  method NumDaysFromCe(theYear: i32, ordinal: i32) returns (days: i32)
    requires MIN_YEAR <= theYear <= MAX_YEAR && 1 <= ordinal <= 366
    ensures days == DaysBefore(theYear) + ordinal
  {
    ClosedForm(theYear);
    var year: i32 := theYear - 1;
    var ndays: i32 := 0;
    if year < 0 {
      Truncates(-year, 400);
      Signs(-year, 400);
      var excess: i32 := 1 + Quot(-year, 400);
      Cycles(year, excess);
      year := year + excess * 400;
      ndays := ndays - excess * 146_097;
    }
    Quarters(year);
    var div100: i32 := Quot(year, 100);
    var product: i32 := year * 1461;
    // shifting right by two is floor division by four
    ndays := ndays + (product / 4 - div100 + div100 / 4);
    days := ndays + ordinal;
  }

  /** The day after December 31 is January 1: no day is skipped or counted twice. */
  lemma YearBoundary(year: int)
    ensures DaysBefore(year) + YearLength(year) + 1 == DaysBefore(year + 1) + 1
  {
    ClosedForm(year);
    ClosedForm(year + 1);
    ClosedStep(year);
  }

  /** Dates are ordered by their day numbers, so the numbering is injective. */
  lemma {:induction false} Monotone(a: int, b: int)
    requires a < b
    ensures DaysBefore(a) + YearLength(a) <= DaysBefore(b)
    decreases b - a
  {
    YearBoundary(a);
    if a + 1 < b { Monotone(a + 1, b); }
  }

  lemma DayNumberInjective(y1: int, o1: nat, y2: int, o2: nat)
    requires 1 <= o1 <= YearLength(y1) && 1 <= o2 <= YearLength(y2)
    requires DaysBefore(y1) + o1 == DaysBefore(y2) + o2
    ensures y1 == y2 && o1 == o2
  {
    if y1 < y2 { Monotone(y1, y2); }
    if y2 < y1 { Monotone(y2, y1); }
  }
}
