/** The proleptic-Gregorian calendar under Python's naive `date`.

    A date is a (year, month, day) triple with year 1..9999. Day arithmetic
    goes through the day number ("ordinal"): 0001-01-01 is day 1 and
    9999-12-31 is day 3652059. Monday is weekday 0.
 */
module Calendar {
  import opened Outcomes

  const MinYear: int := 1
  const MaxYear: int := 9999
  /** The day number of 9999-12-31, the last date Python can represent. */
  const MaxOrdinal: int := 3652059

  /** The range of a C `int`, in which CPython reads the arguments of
      `datetime(year, month, day)`. */
  const CIntMin: int := -0x8000_0000
  const CIntMax: int := 0x7fff_ffff

  predicate IsCInt(x: int) {
    CIntMin <= x <= CIntMax
  }

  predicate IsLeap(year: int) {
    year % 4 == 0 && (year % 100 != 0 || year % 400 == 0)
  }

  function DaysInYear(year: int): int {
    if IsLeap(year) then 366 else 365
  }

  function DaysInMonth(year: int, month: int): (n: int)
    requires 1 <= month <= 12
    ensures 28 <= n <= 31
  {
    if month == 2 then (if IsLeap(year) then 29 else 28)
    else if month == 4 || month == 6 || month == 9 || month == 11 then 30
    else 31
  }

  /** Days in the months of `year` that precede `month`. */
  function DaysBeforeMonth(year: int, month: int): int
    requires 1 <= month <= 12
  {
    [0, 31, 59, 90, 120, 151, 181, 212, 243, 273, 304, 334][month - 1]
      + (if month > 2 && IsLeap(year) then 1 else 0)
  }

  /** Days in the years before `year`, counted from 0001-01-01. */
  function DaysBeforeYear(year: int): int
    requires year >= 1
  {
    var y := year - 1;
    y * 365 + y / 4 - y / 100 + y / 400
  }

  datatype Date = Date(year: int, month: int, day: int) {
    predicate Valid() {
      MinYear <= year <= MaxYear && 1 <= month <= 12 && 1 <= day <= DaysInMonth(year, month)
    }

    /** Python's `<` on dates: lexicographic on (year, month, day). */
    predicate Before(other: Date) {
      year < other.year
      || (year == other.year && month < other.month)
      || (year == other.year && month == other.month && day < other.day)
    }
  }

  /** Python's `datetime(year, month, day)`: the three arguments are first
      read as C ints (OverflowError), then the fields are checked in this
      order (ValueError). */
  function MakeDate(year: int, month: int, day: int): (r: Result<Date>)
    ensures r.Ok? <==> Date(year, month, day).Valid()
    ensures r.Ok? ==> r.value == Date(year, month, day)
    ensures r == Err(IntOverflow) <==> !(IsCInt(year) && IsCInt(month) && IsCInt(day))
    ensures r == Err(YearOutOfRange) <==>
      IsCInt(year) && IsCInt(month) && IsCInt(day) && !(MinYear <= year <= MaxYear)
    ensures r == Err(MonthOutOfRange) <==>
      IsCInt(month) && IsCInt(day) && MinYear <= year <= MaxYear && !(1 <= month <= 12)
    ensures r.Err? ==> r.error in {IntOverflow, YearOutOfRange, MonthOutOfRange, DayOutOfRange}
  {
    if !(IsCInt(year) && IsCInt(month) && IsCInt(day)) then Err(IntOverflow)
    else if !(MinYear <= year <= MaxYear) then Err(YearOutOfRange)
    else if !(1 <= month <= 12) then Err(MonthOutOfRange)
    else if !(1 <= day <= DaysInMonth(year, month)) then Err(DayOutOfRange)
    else Ok(Date(year, month, day))
  }

  lemma YearStep(year: int)
    requires year >= 1
    ensures DaysBeforeYear(year + 1) == DaysBeforeYear(year) + DaysInYear(year)
  {
    var y := year - 1;
    assert year / 4 - y / 4 == (if year % 4 == 0 then 1 else 0);
    assert year / 100 - y / 100 == (if year % 100 == 0 then 1 else 0);
    assert year / 400 - y / 400 == (if year % 400 == 0 then 1 else 0);
  }

  /** Each year has at least 365 days, so day numbers grow with the year. */
  lemma {:induction false} DaysBeforeYearGrows(a: int, b: int)
    requires 1 <= a <= b
    ensures DaysBeforeYear(a) + 365 * (b - a) <= DaysBeforeYear(b)
    decreases b - a
  {
    if a < b {
      DaysBeforeYearGrows(a, b - 1);
      YearStep(b - 1);
    }
  }

  lemma MonthStep(year: int, month: int)
    requires 1 <= month <= 12
    ensures month < 12 ==> DaysBeforeMonth(year, month + 1) == DaysBeforeMonth(year, month) + DaysInMonth(year, month)
    ensures month == 12 ==> DaysBeforeMonth(year, month) + DaysInMonth(year, month) == DaysInYear(year)
  {
  }

  lemma {:induction false} DaysBeforeMonthGrows(year: int, a: int, b: int)
    requires 1 <= a < b <= 12
    ensures DaysBeforeMonth(year, a) + DaysInMonth(year, a) <= DaysBeforeMonth(year, b)
    decreases b - a
  {
    MonthStep(year, a);
    if a + 1 < b {
      DaysBeforeMonthGrows(year, a + 1, b);
    }
  }

  /** The day number of a date; `toordinal()` in Python. */
  function Ordinal(d: Date): (n: int)
    requires d.Valid()
    ensures 1 <= n <= MaxOrdinal
  {
    OrdinalBounds(d);
    DaysBeforeYear(d.year) + DaysBeforeMonth(d.year, d.month) + d.day
  }

  lemma OrdinalBounds(d: Date)
    requires d.Valid()
    ensures DaysBeforeYear(d.year) < DaysBeforeYear(d.year) + DaysBeforeMonth(d.year, d.month) + d.day
    ensures DaysBeforeYear(d.year) + DaysBeforeMonth(d.year, d.month) + d.day <= DaysBeforeYear(d.year + 1)
    ensures DaysBeforeYear(d.year + 1) <= MaxOrdinal
  {
    YearStep(d.year);
    MonthStep(d.year, d.month);
    if d.month < 12 {
      DaysBeforeMonthGrows(d.year, d.month, 12);
      MonthStep(d.year, 12);
    }
    DaysBeforeYearGrows(d.year + 1, MaxYear + 1);
  }

  /** The year holding day number `n`, searched upwards from `year`. */
  function YearFrom(n: int, year: int): (y: int)
    requires 1 <= year && DaysBeforeYear(year) < n
    ensures year <= y && DaysBeforeYear(y) < n <= DaysBeforeYear(y + 1)
    decreases n - DaysBeforeYear(year)
  {
    YearStep(year);
    if n <= DaysBeforeYear(year + 1) then year else YearFrom(n, year + 1)
  }

  /** The month holding day `dayOfYear` of `year`, searched upwards from `month`. */
  function MonthFrom(year: int, dayOfYear: int, month: int): (m: int)
    requires 1 <= month <= 12
    requires DaysBeforeMonth(year, month) < dayOfYear <= DaysInYear(year)
    ensures month <= m <= 12
    ensures DaysBeforeMonth(year, m) < dayOfYear <= DaysBeforeMonth(year, m) + DaysInMonth(year, m)
    decreases 12 - month
  {
    MonthStep(year, month);
    if month == 12 || dayOfYear <= DaysBeforeMonth(year, month) + DaysInMonth(year, month) then month
    else MonthFrom(year, dayOfYear, month + 1)
  }

  lemma YearFromInRange(n: int, y: int)
    requires 1 <= y && DaysBeforeYear(y) < n <= MaxOrdinal
    ensures y <= MaxYear
  {
    if y > MaxYear {
      DaysBeforeYearGrows(MaxYear + 1, y);
    }
  }

  /** No year has more than 366 days. */
  lemma DaysBeforeYearAtMost(year: int)
    requires year >= 1
    ensures DaysBeforeYear(year) <= 366 * (year - 1)
  {
    var y := year - 1;
    assert y / 4 - y / 100 + y / 400 <= y by {
      assert y / 4 <= y / 2 && y / 400 <= y / 100;
    }
  }

  /** The year and month search for day number `n`. The year search
      starts from a year no later than the answer. */
  function SearchOrdinal(n: int): (d: Date)
    requires 1 <= n <= MaxOrdinal
    ensures d.Valid() && Ordinal(d) == n
  {
    var start := (n - 1) / 366 + 1;
    DaysBeforeYearAtMost(start);
    var y := YearFrom(n, start);
    YearFromInRange(n, y);
    YearStep(y);
    var m := MonthFrom(y, n - DaysBeforeYear(y), 1);
    Date(y, m, n - DaysBeforeYear(y) - DaysBeforeMonth(y, m))
  }

  /** The date with day number `n`; `date.fromordinal(n)` in Python: the
      one valid date whose day number is `n`, as SearchOrdinal finds it. */
  function FromOrdinal(n: int): (d: Date)
    requires 1 <= n <= MaxOrdinal
    ensures d.Valid() && Ordinal(d) == n
  {
    assert SearchOrdinal(n).Valid() && Ordinal(SearchOrdinal(n)) == n;
    OrdinalInjective();
    var d: Date :| d.Valid() && Ordinal(d) == n;
    d
  }

  /** Different valid dates have different day numbers. */
  lemma OrdinalInjective()
    ensures forall a: Date, b: Date {:trigger Ordinal(a), Ordinal(b)} ::
      a.Valid() && b.Valid() && Ordinal(a) == Ordinal(b) ==> a == b
  {
    forall a: Date, b: Date | a.Valid() && b.Valid() && Ordinal(a) == Ordinal(b) ensures a == b {
      OrdinalOrder(a, b);
    }
  }

  /** Comparing dates field by field agrees with comparing their day numbers. */
  lemma OrdinalOrder(a: Date, b: Date)
    requires a.Valid() && b.Valid()
    ensures a.Before(b) <==> Ordinal(a) < Ordinal(b)
    ensures a == b <==> Ordinal(a) == Ordinal(b)
  {
    OrdinalBounds(a);
    OrdinalBounds(b);
    if a.year < b.year {
      DaysBeforeYearGrows(a.year + 1, b.year);
    } else if b.year < a.year {
      DaysBeforeYearGrows(b.year + 1, a.year);
    } else if a.month < b.month {
      DaysBeforeMonthGrows(a.year, a.month, b.month);
    } else if b.month < a.month {
      DaysBeforeMonthGrows(a.year, b.month, a.month);
    }
  }

  lemma FromOrdinalOrdinal(d: Date)
    requires d.Valid()
    ensures FromOrdinal(Ordinal(d)) == d
  {
    OrdinalOrder(FromOrdinal(Ordinal(d)), d);
  }

  function WeekdayOfOrdinal(n: int): (w: int)
    ensures 0 <= w <= 6
  {
    (n + 6) % 7
  }

  /** Python's `date.weekday()`: Monday is 0 and Sunday is 6. */
  function Weekday(d: Date): (w: int)
    requires d.Valid()
    ensures 0 <= w <= 6
  {
    WeekdayOfOrdinal(Ordinal(d))
  }

  /** Consecutive day numbers have consecutive weekdays, wrapping after Sunday. */
  lemma WeekdayStep(n: int)
    ensures WeekdayOfOrdinal(n + 1) == (WeekdayOfOrdinal(n) + 1) % 7
    ensures WeekdayOfOrdinal(n) >= 1 ==> WeekdayOfOrdinal(n - 1) == WeekdayOfOrdinal(n) - 1
  {
  }

  /** 0001-01-01, day number 1, is a Monday, as in Python. */
  lemma FirstDayIsMonday()
    ensures Date(1, 1, 1).Valid() && Ordinal(Date(1, 1, 1)) == 1 && Weekday(Date(1, 1, 1)) == 0
  {
    assert DaysBeforeYear(1) == 0 && DaysBeforeMonth(1, 1) == 0;
    assert WeekdayOfOrdinal(1) == 0;
  }

  /** `weekday()` runs through the week with the day number: the day after a
      date is the next weekday, and two dates share a weekday exactly when
      their day numbers are a multiple of seven apart. */
  lemma WeekdayCycle(a: Date, b: Date)
    requires a.Valid() && b.Valid()
    ensures Ordinal(b) == Ordinal(a) + 1 ==> Weekday(b) == (Weekday(a) + 1) % 7
    ensures Weekday(a) == Weekday(b) <==> (Ordinal(b) - Ordinal(a)) % 7 == 0
  {
    var n, m := Ordinal(a), Ordinal(b);
    assert Weekday(a) == WeekdayOfOrdinal(n) && Weekday(b) == WeekdayOfOrdinal(m);
    WeekdayStep(n);
    SameWeekdayOfOrdinal(n, m);
  }

  /** Two day numbers share a weekday exactly when they are a multiple of
      seven apart. */
  lemma SameWeekdayOfOrdinal(n: int, m: int)
    ensures WeekdayOfOrdinal(n) == WeekdayOfOrdinal(m) <==> (m - n) % 7 == 0
  {
    var x, y := n + 6, m + 6;
    assert m - n == 7 * (y / 7 - x / 7) + (y % 7 - x % 7);
  }

  /** Day 1 is a Monday and day 3652059 is a Friday, so a Saturday or a Sunday
      always has a day on each side of it. */
  lemma WeekendHasNeighbours(n: int)
    requires 1 <= n <= MaxOrdinal && WeekdayOfOrdinal(n) > 4
    ensures 6 <= n <= MaxOrdinal - 5
  {
  }

  /** No day number in (lo, hi] falls on Monday..Friday. */
  ghost predicate OnlyWeekendsIn(lo: int, hi: int) {
    forall n :: lo < n <= hi ==> WeekdayOfOrdinal(n) > 4
  }

  /** Days from day `n` back to the closest Friday, when `n` is a weekend day. */
  function DaysBackToWeekday(n: int): (k: int)
    ensures 0 <= k <= 2
  {
    if WeekdayOfOrdinal(n) > 4 then WeekdayOfOrdinal(n) - 4 else 0
  }

  /** Days from day `n` forward to the closest Monday, when `n` is a weekend day. */
  function DaysForwardToWeekday(n: int): (k: int)
    ensures 0 <= k <= 2
  {
    if WeekdayOfOrdinal(n) > 4 then 7 - WeekdayOfOrdinal(n) else 0
  }

  lemma WeekendStepBack(n: int)
    requires WeekdayOfOrdinal(n) > 4
    ensures DaysBackToWeekday(n - 1) == DaysBackToWeekday(n) - 1
  {
  }

  lemma WeekendStepForward(n: int)
    requires WeekdayOfOrdinal(n) > 4
    ensures DaysForwardToWeekday(n + 1) == DaysForwardToWeekday(n) - 1
  {
  }

  /** Stepping back `DaysBackToWeekday(n)` days from `n` crosses only weekend days and lands on a weekday. */
  lemma BackToWeekday(n: int)
    ensures WeekdayOfOrdinal(n - DaysBackToWeekday(n)) <= 4
    ensures OnlyWeekendsIn(n - DaysBackToWeekday(n), n)
  {
    var w := WeekdayOfOrdinal(n);
    WeekdayStep(n);
    WeekdayStep(n - 1);
    if w == 5 {
      assert WeekdayOfOrdinal(n - 1) == 4;
      assert OnlyWeekendsIn(n - 1, n) by {
        forall m | n - 1 < m <= n ensures WeekdayOfOrdinal(m) > 4 {
          assert m == n;
        }
      }
    } else if w == 6 {
      assert WeekdayOfOrdinal(n - 1) == 5 && WeekdayOfOrdinal(n - 2) == 4;
      assert OnlyWeekendsIn(n - 2, n) by {
        forall m | n - 2 < m <= n ensures WeekdayOfOrdinal(m) > 4 {
          assert m == n - 1 || m == n;
        }
      }
    }
  }

  /** Stepping forward `DaysForwardToWeekday(n)` days from `n` crosses only weekend days and lands on a weekday. */
  lemma ForwardToWeekday(n: int)
    ensures WeekdayOfOrdinal(n + DaysForwardToWeekday(n)) <= 4
    ensures OnlyWeekendsIn(n - 1, n + DaysForwardToWeekday(n) - 1)
  {
    var w := WeekdayOfOrdinal(n);
    WeekdayStep(n);
    WeekdayStep(n + 1);
    if w == 5 {
      assert WeekdayOfOrdinal(n + 1) == 6 && WeekdayOfOrdinal(n + 2) == 0;
      assert OnlyWeekendsIn(n - 1, n + 1) by {
        forall m | n - 1 < m <= n + 1 ensures WeekdayOfOrdinal(m) > 4 {
          assert m == n || m == n + 1;
        }
      }
    } else if w == 6 {
      assert WeekdayOfOrdinal(n + 1) == 0;
      assert OnlyWeekendsIn(n - 1, n) by {
        forall m | n - 1 < m <= n ensures WeekdayOfOrdinal(m) > 4 {
          assert m == n;
        }
      }
    }
  }
}
