/** Calendar shifting: `up_date` of schedule/schedule.py.

    Years and months are added on one month axis (month 13 is January of the
    next year, month 0 is December of the year before), the day of the month
    is kept, and the day offset is added last. When the kept day does not
    exist in the target month, the source retries with day 1 of month
    `new_month + 1 % 12`, which Python reads as `new_month + (1 % 12)`, that is
    `new_month + 1` with no reduction. `UpDate` keeps that expression;
    `UpDateIntended` is the evident intent, `(new_month + 1) % 12`.
 */
module Shifting {
  import opened Outcomes
  import opened Calendar
  import opened DateTimes

  /** Python's `x or 12` for an integer `x`. */
  function OrTwelve(x: int): int {
    if x == 0 then 12 else x
  }

  /** The year reached from (year, month) after `years` years and `months`
      months, counted as months since year 0. */
  function TargetYear(year: int, month: int, months: int, years: int): int {
    (12 * (year + years) + (month - 1) + months) / 12
  }

  /** The month (1..12) reached from `month` after `months` months. */
  function TargetMonth(month: int, months: int): (m: int)
    ensures 1 <= m <= 12
  {
    ((month - 1) + months) % 12 + 1
  }

  /** The carry of the source (`math.floor((new_month - 1) / 12)` years and
      month `(new_month % 12) or 12`) lands on the target year and month. */
  lemma CarryIsTarget(year: int, month: int, months: int, years: int)
    ensures year + years + (month + months - 1) / 12 == TargetYear(year, month, months, years)
    ensures OrTwelve((month + months) % 12) == TargetMonth(month, months)
  {
  }

  /** When the target month is not December: the source's fallback month
      `new_month + 1` is the month after it exactly while `new_month` lies in
      -1..11, and is no month number at all otherwise; the intended fallback
      is always the month after it. */
  lemma FallbackMonth(month: int, months: int)
    requires TargetMonth(month, months) < 12
    ensures -1 <= month + months <= 11 ==> OrTwelve(month + months + 1) == TargetMonth(month, months) + 1
    ensures !(-1 <= month + months <= 11) ==> !(1 <= OrTwelve(month + months + 1) <= 12)
    ensures TargetMonth(month, months + 1) == TargetMonth(month, months) + 1
  {
  }

  /** A month with a day that the 28..31 range can miss is never December. */
  lemma ShortMonthIsNotDecember(year: int, month: int, day: int)
    requires 1 <= month <= 12 && DaysInMonth(year, month) < day <= 31
    ensures month < 12
  {
  }

  /** The inner step of `up_date`: `datetime(year, month, day)`, or, when
      only the day is out of range, `datetime(year, fallback, 1)`; then
      `+ timedelta(days=days)`. Any other ValueError, and every
      OverflowError (of an argument or of the addition), propagate. The
      source recognises the day error by its message; the retry follows
      CPython's C `_datetime`, whose message for it is "day is out of range
      for month". */
  function Land(year: int, month: int, fallback: int, day: int, days: int): (r: Result<DateTime>)
    requires 1 <= month <= 12 && 1 <= day <= 31
    ensures !IsCInt(year) ==> r == Err(IntOverflow)
    ensures IsCInt(year) && !(MinYear <= year <= MaxYear) ==> r == Err(YearOutOfRange)
    ensures MinYear <= year <= MaxYear && day <= DaysInMonth(year, month) ==>
      r == AddDays(DateTime(Date(year, month, day), Midnight), days)
    ensures MinYear <= year <= MaxYear && day > DaysInMonth(year, month) && 1 <= fallback <= 12 ==>
      r == AddDays(DateTime(Date(year, fallback, 1), Midnight), days)
    ensures MinYear <= year <= MaxYear && day > DaysInMonth(year, month) && IsCInt(fallback) && !(1 <= fallback <= 12) ==>
      r == Err(MonthOutOfRange)
    ensures MinYear <= year <= MaxYear && day > DaysInMonth(year, month) && !IsCInt(fallback) ==>
      r == Err(IntOverflow)
  {
    var first := MakeDate(year, month, day);
    if first.Ok? then AddDays(DateTime(first.value, Midnight), days)
    else if first.error != DayOutOfRange then Err(first.error)
    else
      var second := MakeDate(year, fallback, 1);
      if second.Ok? then AddDays(DateTime(second.value, Midnight), days)
      else Err(second.error)
  }

  /** `up_date(ref, days, months, years)` as written: all-zero offsets return
      `ref` unchanged; otherwise the target (year, month) on the month axis,
      the day of `ref`, and the unreduced fallback month `new_month + 1`. */
  function UpDate(ref: DateTime, days: int, months: int, years: int): (r: Result<DateTime>)
    requires ref.Valid()
    ensures days == 0 && months == 0 && years == 0 ==> r == Ok(ref)
    ensures !(days == 0 && months == 0 && years == 0) ==>
      r == Land(TargetYear(ref.date.year, ref.date.month, months, years), TargetMonth(ref.date.month, months),
                OrTwelve(ref.date.month + months + 1), ref.date.day, days)
  {
    if months == 0 && years == 0 && days == 0 then Ok(ref)
    else
      var newMonth := ref.date.month + months;
      var newYear := ref.date.year + years;
      var year := newYear + (newMonth - 1) / 12;
      CarryIsTarget(ref.date.year, ref.date.month, months, years);
      assert year == TargetYear(ref.date.year, ref.date.month, months, years);
      assert OrTwelve(newMonth % 12) == TargetMonth(ref.date.month, months);
      // the fallback is the source's `(new_month + 1 % 12) or 12`
      Land(year, OrTwelve(newMonth % 12), OrTwelve(newMonth + 1), ref.date.day, days)
  }

  /** `up_date` with the fallback month reduced as intended,
      `((new_month + 1) % 12) or 12`. */
  function UpDateIntended(ref: DateTime, days: int, months: int, years: int): (r: Result<DateTime>)
    requires ref.Valid()
    ensures days == 0 && months == 0 && years == 0 ==> r == Ok(ref)
    ensures !(days == 0 && months == 0 && years == 0) ==>
      r == Land(TargetYear(ref.date.year, ref.date.month, months, years), TargetMonth(ref.date.month, months),
                TargetMonth(ref.date.month, months + 1), ref.date.day, days)
  {
    if months == 0 && years == 0 && days == 0 then Ok(ref)
    else
      var newMonth := ref.date.month + months;
      var newYear := ref.date.year + years;
      var year := newYear + (newMonth - 1) / 12;
      CarryIsTarget(ref.date.year, ref.date.month, months, years);
      assert year == TargetYear(ref.date.year, ref.date.month, months, years);
      assert OrTwelve(newMonth % 12) == TargetMonth(ref.date.month, months);
      CarryIsTarget(ref.date.year, ref.date.month, months + 1, years);
      assert OrTwelve((newMonth + 1) % 12) == TargetMonth(ref.date.month, months + 1);
      Land(year, OrTwelve(newMonth % 12), OrTwelve((newMonth + 1) % 12), ref.date.day, days)
  }

  /** What `up_date` returns, case by case: OverflowError for a year beyond
      a C int, ValueError for a year outside 1..9999; the kept day in the
      target month when it exists; else day 1 of the month after, but only
      while `new_month + 1` is itself a month number; else ValueError, or
      OverflowError when `new_month + 1` is beyond a C int. */
  lemma UpDateCases(ref: DateTime, days: int, months: int, years: int)
    requires ref.Valid() && !(days == 0 && months == 0 && years == 0)
    ensures
      var ty := TargetYear(ref.date.year, ref.date.month, months, years);
      var tm := TargetMonth(ref.date.month, months);
      var r := UpDate(ref, days, months, years);
      && (!IsCInt(ty) ==> r == Err(IntOverflow))
      && (IsCInt(ty) && !(MinYear <= ty <= MaxYear) ==> r == Err(YearOutOfRange))
      && (MinYear <= ty <= MaxYear && ref.date.day <= DaysInMonth(ty, tm) ==>
            r == AddDays(DateTime(Date(ty, tm, ref.date.day), Midnight), days))
      && (MinYear <= ty <= MaxYear && ref.date.day > DaysInMonth(ty, tm) && -1 <= ref.date.month + months <= 11 ==>
            tm < 12 && r == AddDays(DateTime(Date(ty, tm + 1, 1), Midnight), days))
      && (MinYear <= ty <= MaxYear && ref.date.day > DaysInMonth(ty, tm) && !(-1 <= ref.date.month + months <= 11)
          && IsCInt(ref.date.month + months + 1) ==>
            r == Err(MonthOutOfRange))
      && (MinYear <= ty <= MaxYear && ref.date.day > DaysInMonth(ty, tm) && !IsCInt(ref.date.month + months + 1) ==>
            r == Err(IntOverflow))
  {
    var ty := TargetYear(ref.date.year, ref.date.month, months, years);
    var tm := TargetMonth(ref.date.month, months);
    if MinYear <= ty <= MaxYear && ref.date.day > DaysInMonth(ty, tm) {
      ShortMonthIsNotDecember(ty, tm, ref.date.day);
      FallbackMonth(ref.date.month, months);
    }
  }

  /** With the intended fallback the result is always the kept day in the
      target month, or day 1 of the month after; no month error is possible. */
  lemma UpDateIntendedCases(ref: DateTime, days: int, months: int, years: int)
    requires ref.Valid() && !(days == 0 && months == 0 && years == 0)
    ensures
      var ty := TargetYear(ref.date.year, ref.date.month, months, years);
      var tm := TargetMonth(ref.date.month, months);
      var r := UpDateIntended(ref, days, months, years);
      && (!IsCInt(ty) ==> r == Err(IntOverflow))
      && (IsCInt(ty) && !(MinYear <= ty <= MaxYear) ==> r == Err(YearOutOfRange))
      && (MinYear <= ty <= MaxYear && ref.date.day <= DaysInMonth(ty, tm) ==>
            r == AddDays(DateTime(Date(ty, tm, ref.date.day), Midnight), days))
      && (MinYear <= ty <= MaxYear && ref.date.day > DaysInMonth(ty, tm) ==>
            tm < 12 && r == AddDays(DateTime(Date(ty, tm + 1, 1), Midnight), days))
      && r != Err(MonthOutOfRange) && r != Err(DayOutOfRange)
  {
    var ty := TargetYear(ref.date.year, ref.date.month, months, years);
    var tm := TargetMonth(ref.date.month, months);
    if MinYear <= ty <= MaxYear && ref.date.day > DaysInMonth(ty, tm) {
      ShortMonthIsNotDecember(ty, tm, ref.date.day);
      FallbackMonth(ref.date.month, months);
    }
  }

  /** The fallback date is the day after the last day of the target month. */
  lemma FallbackIsNextMonth(year: int, month: int)
    requires MinYear <= year <= MaxYear && 1 <= month < 12
    ensures Ordinal(Date(year, month + 1, 1)) == Ordinal(Date(year, month, DaysInMonth(year, month))) + 1
  {
    MonthStep(year, month);
  }

  /** 2023-01-31 plus 13 months asks for 2024-02-31: the source then asks for
      month 15 and raises ValueError, where 2024-03-01 was meant. */
  lemma UpDateMonthOverflow()
    ensures UpDate(DateTime(Date(2023, 1, 31), Midnight), 0, 13, 0) == Err(MonthOutOfRange)
    ensures UpDateIntended(DateTime(Date(2023, 1, 31), Midnight), 0, 13, 0) == Ok(DateTime(Date(2024, 3, 1), Midnight))
  {
    var ref := DateTime(Date(2023, 1, 31), Midnight);
    assert TargetYear(2023, 1, 13, 0) == 2024;
    assert TargetMonth(1, 13) == 2;
    assert DaysInMonth(2024, 2) == 29;
    UpDateCases(ref, 0, 13, 0);
    UpDateIntendedCases(ref, 0, 13, 0);
    AddDaysZero(DateTime(Date(2024, 3, 1), Midnight));
  }

  /** `up_date(datetime(2023, 1, 1), years=2**31 - 1)` asks `datetime` for a
      year beyond a C int: OverflowError, not the year ValueError. */
  lemma UpDateYearBeyondCInt()
    ensures UpDate(DateTime(Date(2023, 1, 1), Midnight), 0, 0, CIntMax) == Err(IntOverflow)
    ensures UpDate(DateTime(Date(2023, 1, 1), Midnight), 0, 0, 8000) == Err(YearOutOfRange)
  {
    var ref := DateTime(Date(2023, 1, 1), Midnight);
    assert TargetYear(2023, 1, 0, CIntMax) == 2023 + CIntMax;
    assert TargetYear(2023, 1, 0, 8000) == 10023;
    UpDateCases(ref, 0, 0, CIntMax);
    UpDateCases(ref, 0, 0, 8000);
  }

  /** A days-only shift keeps the date's month arithmetic out of play, but
      still drops the time of day: the result is midnight of `ref`'s date
      moved by `days`. */
  lemma UpDateDaysOnly(ref: DateTime, days: int)
    requires ref.Valid() && days != 0
    ensures UpDate(ref, days, 0, 0) == AddDays(DateTime(ref.date, Midnight), days)
    ensures UpDate(ref, days, 0, 0) == UpDateIntended(ref, days, 0, 0)
  {
    assert TargetYear(ref.date.year, ref.date.month, 0, 0) == ref.date.year;
    assert TargetMonth(ref.date.month, 0) == ref.date.month;
    UpDateCases(ref, days, 0, 0);
    UpDateIntendedCases(ref, days, 0, 0);
  }

  /** Adding zero days changes nothing. */
  lemma AddDaysZero(dt: DateTime)
    requires dt.Valid()
    ensures AddDays(dt, 0) == Ok(dt)
  {
    OrdinalOrder(AddDays(dt, 0).value.date, dt.date);
  }
}
