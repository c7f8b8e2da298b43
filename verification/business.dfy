/** Business days: Monday to Friday, minus an optional holiday calendar.

    Models `is_bussines_day`, `get_prev_business_day`,
    `get_next_business_day`, `get_business_days_between` and
    `get_last_business_day` of schedule/schedule.py.
 */
module Business {
  import opened Outcomes
  import opened Calendar
  import opened DateTimes

  /** Holidays keyed by year; the source's `None` and `{}` are both the empty map. */
  type Holidays = map<int, seq<Date>>

  const NoHolidays: Holidays := map[]

  /** `is_bussines_day(day, holidays)`. */
  function IsBusinessDay(day: DateTime, holidays: Holidays): (b: bool)
    requires day.Valid()
    ensures b ==> Weekday(day.date) <= 4
    ensures day.date.year in holidays && day.date in holidays[day.date.year] ==> !b
    ensures Weekday(day.date) <= 4 && day.date.year !in holidays ==> b
    ensures Weekday(day.date) <= 4 && day.date.year in holidays && day.date !in holidays[day.date.year] ==> b
  {
    if Weekday(day.date) > 4 then false
    else if day.date.year in holidays then day.date !in holidays[day.date.year]
    else true
  }

  /** Without holidays a business day is exactly a weekday. */
  lemma BusinessDayWithoutHolidays(day: DateTime)
    requires day.Valid()
    ensures IsBusinessDay(day, NoHolidays) <==> Weekday(day.date) <= 4
  {
  }

  /** Supplying holidays can only turn a business day into a non-business day. */
  lemma HolidaysOnlyRemove(day: DateTime, holidays: Holidays)
    requires day.Valid()
    ensures IsBusinessDay(day, holidays) ==> IsBusinessDay(day, NoHolidays)
  {
  }

  /** The `while` loop of `get_prev_business_day`: step back over Saturday and Sunday. */
  function WalkBack(v: DateTime): (r: DateTime)
    requires v.Valid()
    ensures r.Valid() && r.time == v.time
    ensures Ordinal(r.date) == Ordinal(v.date) - DaysBackToWeekday(Ordinal(v.date))
    decreases DaysBackToWeekday(Ordinal(v.date))
  {
    var n := Ordinal(v.date);
    // `is_bussines_day(v)` without holidays, see BusinessDayWithoutHolidays
    if WeekdayOfOrdinal(n) <= 4 then v
    else
      WeekendHasNeighbours(n);
      WeekendStepBack(n);
      WalkBack(PlusDays(v, -1))
  }

  /** The `while` loop of `get_next_business_day`: step forward over Saturday and Sunday. */
  function WalkForward(v: DateTime): (r: DateTime)
    requires v.Valid()
    ensures r.Valid() && r.time == v.time
    ensures Ordinal(r.date) == Ordinal(v.date) + DaysForwardToWeekday(Ordinal(v.date))
    decreases DaysForwardToWeekday(Ordinal(v.date))
  {
    var n := Ordinal(v.date);
    // `is_bussines_day(v)` without holidays, see BusinessDayWithoutHolidays
    if WeekdayOfOrdinal(n) <= 4 then v
    else
      WeekendHasNeighbours(n);
      WeekendStepForward(n);
      WalkForward(PlusDays(v, 1))
  }

  /** The day number `get_prev_business_day` lands on from day `n` when it
      does not keep `n`: one step back, then back over the weekend. It is a
      weekday at most three days back, past weekend days only. */
  function PrevLanding(n: int): (m: int)
    ensures WeekdayOfOrdinal(m) <= 4 && n - 3 <= m < n && OnlyWeekendsIn(m, n - 1)
  {
    BackToWeekday(n - 1);
    n - 1 - DaysBackToWeekday(n - 1)
  }

  /** The day number `get_next_business_day` lands on from day `n` when it
      does not keep `n`: one step forward, then forward over the weekend. It
      is a weekday at most three days ahead, past weekend days only. */
  function NextLanding(n: int): (m: int)
    ensures WeekdayOfOrdinal(m) <= 4 && n < m <= n + 3 && OnlyWeekendsIn(n, m - 1)
  {
    ForwardToWeekday(n + 1);
    n + 1 + DaysForwardToWeekday(n + 1)
  }

  /** `get_prev_business_day(value, keep)`: holidays are never consulted.
      Unless `value` is kept, it steps back one day and then walks back
      over Saturday and Sunday; PrevBusinessDayLands says where it stops. */
  function PrevBusinessDay(value: DateTime, keep: bool): (r: Result<DateTime>)
    requires value.Valid()
    ensures var n := Ordinal(value.date); var kept := keep && WeekdayOfOrdinal(n) <= 4;
      && (kept ==> r == Ok(value))
      && (!kept ==> (r.Err? <==> n == 1))
      && (r.Err? ==> r.error == DateOverflow)
      && (r.Ok? ==> r.value.Valid() && r.value.time == value.time)
      && (!kept && r.Ok? ==> Ordinal(r.value.date) == PrevLanding(n))
  {
    if keep && IsBusinessDay(value, NoHolidays) then Ok(value)
    else
      match AddDays(value, -1)
      case Err(e) => Err(e)
      case Ok(first) => Ok(WalkBack(first))
  }

  /** The previous business day is the closest Monday..Friday strictly
      before `value`: at most three days back, with only Saturdays and
      Sundays in between. */
  lemma PrevBusinessDayLands(value: DateTime, keep: bool)
    requires value.Valid() && !(keep && Weekday(value.date) <= 4) && Ordinal(value.date) > 1
    ensures PrevBusinessDay(value, keep).Ok?
    ensures var r := PrevBusinessDay(value, keep).value;
      && Weekday(r.date) <= 4
      && Ordinal(value.date) - 3 <= Ordinal(r.date) < Ordinal(value.date)
      && OnlyWeekendsIn(Ordinal(r.date), Ordinal(value.date) - 1)
  {
    var n := Ordinal(value.date);
    assert !(keep && WeekdayOfOrdinal(n) <= 4);
    var step := PrevBusinessDay(value, keep);
    assert Ordinal(step.value.date) == PrevLanding(n);
  }

  /** `get_next_business_day(value, keep)`: holidays are never consulted.
      Unless `value` is kept, it steps forward one day and then walks
      forward over Saturday and Sunday; NextBusinessDayLands says where it
      stops. */
  function NextBusinessDay(value: DateTime, keep: bool): (r: Result<DateTime>)
    requires value.Valid()
    ensures var n := Ordinal(value.date); var kept := keep && WeekdayOfOrdinal(n) <= 4;
      && (kept ==> r == Ok(value))
      && (!kept ==> (r.Err? <==> n == MaxOrdinal))
      && (r.Err? ==> r.error == DateOverflow)
      && (r.Ok? ==> r.value.Valid() && r.value.time == value.time)
      && (!kept && r.Ok? ==> Ordinal(r.value.date) == NextLanding(n))
  {
    if keep && IsBusinessDay(value, NoHolidays) then Ok(value)
    else
      match AddDays(value, 1)
      case Err(e) => Err(e)
      case Ok(first) => Ok(WalkForward(first))
  }

  /** The next business day is the closest Monday..Friday strictly after
      `value`: at most three days ahead, with only Saturdays and Sundays in
      between. */
  lemma NextBusinessDayLands(value: DateTime, keep: bool)
    requires value.Valid() && !(keep && Weekday(value.date) <= 4) && Ordinal(value.date) < MaxOrdinal
    ensures NextBusinessDay(value, keep).Ok?
    ensures var r := NextBusinessDay(value, keep).value;
      && Weekday(r.date) <= 4
      && Ordinal(value.date) < Ordinal(r.date) <= Ordinal(value.date) + 3
      && OnlyWeekendsIn(Ordinal(value.date), Ordinal(r.date) - 1)
  {
    var n := Ordinal(value.date);
    assert !(keep && WeekdayOfOrdinal(n) <= 4);
    var step := NextBusinessDay(value, keep);
    assert Ordinal(step.value.date) == NextLanding(n);
  }

  /** `get_last_business_day()` with the clock reading `now` as a parameter:
      today at midnight, or the Friday before when today is a weekend day. */
  function LastBusinessDay(now: DateTime): (r: DateTime)
    requires now.Valid()
    ensures r.Valid() && r.time == Midnight && Weekday(r.date) <= 4
    ensures Ordinal(now.date) - 2 <= Ordinal(r.date) <= Ordinal(now.date)
    ensures OnlyWeekendsIn(Ordinal(r.date), Ordinal(now.date))
  {
    var n := Ordinal(now.date);
    var numberDay := WeekdayOfOrdinal(n);
    BackToWeekday(n);
    if numberDay > 4 then
      WeekendHasNeighbours(n);
      DateTime(PlusDays(now, -(numberDay - 4)).date, Midnight)
    else DateTime(now.date, Midnight)
  }

  /** The last business day up to `now` is the previous business day of `now`
      with `keep` set, moved to midnight. */
  lemma LastBusinessDayIsKeptPrev(now: DateTime)
    requires now.Valid()
    ensures PrevBusinessDay(now, true).Ok?
    ensures LastBusinessDay(now) == DateTime(PrevBusinessDay(now, true).value.date, Midnight)
  {
    var n := Ordinal(now.date);
    if WeekdayOfOrdinal(n) > 4 {
      WeekendHasNeighbours(n);
      WeekendStepBack(n);
      var step := PrevBusinessDay(now, true);
      assert Ordinal(step.value.date) == PrevLanding(n);
      var prev := step.value;
      var last := LastBusinessDay(now);
      assert Ordinal(prev.date) == n - DaysBackToWeekday(n);
      assert Ordinal(last.date) == n - DaysBackToWeekday(n);
      OrdinalOrder(last.date, prev.date);
    }
  }

  /** `x` is a day that `get_business_days_between(start, end)` reports:
      a Monday..Friday after `start`, at midnight, whose `start + k days` is `<= end`. */
  predicate Reported(start: DateTime, end: DateTime, x: DateTime)
    requires start.Valid()
  {
    && x.Valid() && x.time == Midnight && Weekday(x.date) <= 4
    && Ordinal(start.date) < Ordinal(x.date)
    && DateTime(x.date, start.time).AtMost(end)
  }

  /** Loop invariant of `get_business_days_between`: `days` lists, in
      increasing order, exactly the Monday..Friday dates after `start` and
      before day number `hi`. */
  ghost predicate Collected(start: DateTime, end: DateTime, days: seq<DateTime>, hi: int)
    requires start.Valid()
  {
    && (forall i :: 0 <= i < |days| ==> Reported(start, end, days[i]) && Ordinal(days[i].date) < hi)
    && (forall i, j :: 0 <= i < j < |days| ==>
          Reported(start, end, days[i]) && Reported(start, end, days[j]) && Ordinal(days[i].date) < Ordinal(days[j].date))
    && (forall d: Date :: d.Valid() && Ordinal(start.date) < Ordinal(d) < hi && Weekday(d) <= 4
          ==> DateTime(d, Midnight) in days)
  }

  /** One iteration of the loop keeps the invariant. */
  lemma CollectedStep(start: DateTime, end: DateTime, days: seq<DateTime>, aux: DateTime)
    requires start.Valid() && aux.Valid() && aux.time == start.time
    requires Ordinal(start.date) < Ordinal(aux.date)
    requires Collected(start, end, days, Ordinal(aux.date))
    requires aux.AtMost(end)
    ensures Weekday(aux.date) <= 4 ==> Collected(start, end, days + [DateTime(aux.date, Midnight)], Ordinal(aux.date) + 1)
    ensures Weekday(aux.date) > 4 ==> Collected(start, end, days, Ordinal(aux.date) + 1)
  {
    var days' := days + (if Weekday(aux.date) <= 4 then [DateTime(aux.date, Midnight)] else []);
    forall d: Date | d.Valid() && Ordinal(start.date) < Ordinal(d) < Ordinal(aux.date) + 1 && Weekday(d) <= 4
      ensures DateTime(d, Midnight) in days'
    {
      OrdinalOrder(d, aux.date);
    }
  }

  /** When the loop stops, the invariant gives the whole answer. */
  lemma CollectedDone(start: DateTime, end: DateTime, days: seq<DateTime>, aux: DateTime)
    requires start.Valid() && end.Valid() && aux.Valid() && aux.time == start.time
    requires Collected(start, end, days, Ordinal(aux.date))
    requires !aux.AtMost(end)
    ensures forall i, j :: 0 <= i < j < |days| ==> days[i].Before(days[j])
    ensures forall d: Date ::
      d.Valid() && Ordinal(start.date) < Ordinal(d) && Weekday(d) <= 4 && DateTime(d, start.time).AtMost(end)
      ==> DateTime(d, Midnight) in days
    ensures !DateTime(Date(MaxYear, 12, 31), start.time).AtMost(end)
  {
    forall d: Date | d.Valid() && Ordinal(aux.date) <= Ordinal(d)
      ensures !DateTime(d, start.time).AtMost(end)
    {
      DateTimeOrder(end, aux);
      DateTimeOrder(end, DateTime(d, start.time));
      DateTimeOrder(aux, DateTime(d, start.time));
    }
    forall i, j | 0 <= i < j < |days|
      ensures days[i].Before(days[j])
    {
      DateTimeOrder(days[i], days[j]);
    }
  }

  /** The walk stands on 9999-12-31 and still has to step once more. */
  lemma LastDayReached(start: DateTime, end: DateTime, aux: DateTime)
    requires aux.Valid() && aux.time == start.time
    requires Ordinal(aux.date) == MaxOrdinal && aux.AtMost(end)
    ensures DateTime(Date(MaxYear, 12, 31), start.time).AtMost(end)
  {
    OrdinalOrder(aux.date, Date(MaxYear, 12, 31));
  }

  /** `get_business_days_between(start, end)`: every Monday..Friday
      `start + k days` (k >= 1) that is `<= end`, at midnight, in order.
      The walk raises OverflowError once it must step past 9999-12-31. */
  method BusinessDaysBetween(start: DateTime, end: DateTime) returns (r: Result<seq<DateTime>>)
    requires start.Valid() && end.Valid()
    ensures r.Err? <==> Ordinal(start.date) == MaxOrdinal || DateTime(Date(MaxYear, 12, 31), start.time).AtMost(end)
    ensures r.Err? ==> r.error == DateOverflow
    ensures r.Ok? ==> forall i :: 0 <= i < |r.value| ==> Reported(start, end, r.value[i])
    ensures r.Ok? ==> forall i, j :: 0 <= i < j < |r.value| ==> r.value[i].Before(r.value[j])
    ensures r.Ok? ==> forall d: Date ::
      d.Valid() && Ordinal(start.date) < Ordinal(d) && Weekday(d) <= 4 && DateTime(d, start.time).AtMost(end)
      ==> DateTime(d, Midnight) in r.value
  {
    if Ordinal(start.date) == MaxOrdinal {
      return Err(DateOverflow);
    }
    var days: seq<DateTime> := [];
    var aux := PlusDays(start, 1);
    while aux.AtMost(end)
      invariant aux.Valid() && aux.time == start.time
      invariant Ordinal(start.date) < Ordinal(aux.date)
      invariant Collected(start, end, days, Ordinal(aux.date))
      decreases MaxOrdinal - Ordinal(aux.date)
    {
      CollectedStep(start, end, days, aux);
      if Weekday(aux.date) <= 4 {
        days := days + [DateTime(aux.date, Midnight)];
      }
      if Ordinal(aux.date) == MaxOrdinal {
        LastDayReached(start, end, aux);
        return Err(DateOverflow);
      }
      aux := PlusDays(aux, 1);
    }
    CollectedDone(start, end, days, aux);
    return Ok(days);
  }
}
