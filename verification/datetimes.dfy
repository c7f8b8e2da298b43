/** Python's naive `time` and `datetime` values, their ordering and
    `datetime + timedelta`.
 */
module DateTimes {
  import opened Outcomes
  import opened Calendar

  const SecondsPerDay: int := 86400

  /** A time of day with microseconds; `datetime.time` without a zone. */
  datatype Time = Time(hour: int, minute: int, second: int, micro: int) {
    predicate Valid() {
      0 <= hour < 24 && 0 <= minute < 60 && 0 <= second < 60 && 0 <= micro < 1000000
    }

    /** Python's `<` on times: lexicographic on the fields. */
    predicate Before(other: Time) {
      hour < other.hour
      || (hour == other.hour && minute < other.minute)
      || (hour == other.hour && minute == other.minute && second < other.second)
      || (hour == other.hour && minute == other.minute && second == other.second && micro < other.micro)
    }
  }

  /** `datetime.min.time()`. */
  const Midnight: Time := Time(0, 0, 0, 0)

  datatype DateTime = DateTime(date: Date, time: Time) {
    predicate Valid() {
      date.Valid() && time.Valid()
    }

    /** Python's `<` on naive datetimes: date first, then time of day. */
    predicate Before(other: DateTime) {
      date.Before(other.date) || (date == other.date && time.Before(other.time))
    }

    /** Python's `<=` on naive datetimes. */
    predicate AtMost(other: DateTime) {
      !other.Before(this)
    }
  }

  /** Whole seconds since midnight, ignoring microseconds. */
  function SecondOfDay(t: Time): (s: int)
    requires t.Valid()
    ensures 0 <= s < SecondsPerDay
  {
    t.hour * 3600 + t.minute * 60 + t.second
  }

  /** The time of day `s` seconds after midnight, with `micro` microseconds. */
  function TimeAt(s: int, micro: int): (t: Time)
    requires 0 <= s < SecondsPerDay && 0 <= micro < 1000000
    ensures t.Valid() && t.micro == micro && SecondOfDay(t) == s
  {
    Time(s / 3600, (s % 3600) / 60, s % 60, micro)
  }

  lemma TimeAtSecondOfDay(t: Time)
    requires t.Valid()
    ensures TimeAt(SecondOfDay(t), t.micro) == t
  {
  }

  /** Ordering times field by field agrees with ordering (seconds, microseconds). */
  lemma TimeOrder(a: Time, b: Time)
    requires a.Valid() && b.Valid()
    ensures a.Before(b) <==> SecondOfDay(a) < SecondOfDay(b) || (SecondOfDay(a) == SecondOfDay(b) && a.micro < b.micro)
    ensures a == b <==> SecondOfDay(a) == SecondOfDay(b) && a.micro == b.micro
  {
    TimeAtSecondOfDay(a);
    TimeAtSecondOfDay(b);
  }

  /** Seconds since 0001-01-01 00:00:00, the scale on which `timedelta` adds. */
  function AbsoluteSecond(dt: DateTime): int
    requires dt.Valid()
  {
    Ordinal(dt.date) * SecondsPerDay + SecondOfDay(dt.time)
  }

  /** Ordering datetimes agrees with ordering their day numbers, then their times. */
  lemma DateTimeOrder(a: DateTime, b: DateTime)
    requires a.Valid() && b.Valid()
    ensures a.Before(b) <==> Ordinal(a.date) < Ordinal(b.date) || (a.date == b.date && a.time.Before(b.time))
    ensures a.date == b.date <==> Ordinal(a.date) == Ordinal(b.date)
  {
    OrdinalOrder(a.date, b.date);
  }

  /** `dt + timedelta(seconds=delta)`: fails with OverflowError when the
      result falls outside 0001-01-01 .. 9999-12-31. */
  function AddSeconds(dt: DateTime, delta: int): (r: Result<DateTime>)
    requires dt.Valid()
    ensures r.Ok? <==> 1 <= Ordinal(dt.date) + (SecondOfDay(dt.time) + delta) / SecondsPerDay <= MaxOrdinal
    ensures r.Ok? ==> r.value.Valid() && AbsoluteSecond(r.value) == AbsoluteSecond(dt) + delta
    ensures r.Ok? ==> r.value.time.micro == dt.time.micro
    ensures r.Err? ==> r.error == DateOverflow
  {
    var total := SecondOfDay(dt.time) + delta;
    var n := Ordinal(dt.date) + total / SecondsPerDay;
    if 1 <= n <= MaxOrdinal then Ok(DateTime(FromOrdinal(n), TimeAt(total % SecondsPerDay, dt.time.micro)))
    else Err(DateOverflow)
  }

  /** `dt + timedelta(days=k)`. */
  function AddDays(dt: DateTime, k: int): (r: Result<DateTime>)
    requires dt.Valid()
    ensures r.Ok? <==> 1 <= Ordinal(dt.date) + k <= MaxOrdinal
    ensures r.Ok? ==> r.value.Valid() && Ordinal(r.value.date) == Ordinal(dt.date) + k && r.value.time == dt.time
    ensures r.Err? ==> r.error == DateOverflow
  {
    var n := Ordinal(dt.date) + k;
    if 1 <= n <= MaxOrdinal then Ok(DateTime(FromOrdinal(n), dt.time)) else Err(DateOverflow)
  }

  /** A whole number of days is the same shift as that many seconds times 86400. */
  lemma AddDaysIsAddSeconds(dt: DateTime, k: int)
    requires dt.Valid()
    ensures AddDays(dt, k) == AddSeconds(dt, k * SecondsPerDay)
  {
    var r := AddSeconds(dt, k * SecondsPerDay);
    if r.Ok? {
      TimeOrder(r.value.time, dt.time);
      OrdinalOrder(r.value.date, AddDays(dt, k).value.date);
    }
  }

  /** `dt + timedelta(days=k)` where the result is known to be in range. */
  function PlusDays(dt: DateTime, k: int): (r: DateTime)
    requires dt.Valid() && 1 <= Ordinal(dt.date) + k <= MaxOrdinal
    ensures r.Valid() && Ordinal(r.date) == Ordinal(dt.date) + k && r.time == dt.time
  {
    AddDays(dt, k).value
  }

  /** Moving by `k` days and back by `k` days returns the same datetime. */
  lemma AddDaysInverse(dt: DateTime, k: int)
    requires dt.Valid() && AddDays(dt, k).Ok?
    ensures AddDays(AddDays(dt, k).value, -k) == Ok(dt)
  {
    var back := AddDays(AddDays(dt, k).value, -k).value;
    OrdinalOrder(back.date, dt.date);
  }
}
