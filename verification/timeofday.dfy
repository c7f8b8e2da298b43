/** Time-of-day arithmetic of schedule/schedule.py: `get_seconds_by_time`,
    `add_time` and `get_min_between_times`.

    `add_time` combines the time with today's date, adds a `timedelta` and
    keeps only the time of the sum, so it is a shift modulo one day; today's
    date matters only for the OverflowError at the ends of the calendar and
    is a parameter here. `get_min_between_times` counts five-minute slots
    between two times of the same day, as an exact `real`.
 */
module TimeOfDay {
  import opened Outcomes
  import opened Calendar
  import opened DateTimes

  /** `get_seconds_by_time(value)`: whole seconds since midnight; the
      microseconds and the date do not count. */
  function GetSecondsByTime(value: DateTime): (s: int)
    requires value.Valid()
    ensures 0 <= s < SecondsPerDay
    ensures TimeAt(s, value.time.micro) == value.time
  {
    TimeAtSecondOfDay(value.time);
    value.time.hour * 60 * 60 + value.time.minute * 60 + value.time.second
  }

  /** Python's `0 if not x else x` for an optional integer. */
  function OrZero(x: Option<int>): (v: int)
    ensures x == None ==> v == 0
    ensures x.Some? ==> v == x.value
  {
    if x.None? || x.value == 0 then 0 else x.value
  }

  /** `timedelta(hours=h, minutes=m, seconds=s)` in seconds. */
  function Offset(hours: Option<int>, minutes: Option<int>, seconds: Option<int>): int {
    3600 * OrZero(hours) + 60 * OrZero(minutes) + OrZero(seconds)
  }

  /** A split `c == q * K + b` with `0 <= b < K` is the Euclidean one. */
  lemma SplitIsMod(c: int, q: int, b: int)
    requires c == q * SecondsPerDay + b && 0 <= b < SecondsPerDay
    ensures b == c % SecondsPerDay && q == c / SecondsPerDay
  {
  }

  /** `add_time(ref, hours, minutes, seconds)`, with `today()`'s date given as
      `today`: the time of day of the sum, or the OverflowError of the sum. */
  function AddTime(today: Date, ref: Time, hours: Option<int>, minutes: Option<int>, seconds: Option<int>): (r: Result<Time>)
    requires today.Valid() && ref.Valid()
    ensures var total := SecondOfDay(ref) + Offset(hours, minutes, seconds);
      && (r.Ok? <==> 1 <= Ordinal(today) + total / SecondsPerDay <= MaxOrdinal)
      && (r.Ok? ==> r.value.Valid() && SecondOfDay(r.value) == total % SecondsPerDay && r.value.micro == ref.micro)
      && (r.Err? ==> r.error == DateOverflow)
  {
    var total := SecondOfDay(ref) + Offset(hours, minutes, seconds);
    var n := Ordinal(today) + total / SecondsPerDay;
    if 1 <= n <= MaxOrdinal then Ok(TimeAt(total % SecondsPerDay, ref.micro)) else Err(DateOverflow)
  }

  /** `AddTime` is the time of day of `datetime.combine(today, ref) + timedelta(...)`. */
  lemma AddTimeIsAddSeconds(today: Date, ref: Time, hours: Option<int>, minutes: Option<int>, seconds: Option<int>)
    requires today.Valid() && ref.Valid()
    ensures var sum := AddSeconds(DateTime(today, ref), Offset(hours, minutes, seconds));
      && (AddTime(today, ref, hours, minutes, seconds).Ok? <==> sum.Ok?)
      && (sum.Ok? ==> AddTime(today, ref, hours, minutes, seconds) == Ok(sum.value.time))
  {
    var sum := AddSeconds(DateTime(today, ref), Offset(hours, minutes, seconds));
    if sum.Ok? {
      var r := AddTime(today, ref, hours, minutes, seconds).value;
      SplitIsMod(Ordinal(today) * SecondsPerDay + SecondOfDay(ref) + Offset(hours, minutes, seconds),
                 Ordinal(sum.value.date), SecondOfDay(sum.value.time));
      TimeOrder(r, sum.value.time);
    }
  }

  /** The date `add_time` combines with only decides whether the sum
      overflows; whenever two dates both succeed they give the same time. */
  lemma AddTimeIgnoresDate(d1: Date, d2: Date, ref: Time, hours: Option<int>, minutes: Option<int>, seconds: Option<int>)
    requires d1.Valid() && d2.Valid() && ref.Valid()
    requires AddTime(d1, ref, hours, minutes, seconds).Ok? && AddTime(d2, ref, hours, minutes, seconds).Ok?
    ensures AddTime(d1, ref, hours, minutes, seconds) == AddTime(d2, ref, hours, minutes, seconds)
  {
    TimeAtSecondOfDay(AddTime(d1, ref, hours, minutes, seconds).value);
    TimeAtSecondOfDay(AddTime(d2, ref, hours, minutes, seconds).value);
  }

  /** Two successive `add_time` calls are one call with the offsets summed. */
  lemma AddTimeCompose(today: Date, ref: Time, a: int, b: int)
    requires today.Valid() && ref.Valid()
    requires AddTime(today, ref, None, None, Some(a)).Ok?
    requires AddTime(today, AddTime(today, ref, None, None, Some(a)).value, None, None, Some(b)).Ok?
    requires AddTime(today, ref, None, None, Some(a + b)).Ok?
    ensures AddTime(today, AddTime(today, ref, None, None, Some(a)).value, None, None, Some(b))
         == AddTime(today, ref, None, None, Some(a + b))
  {
    var once := AddTime(today, ref, None, None, Some(a)).value;
    var twice := AddTime(today, once, None, None, Some(b)).value;
    var direct := AddTime(today, ref, None, None, Some(a + b)).value;
    ModAddLeft(SecondOfDay(ref) + a, b);
    TimeOrder(twice, direct);
  }

  lemma ModAddLeft(x: int, b: int)
    ensures (x % SecondsPerDay + b) % SecondsPerDay == (x + b) % SecondsPerDay
  {
    SplitIsMod(x + b, x / SecondsPerDay + (x % SecondsPerDay + b) / SecondsPerDay, (x % SecondsPerDay + b) % SecondsPerDay);
  }

  /** Only the total offset matters: hours and minutes are whole multiples
      of seconds, and a missing offset is a zero one. */
  lemma AddTimeByOffset(today: Date, ref: Time, hours: Option<int>, minutes: Option<int>, seconds: Option<int>)
    requires today.Valid() && ref.Valid()
    ensures AddTime(today, ref, hours, minutes, seconds) == AddTime(today, ref, None, None, Some(Offset(hours, minutes, seconds)))
  {
    var a := AddTime(today, ref, hours, minutes, seconds);
    var b := AddTime(today, ref, None, None, Some(Offset(hours, minutes, seconds)));
    if a.Ok? {
      TimeAtSecondOfDay(a.value);
      TimeAtSecondOfDay(b.value);
    }
  }

  /** Adding no offset returns the same time. */
  lemma AddTimeZero(today: Date, ref: Time)
    requires today.Valid() && ref.Valid()
    ensures AddTime(today, ref, None, None, None) == Ok(ref)
  {
    SplitIsMod(SecondOfDay(ref), 0, SecondOfDay(ref));
    TimeAtSecondOfDay(AddTime(today, ref, None, None, None).value);
    TimeAtSecondOfDay(ref);
  }

  /** Adding `s` seconds and then `-s` seconds restores the time. */
  lemma AddTimeInverse(today: Date, ref: Time, s: int)
    requires today.Valid() && ref.Valid()
    requires AddTime(today, ref, None, None, Some(s)).Ok?
    requires AddTime(today, AddTime(today, ref, None, None, Some(s)).value, None, None, Some(-s)).Ok?
    ensures AddTime(today, AddTime(today, ref, None, None, Some(s)).value, None, None, Some(-s)) == Ok(ref)
  {
    AddTimeZero(today, ref);
    AddTimeByOffset(today, ref, None, None, Some(0));
    AddTimeCompose(today, ref, s, -s);
  }

  /** An offset that stays within the day is plain addition of seconds, and
      succeeds on every date. */
  lemma AddTimeSameDay(today: Date, ref: Time, hours: Option<int>, minutes: Option<int>, seconds: Option<int>)
    requires today.Valid() && ref.Valid()
    requires 0 <= SecondOfDay(ref) + Offset(hours, minutes, seconds) < SecondsPerDay
    ensures AddTime(today, ref, hours, minutes, seconds)
         == Ok(TimeAt(SecondOfDay(ref) + Offset(hours, minutes, seconds), ref.micro))
  {
    var total := SecondOfDay(ref) + Offset(hours, minutes, seconds);
    SplitIsMod(total, 0, total);
    var r := AddTime(today, ref, hours, minutes, seconds).value;
    TimeAtSecondOfDay(r);
  }

  /** Microseconds since midnight. */
  function MicroOfDay(t: Time): int
    requires t.Valid()
  {
    SecondOfDay(t) * 1000000 + t.micro
  }

  /** `get_min_between_times(start, end)`: the signed difference of two times
      on the same day, in seconds, divided by 60 and then by 5. */
  function MinBetweenTimes(start: Time, end: Time): (r: real)
    requires start.Valid() && end.Valid()
    ensures r * 300.0 * 1000000.0 == (MicroOfDay(end) - MicroOfDay(start)) as real
    ensures r > 0.0 <==> start.Before(end)
    ensures r < 0.0 <==> end.Before(start)
    ensures r == 0.0 <==> start == end
  {
    TimeOrder(start, end);
    TimeOrder(end, start);
    var delta := (SecondOfDay(end) - SecondOfDay(start)) as real + (end.micro - start.micro) as real / 1000000.0;
    delta / 60.0 / 5.0
  }

  /** Counting slots from `a` to `b` is the negation of counting from `b` to `a`. */
  lemma MinBetweenAntisymmetric(a: Time, b: Time)
    requires a.Valid() && b.Valid()
    ensures MinBetweenTimes(a, b) == -MinBetweenTimes(b, a)
  {
  }

  /** Slots add up along a chain of times. */
  lemma MinBetweenAdditive(a: Time, b: Time, c: Time)
    requires a.Valid() && b.Valid() && c.Valid()
    ensures MinBetweenTimes(a, b) + MinBetweenTimes(b, c) == MinBetweenTimes(a, c)
  {
  }

  /** Moving a time forward by `k` five-minute slots within the same day
      puts exactly `k` slots between the two times. */
  lemma MinBetweenAfterAddTime(today: Date, t: Time, k: int)
    requires today.Valid() && t.Valid()
    requires 0 <= SecondOfDay(t) + 300 * k < SecondsPerDay
    ensures AddTime(today, t, None, Some(5 * k), None).Ok?
    ensures MinBetweenTimes(t, AddTime(today, t, None, Some(5 * k), None).value) == k as real
  {
    var off := Offset(None, Some(5 * k), None);
    assert off == 300 * k;
    SplitIsMod(SecondOfDay(t) + off, 0, SecondOfDay(t) + off);
  }
}
