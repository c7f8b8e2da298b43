# pp-schedule calendar core, in Dafny

This project models the calendar and time-of-day functions of
`schedule/schedule.py`. Each is a pure function over an immutable value that
mirrors Python's naive `datetime`:

- **Date.** A date is year 1..9999, month and day. Its day number is
  `toordinal()`: 0001-01-01 is 1 and 9999-12-31 is 3 652 059. Its weekday
  is `(n + 6) % 7`, so Monday is 0.
- **Time.** A time of day is hour, minute, second and microsecond.
- **Adding days.** Every `+ timedelta(days=k)` is day-number arithmetic. It
  returns `Err(DateOverflow)` where Python raises OverflowError.
- **Building dates.** `datetime(y, m, d)` is `MakeDate`. CPython first reads
  each argument as a C `int`; one outside -2**31..2**31-1 is an
  OverflowError, `Err(IntOverflow)`. Then come the ValueErrors (year, month
  or day out of range), as `Result` errors in Python's order.
- **Parsing and printing.** `strptime` and `strftime` are modelled for the
  fixed-width, zero-padded spelling of the numeric directives `%Y %m %d %H
  %M %S %f`. Fields a format leaves out take `strptime`'s defaults
  (1900-01-01 00:00:00).
- **The clock.** The clock reading of `today()` is a parameter: "now" for
  `get_last_business_day`, and today's date for `add_time`.

Modules follow the structure of the program:

| file | module | contents |
|---|---|---|
| outcomes.dfy | Outcomes | `Option`, `Result` and the error kinds (ValueError cases, OverflowError, parse failure) |
| calendar.dfy | Calendar | leap years, month lengths, day numbers both ways, weekday, runs of weekend days |
| datetimes.dfy | DateTimes | time of day, datetime, ordering, `+ timedelta` in seconds and in days |
| business.dfy | Business | `is_bussines_day`, `get_prev/next_business_day`, `get_last_business_day`, `get_business_days_between` |
| shifting.dfy | Shifting | `up_date`, as written and as intended |
| timeofday.dfy | TimeOfDay | `get_seconds_by_time`, `add_time`, `get_min_between_times` |
| formats.dfy | Formats | `LIST_DATE_FORMATS`, the strptime/strftime subset, `convert_string_to_date`, `ajust_date` |
| durations.dfy | Durations | unit selection of `get_time` |
| cases.dfy | Cases | the unit-test expectations of tests/test_schedule.py, as lemmas and one method about the model: every test of a modelled function except `test_get_last_business_day`, which reads the clock |

## Model

| member | source | states |
|---|---|---|
| Calendar.MakeDate | schedule/schedule.py:279 | `datetime(y, m, d)` succeeds exactly for a valid date. An argument beyond a C int fails first, with the overflow error. Otherwise it fails with the year error before the month error before the day error. |
| Calendar.Ordinal | schedule/schedule.py:213 | `toordinal()`: every valid date has a day number in 1..3652059. With OrdinalOrder, OrdinalInjective and FromOrdinal, it numbers the calendar one-to-one and in order, and `timedelta(days=k)` moves that number by `k`. |
| Calendar.FromOrdinal | schedule/schedule.py:213 | Every day number in 1..3652059 belongs to a valid date, and `FromOrdinal` returns it. |
| Calendar.OrdinalInjective | schedule/schedule.py:213 | Two valid dates with the same day number are the same date, so the date a `timedelta` reaches is unique. |
| Calendar.OrdinalOrder | schedule/schedule.py:252 | Comparing dates field by field (Python's ordering) agrees with comparing day numbers, in both directions, and equality likewise. |
| Calendar.FromOrdinalOrdinal | schedule/schedule.py:213 | Taking a date's day number and converting back gives the same date. |
| Calendar.Weekday | schedule/schedule.py:113 | `date.weekday()` is in 0..6. FirstDayIsMonday and WeekdayCycle pin it down: Monday is 0 on 0001-01-01, and the weekday advances by one per day, modulo 7. |
| Calendar.FirstDayIsMonday | schedule/schedule.py:192 | 0001-01-01 is day number 1 and a Monday, weekday 0. |
| Calendar.WeekdayCycle | schedule/schedule.py:253 | The day after a date is the next weekday, Sunday wrapping to Monday. Two dates share a weekday exactly when their day numbers are a multiple of 7 apart. |
| Calendar.BackToWeekday | schedule/schedule.py:214-215 | Walking back from any day reaches a Monday..Friday within two steps, with only weekend days skipped. |
| Calendar.ForwardToWeekday | schedule/schedule.py:234-235 | Walking forward from any day reaches a Monday..Friday within two steps, with only weekend days skipped. |
| DateTimes.DateTimeOrder | schedule/schedule.py:252 | Comparing datetimes is comparing day numbers, then times of day on the same date. |
| DateTimes.AddSeconds | schedule/schedule.py:302 | `dt + timedelta(seconds=s)` moves the absolute second count by exactly `s` and keeps microseconds. It overflows exactly when the day number leaves 1..3652059. |
| DateTimes.AddDays | schedule/schedule.py:213 | `dt + timedelta(days=k)` moves the day number by exactly `k` and keeps the time. It overflows exactly when the day leaves the calendar. |
| DateTimes.AddDaysIsAddSeconds | schedule/schedule.py:336 | A shift of `k` days is the same as a shift of `86400 * k` seconds. |
| DateTimes.AddDaysInverse | schedule/schedule.py:336 | Moving by `k` days and back by `k` days restores the datetime. |
| Business.IsBusinessDay | schedule/schedule.py:113-117 | Saturday and Sunday are never business days. A weekday is one unless the holiday map lists it under its year. |
| Business.BusinessDayWithoutHolidays | schedule/schedule.py:113-117 | Without holidays, a business day is exactly a Monday..Friday. |
| Business.HolidaysOnlyRemove | schedule/schedule.py:115-116 | Supplying holidays can only turn a business day into a non-business day. |
| Business.WalkBack | schedule/schedule.py:214-215 | The backward loop stops on the nearest weekday at or before its start. The time of day is kept. |
| Business.WalkForward | schedule/schedule.py:234-235 | The forward loop stops on the nearest weekday at or after its start. The time of day is kept. |
| Business.PrevLanding | schedule/schedule.py:214-215 | The day reached by one step back and the backward loop is a Monday..Friday 1 to 3 days earlier, with only weekend days skipped. |
| Business.NextLanding | schedule/schedule.py:234-235 | The day reached by one step forward and the forward loop is a Monday..Friday 1 to 3 days later, with only weekend days skipped. |
| Business.PrevBusinessDay | schedule/schedule.py:210-216 | A kept weekday is returned unchanged. Otherwise the result is the nearest weekday strictly before the input, with the same time. It overflows only on 0001-01-01. |
| Business.PrevBusinessDayLands | schedule/schedule.py:210-216 | When not kept, the result is a Monday..Friday 1 to 3 days earlier, and every day skipped between is a weekend day. |
| Business.NextBusinessDay | schedule/schedule.py:230-236 | A kept weekday is returned unchanged. Otherwise the result is the nearest weekday strictly after the input, with the same time. It overflows only on 9999-12-31. |
| Business.NextBusinessDayLands | schedule/schedule.py:230-236 | When not kept, the result is a Monday..Friday 1 to 3 days later, and every day skipped between is a weekend day. |
| Business.LastBusinessDay | schedule/schedule.py:191-196 | The result is a Monday..Friday at midnight, at most 2 days before now, with only weekend days after it up to now. |
| Business.LastBusinessDayIsKeptPrev | schedule/schedule.py:191-196 | The last business day is `get_prev_business_day(now, keep=True)` moved to midnight. |
| Business.CollectedStep | schedule/schedule.py:252-256 | One loop iteration keeps the invariant: the list holds, in order, exactly the weekdays seen so far. |
| Business.BusinessDaysBetween | schedule/schedule.py:250-257 | Every listed day is a Monday..Friday at midnight after `start` whose `start + k days` is `<= end`, compared with start's time. The list is strictly increasing and contains every such weekday. The walk overflows exactly when it must pass 9999-12-31. |
| Shifting.CarryIsTarget | schedule/schedule.py:279 | The floor-division year carry and the `(new_month % 12) or 12` month reach the target (year, month) on the month axis. |
| Shifting.FallbackMonth | schedule/schedule.py:282 | When the target month is not December, the fallback month `new_month + 1` is the following month exactly when `new_month` lies in -1..11. Otherwise it is no month number at all. December always has day 31, so its fallback is never computed. |
| Shifting.Land | schedule/schedule.py:279-283 | Builds the date or, only on the day error, day 1 of the fallback month, then adds the days. Any other ValueError propagates, and so does the overflow error of an argument beyond a C int. |
| Shifting.UpDate | schedule/schedule.py:273-283 | All-zero offsets return `ref` unchanged, time included. Otherwise the result is the target year and month, the kept day and the unreduced fallback month. |
| Shifting.UpDateCases | schedule/schedule.py:273-283 | If the target year does not fit a C int, it fails with the overflow error; if it is out of 1..9999, with the year error. If the kept day exists, the result is midnight of it plus `days`. If not, and `new_month` is in -1..11, it is the first of the next month. Otherwise it fails with the month error, or the overflow error when `new_month + 1` does not fit a C int. |
| Shifting.UpDateIntended | schedule/schedule.py:282 | Same as `up_date`, with the fallback month reduced as `((new_month + 1) % 12) or 12`. |
| Shifting.UpDateIntendedCases | schedule/schedule.py:282 | With the intended fallback, the result is the kept day or the first of the next month. A month or day error never occurs. |
| Shifting.FallbackIsNextMonth | schedule/schedule.py:282 | The fallback date is the day after the last day of the target month. |
| Shifting.UpDateMonthOverflow | schedule/schedule.py:282 | 2023-01-31 plus 13 months fails with the month error as written, and gives 2024-03-01 as intended. |
| Shifting.UpDateYearBeyondCInt | schedule/schedule.py:277-279 | 2023-01-01 plus 2**31-1 years fails with the overflow error, and plus 8000 years with the year error. |
| Shifting.UpDateDaysOnly | schedule/schedule.py:273-279 | A days-only shift is midnight of `ref`'s date moved by `days`, both as written and as intended. |
| TimeOfDay.GetSecondsByTime | schedule/schedule.py:158 | The result is in 0..86399 and, with the microseconds, determines the time of day. |
| TimeOfDay.OrZero | schedule/schedule.py:299-301 | A missing offset counts as 0, and a given one as itself. |
| TimeOfDay.AddTime | schedule/schedule.py:299-302 | The result's second of day is `(seconds(ref) + 3600h + 60m + s) mod 86400`, and the microseconds are kept. It fails only when the sum leaves the calendar. |
| TimeOfDay.AddTimeIsAddSeconds | schedule/schedule.py:302 | `add_time` is the time of day of `datetime.combine(today, ref) + timedelta(...)`, with the same success condition. |
| TimeOfDay.AddTimeIgnoresDate | schedule/schedule.py:302 | Any two dates that do not overflow give the same time. |
| TimeOfDay.AddTimeCompose | schedule/schedule.py:302 | Two successive shifts are one shift by the summed offset. |
| TimeOfDay.AddTimeByOffset | schedule/schedule.py:299-302 | Only the total offset in seconds matters. |
| TimeOfDay.AddTimeZero | schedule/schedule.py:299-302 | No offset returns the same time. |
| TimeOfDay.AddTimeInverse | schedule/schedule.py:302 | Shifting by `s` and then by `-s` seconds restores the time. |
| TimeOfDay.AddTimeSameDay | schedule/schedule.py:302 | An offset that stays within the day is plain addition of seconds. |
| TimeOfDay.MinBetweenTimes | schedule/schedule.py:353-354 | The result times 300 is the signed difference in seconds. It is positive, negative or zero exactly as start is before, after or equal to end. |
| TimeOfDay.MinBetweenAntisymmetric | schedule/schedule.py:353-354 | Swapping the times negates the result. |
| TimeOfDay.MinBetweenAdditive | schedule/schedule.py:353-354 | Slot counts add up along a chain of times. |
| TimeOfDay.MinBetweenAfterAddTime | schedule/schedule.py:353-354 | Moving a time forward by `5k` minutes within the day puts exactly `k` slots between the two. |
| Formats.Match | schedule/schedule.py:177 | `strptime` succeeds exactly when the string scans and the fields form a valid datetime. The result carries the scanned fields, and the defaults for fields the format does not mention. |
| Formats.Strftime | schedule/schedule.py:339 | `strftime` prints exactly the format's fixed number of characters. MatchStrftime and StrftimeMatch show that it inverts `strptime` on the same format. |
| Formats.MatchStrftime | schedule/schedule.py:333-339 | Parsing what `strftime` printed gives back the datetime, when the unprinted fields hold the defaults. |
| Formats.StrftimeMatch | schedule/schedule.py:333-339 | Printing a parsed datetime gives back the parsed string, for a format that prints no field twice. |
| Formats.ScanRender | schedule/schedule.py:177 | Scanning a rendered string assigns exactly the rendered fields. |
| Formats.RenderScan | schedule/schedule.py:339 | Rendering scanned fields reproduces the scanned string. |
| Formats.FirstMatch | schedule/schedule.py:174-180 | The result is the first format that parses, in list order, or `None` exactly when no format parses. It never raises. |
| Formats.ConvertString | schedule/schedule.py:15 | Same, over `LIST_DATE_FORMATS` in its order, always yielding a valid datetime. |
| Formats.ConvertStrings | schedule/schedule.py:172-173 | A list converts element-wise, in order, to a list of the same length. |
| Formats.AjustDate | schedule/schedule.py:333-339 | The output reparses in the same format, to the input's date moved by exactly `days` and its time unchanged. The `HH:MM:SS` text is unchanged. It fails with a parse error exactly when the input does not parse. When it parses, it succeeds exactly when the moved day number stays in 1..3652059. |
| Formats.AjustDateRoundTrip | schedule/schedule.py:333-339 | Adjusting by `d` and then by `-d` returns the original string. |
| Durations.SelectUnit | schedule/schedule.py:78-86 | The chosen unit is reached by `t`, and the next larger unit is not. |
| Durations.Scaled | schedule/schedule.py:78-86 | The shown number before rounding is `t` over the unit size. It is at least 1 unless the unit is nS, and below the next unit's ratio. |
| Durations.SelectUnitMonotone | schedule/schedule.py:78-86 | A longer duration never gets a smaller unit. |
| Durations.SelectUnitUnique | schedule/schedule.py:78-86 | The thresholds admit exactly one unit. |
| Cases.IsBusinessDayCases | tests/test_schedule.py:30-33 | 2023-05-19 is a business day. 2023-05-20 is not. 2023-05-19 is not when listed as a holiday. |
| Cases.PrevFromSaturday | tests/test_schedule.py:66-69 | From 2023-05-20, with or without keep, the previous business day is 2023-05-19. |
| Cases.PrevFromFriday | tests/test_schedule.py:70-71 | From 2023-05-19 without keep, it is 2023-05-18. |
| Cases.KeepFriday | tests/test_schedule.py:72-73 | 2023-05-19 with keep is itself, both backward and forward. |
| Cases.NextToMonday | tests/test_schedule.py:76-81 | From 2023-05-20, or from 2023-05-19 without keep, the next business day is 2023-05-22. |
| Cases.UpDateCase | tests/test_schedule.py:94-97 | 2023-01-01 plus 1 day, 1 month and 1 year is 2024-02-02. |
| Cases.AddTimeCase | tests/test_schedule.py:100-103 | 12:00:00 plus 1 hour, 1 minute and 1 second is 13:01:01. |
| Cases.MinBetweenTimesCase | tests/test_schedule.py:105-108 | From 12:00 to 13:00 is 12.0 five-minute slots. |
| Cases.GetSecondsByTimeCase | tests/test_schedule.py:45-46 | 12:30:45 is 45045 seconds. |
| Cases.SelectUnitCases | tests/test_schedule.py:18-22 | 500 ns, 1500 ns, 1.5 ms, 1.5 s and 3600 s get nS, uS, mS, S and min. |
| Cases.ConvertDateTimeCase | tests/test_schedule.py:49-50 | "2023-05-19 12:30:45" converts to 2023-05-19 12:30:45, through the first format. |
| Cases.FirstFormatNeedsClock | schedule/schedule.py:15 | The first format, `%Y-%m-%d %H:%M:%S`, reads only 19-character strings, so a bare date falls through to the next format. |
| Cases.SecondFormatReads | schedule/schedule.py:15 | The second format, `%Y-%m-%d`, reads each of 2023-05-18..22 back as that day at midnight. |
| Cases.ConvertDateCase | schedule/schedule.py:174-180 | Each of 2023-05-18..22, written as a bare date, converts through the second format. |
| Cases.ConvertDateOnlyCase | tests/test_schedule.py:51-52 | "2023-05-19" converts to 2023-05-19 at midnight, and "2023-05-20" to 2023-05-20. |
| Cases.ConvertStringsCase | tests/test_schedule.py:53-54 | The list ["2023-05-19", "2023-05-20"] converts to those two days at midnight, in order. |
| Cases.FirstWeekReported | schedule/schedule.py:252-256 | Every day reported between Sunday 2023-01-01 and Saturday 2023-01-07 is one of 2023-01-02 to 2023-01-06. |
| Cases.FirstWeekAtMostFive | schedule/schedule.py:252-256 | A strictly increasing list of such days has at most five entries. |
| Cases.FirstWeekList | tests/test_schedule.py:89-91 | A strictly increasing list of at most five entries that holds each of 2023-01-02 to 2023-01-06 is exactly those days in order. |
| Cases.BusinessDaysBetweenCase | tests/test_schedule.py:85-91 | `get_business_days_between(2023-01-01, 2023-01-07)` is 2023-01-02 to 2023-01-06, in order. |

## Left out

- `timeit` (schedule/schedule.py:18-65): wall-clock timing, the garbage-collector toggle and printing.
- `get_time` text (schedule/schedule.py:78-86): only the unit choice and the exact quotient are modelled. The float `round(…, 3)` and the string are not.
- `today()` (schedule/schedule.py:89-99), and default arguments evaluated at import: the clock becomes a parameter. Time zones are not modelled, and all datetimes are naive.
- `date_to_int` and `int_to_date` (schedule/schedule.py:120-145): they depend on the host's local time zone and on float arithmetic.
- `convert_seconds_to_time` (schedule/schedule.py:305-317): it always raises TypeError at line 316, where the builtin `min` is used for `minutes`.
- Random fixture generators (schedule/schedule.py:357 onwards): nondeterministic.
- setup.py: packaging only.
- `is_bussines_day` with `holidays` as a plain list: the docstring (schedule/schedule.py:108) describes a `List[datetime]`. With a list, `actual_day.year in holidays` is false for every date, so the source ignores every holiday. Such a call is the empty map here. The model's year-keyed map is what line 115 reads. `None` and `{}` are also the empty map.
- Formats.Match: `strptime` also accepts one-digit months, days, hours, minutes and seconds, one to five digits for `%f`, lower-case `t` and `z` for the literal letters, any run of whitespace for a space, and non-ASCII digits. The model accepts the zero-padded, fixed-width spelling only.
- Formats.Strftime: `%Y` is printed with four digits. Some C libraries print years below 1000 without padding. `AjustDateRoundTrip` needs the four-digit form, which is what the parser reads back.
- Formats.ConvertStrings: nested lists, which the source would recurse into, are not modelled. A list is one level of strings.
- Shifting.UpDate: the year carry `math.floor((new_month - 1) / 12)` is exact floor division here. Python divides as a float first, which differs only for month offsets beyond 2**53.
- TimeOfDay.MinBetweenTimes: the result is an exact `real`. Python's float division by 60 and by 5 can round in the last bit.
- Calendar.FromOrdinal: specified as the unique valid date with that day number, not by CPython's 400-year cycle arithmetic. The results are the same.
- DateTimes.AddDays: `timedelta(days=k)` itself raises OverflowError for `|k|` beyond 999999999. Every such `k` also leaves the calendar, so the model reports it as `Err(DateOverflow)`, the same error as an addition that leaves the calendar.
- Shifting.Land: the source retries only when `str(e)` is "day is out of range for month" (schedule/schedule.py:281). That is the message of CPython's C `_datetime` module as found in CPython 3.12, and the model assumes it. Other CPython releases may word the C module's range errors differently; under any other wording the retry never runs. The model retries on every day error. The pure-Python `datetime` (used by PyPy, and by CPython without the C module) words the day error as "day must be in 1..N". Under it the comparison never matches, and `up_date` raises ValueError for every day the target month lacks.
- Business.BusinessDaysBetween: the list is built by appending. Python raises OverflowError at the same point, and the model returns `Err(DateOverflow)` instead of a partial list.

## Findings

| source | as written | input that shows it | evidently intended | confidence | as-written member | corrected member |
|---|---|---|---|---|---|---|
| schedule/schedule.py:282 | `(new_month + 1 % 12) or 12` parses as `new_month + (1 % 12)`, so the fallback month is `new_month + 1` with no reduction | `up_date(datetime(2023, 1, 31), months=13)` under CPython's C `_datetime`, whose day error message the retry at line 281 expects: 2024-02-31 does not exist, and the retry asks for month 15, which raises ValueError | `((new_month + 1) % 12) or 12`, giving 2024-03-01 | not executed | Shifting.UpDateMonthOverflow | Shifting.UpDateIntendedCases |
