/** The examples of tests/test_schedule.py, stated as facts about the model. */
module Cases {
  import opened Outcomes
  import opened Calendar
  import opened DateTimes
  import opened Business
  import opened Shifting
  import opened TimeOfDay
  import opened Formats
  import opened Durations

  function At(y: int, m: int, d: int): DateTime {
    DateTime(Date(y, m, d), Midnight)
  }

  /** The week of 2023-05-18 (Thursday) to 2023-05-22 (Monday): day numbers
      and weekdays. */
  lemma May2023(d: int)
    requires 18 <= d <= 22
    ensures Date(2023, 5, d).Valid()
    ensures Ordinal(Date(2023, 5, d)) == 738640 + d
    ensures Weekday(Date(2023, 5, d)) == (d - 15) % 7
  {
  }

  lemma IsBusinessDayCases()
    ensures IsBusinessDay(At(2023, 5, 19), NoHolidays)
    ensures !IsBusinessDay(At(2023, 5, 20), NoHolidays)
    ensures !IsBusinessDay(At(2023, 5, 19), map[2023 := [Date(2023, 5, 19)]])
  {
    May2023(19);
    May2023(20);
  }

  /** When the day before `v` is a weekday, the previous business day is that day. */
  lemma PrevIsDayBefore(v: DateTime, keep: bool)
    requires v.Valid() && !(keep && Weekday(v.date) <= 4)
    requires Ordinal(v.date) > 1 && WeekdayOfOrdinal(Ordinal(v.date) - 1) <= 4
    ensures PrevBusinessDay(v, keep).Ok?
    ensures Ordinal(PrevBusinessDay(v, keep).value.date) == Ordinal(v.date) - 1
  {
    var n := Ordinal(v.date);
    PrevBusinessDayLands(v, keep);
    var r := PrevBusinessDay(v, keep).value;
    assert !(Ordinal(r.date) < n - 1) by {
      assert OnlyWeekendsIn(Ordinal(r.date), n - 1);
      assert WeekdayOfOrdinal(n - 1) <= 4;
    }
  }

  /** When the day before `v` is a weekday `d`, the previous business day is `d`. */
  lemma PrevLandsOn(v: DateTime, keep: bool, d: Date)
    requires v.Valid() && d.Valid() && !(keep && Weekday(v.date) <= 4)
    requires Ordinal(d) == Ordinal(v.date) - 1 && Weekday(d) <= 4
    ensures PrevBusinessDay(v, keep) == Ok(DateTime(d, v.time))
  {
    PrevIsDayBefore(v, keep);
    var r := PrevBusinessDay(v, keep).value;
    OrdinalOrder(r.date, d);
  }

  /** A weekday kept with `keep` is its own previous and next business day. */
  lemma KeptWeekday(v: DateTime)
    requires v.Valid() && Weekday(v.date) <= 4
    ensures PrevBusinessDay(v, true) == Ok(v) && NextBusinessDay(v, true) == Ok(v)
  {
  }

  /** When `d` is the first weekday after `v`, the next business day is `d`. */
  lemma NextLandsOn(v: DateTime, keep: bool, d: Date)
    requires v.Valid() && d.Valid() && !(keep && Weekday(v.date) <= 4)
    requires Ordinal(v.date) < Ordinal(d) && Weekday(d) <= 4
    requires OnlyWeekendsIn(Ordinal(v.date), Ordinal(d) - 1)
    ensures NextBusinessDay(v, keep) == Ok(DateTime(d, v.time))
  {
    var n := Ordinal(v.date);
    NextBusinessDayLands(v, keep);
    var r := NextBusinessDay(v, keep).value;
    assert !(Ordinal(r.date) < Ordinal(d)) by {
      assert WeekdayOfOrdinal(Ordinal(r.date)) <= 4;
    }
    assert !(Ordinal(d) < Ordinal(r.date)) by {
      assert OnlyWeekendsIn(n, Ordinal(r.date) - 1);
      assert WeekdayOfOrdinal(Ordinal(d)) <= 4;
    }
    OrdinalOrder(r.date, d);
  }

  /** Saturday 2023-05-20 steps back to Friday 2023-05-19, with or without `keep`. */
  lemma PrevFromSaturday(keep: bool)
    ensures PrevBusinessDay(At(2023, 5, 20), keep) == Ok(At(2023, 5, 19))
  {
    May2023(19);
    May2023(20);
    PrevLandsOn(At(2023, 5, 20), keep, Date(2023, 5, 19));
  }

  /** Friday 2023-05-19 steps back to Thursday 2023-05-18 when it is not kept. */
  lemma PrevFromFriday()
    ensures PrevBusinessDay(At(2023, 5, 19), false) == Ok(At(2023, 5, 18))
  {
    May2023(18);
    May2023(19);
    PrevLandsOn(At(2023, 5, 19), false, Date(2023, 5, 18));
  }

  /** With `keep`, Friday 2023-05-19 is its own previous and next business day. */
  lemma KeepFriday()
    ensures PrevBusinessDay(At(2023, 5, 19), true) == Ok(At(2023, 5, 19))
    ensures NextBusinessDay(At(2023, 5, 19), true) == Ok(At(2023, 5, 19))
  {
    May2023(19);
    KeptWeekday(At(2023, 5, 19));
  }

  /** Both Saturday 2023-05-20 and Friday 2023-05-19 step forward to Monday 2023-05-22. */
  lemma NextToMonday(day: int, keep: bool)
    requires day == 20 || (day == 19 && !keep)
    ensures NextBusinessDay(At(2023, 5, day), keep) == Ok(At(2023, 5, 22))
  {
    May2023(day);
    May2023(20);
    May2023(21);
    May2023(22);
    assert OnlyWeekendsIn(738640 + day, 738661) by {
      assert WeekdayOfOrdinal(738660) == 5 && WeekdayOfOrdinal(738661) == 6;
    }
    NextLandsOn(At(2023, 5, day), keep, Date(2023, 5, 22));
  }

  lemma UpDateCase()
    ensures UpDate(At(2023, 1, 1), 1, 1, 1) == Ok(At(2024, 2, 2))
  {
    assert TargetYear(2023, 1, 1, 1) == 2024;
    assert TargetMonth(1, 1) == 2;
    UpDateCases(At(2023, 1, 1), 1, 1, 1);
    var r := UpDate(At(2023, 1, 1), 1, 1, 1).value;
    OrdinalOrder(r.date, Date(2024, 2, 2));
  }

  lemma AddTimeCase(today: Date)
    requires today.Valid()
    ensures AddTime(today, Time(12, 0, 0, 0), Some(1), Some(1), Some(1)) == Ok(Time(13, 1, 1, 0))
  {
    assert Offset(Some(1), Some(1), Some(1)) == 3661;
    AddTimeSameDay(today, Time(12, 0, 0, 0), Some(1), Some(1), Some(1));
    assert TimeAt(46861, 0) == Time(13, 1, 1, 0);
  }

  lemma MinBetweenTimesCase()
    ensures MinBetweenTimes(Time(12, 0, 0, 0), Time(13, 0, 0, 0)) == 12.0
  {
  }

  lemma GetSecondsByTimeCase()
    ensures GetSecondsByTime(DateTime(Date(2023, 5, 19), Time(12, 30, 45, 0))) == 45045
  {
  }

  lemma SelectUnitCases()
    ensures SelectUnit(500) == Nanos && Scaled(500) == 500.0
    ensures SelectUnit(1500) == Micros && Scaled(1500) == 1.5
    ensures SelectUnit(1500000) == Millis && Scaled(1500000) == 1.5
    ensures SelectUnit(1500000000) == Seconds && Scaled(1500000000) == 1.5
    ensures SelectUnit(3600000000000) == Minutes && Scaled(3600000000000) == 60.0
  {
  }

  /** One more digit of padding prints the last digit after the others. */
  lemma PadStep(v: nat, w: nat)
    requires v < Pow10(w + 1)
    ensures v / 10 < Pow10(w)
    ensures Pad(v, w + 1) == Pad(v / 10, w) + [DigitChar(v % 10)]
  {
  }

  /** A two-digit number prints as its tens digit and its units digit. */
  lemma PadTwo(v: nat)
    requires v < 100
    ensures Pow10(2) == 100
    ensures Pad(v, 2) == [DigitChar(v / 10), DigitChar(v % 10)]
  {
    assert Pow10(2) == 100 && Pow10(1) == 10;
    PadStep(v, 1);
    PadStep(v / 10, 0);
    assert v / 10 / 10 == 0 && v / 10 % 10 == v / 10;
  }

  lemma PadDateCases()
    ensures Pad(2023, 4) == "2023" && Pad(5, 2) == "05"
    ensures Pad(19, 2) == "19" && Pad(20, 2) == "20"
  {
    assert Pow10(4) == 10000 && Pow10(3) == 1000;
    PadStep(2023, 3);
    PadStep(202, 2);
    PadTwo(20);
    PadTwo(5);
    PadTwo(19);
  }

  lemma PadClockCases()
    ensures Pad(12, 2) == "12" && Pad(30, 2) == "30" && Pad(45, 2) == "45"
  {
    PadTwo(12); PadTwo(30); PadTwo(45);
  }

  const May19: DateTime := DateTime(Date(2023, 5, 19), Time(12, 30, 45, 0))

  /** `%Y-%m-%d` prints a day of May 2023 as "2023-05-" and the day's two digits. */
  lemma PrintsDate(fs: Fields, dd: string)
    requires Printable(fs) && fs.year == 2023 && fs.month == 5 && RenderToken(Num(Day), fs) == dd
    ensures Render(DatePart, fs) == "2023-05-" + dd
  {
    PadDateCases();
    assert RenderToken(Num(Year), fs) == "2023";
    assert RenderToken(Num(Month), fs) == "05";
    RenderDatePart(fs);
  }

  lemma PrintsMay19(fs: Fields)
    requires Printable(fs) && fs.year == 2023 && fs.month == 5 && fs.day == 19
    ensures Render(DatePart, fs) == "2023-05-19"
  {
    PadDateCases();
    PrintsDate(fs, "19");
    assert "2023-05-" + "19" == "2023-05-19";
  }

  lemma PrintsClock(fs: Fields)
    requires Printable(fs) && fs.hour == 12 && fs.minute == 30 && fs.second == 45
    ensures Render(ClockPart, fs) == "12:30:45"
  {
    PadClockCases();
    assert RenderToken(Num(Hour), fs) == "12";
    assert RenderToken(Num(Minute), fs) == "30";
    assert RenderToken(Num(Second), fs) == "45";
    RenderClockPart(fs);
  }

  /** The first of the date formats, `%Y-%m-%d %H:%M:%S`. */
  lemma FirstFormatShape()
    ensures DateFormats[0] == DatePart + ([Lit(' ')] + ClockPart)
  {
  }

  /** The first format prints every field but the microseconds. */
  lemma FirstFormatDefaults(dt: DateTime)
    requires dt.time.micro == 0
    ensures DefaultsOutside(DatePart + ([Lit(' ')] + ClockPart), dt)
  {
    var fmt := DatePart + ([Lit(' ')] + ClockPart);
    forall g | Num(g) !in fmt ensures Get(FieldsOf(dt), g) == Get(DefaultFields, g) {
      assert Num(Year) == fmt[0] && Num(Month) == fmt[2] && Num(Day) == fmt[4];
      assert Num(Hour) == fmt[6] && Num(Minute) == fmt[8] && Num(Second) == fmt[10];
    }
  }

  lemma SpaceClockPrints(fs: Fields)
    requires Printable(fs) && fs.hour == 12 && fs.minute == 30 && fs.second == 45
    ensures Render([Lit(' ')] + ClockPart, fs) == " 12:30:45"
  {
    PrintsClock(fs);
    RenderAppend([Lit(' ')], ClockPart, fs);
    assert Render([Lit(' ')], fs) == " ";
  }

  lemma FirstFormatPrints(fs: Fields)
    requires Printable(fs) && fs.year == 2023 && fs.month == 5 && fs.day == 19
    requires fs.hour == 12 && fs.minute == 30 && fs.second == 45
    ensures Render(DatePart + ([Lit(' ')] + ClockPart), fs) == "2023-05-19 12:30:45"
  {
    SpaceClockPrints(fs);
    PrintsMay19(fs);
    RenderAppend(DatePart, [Lit(' ')] + ClockPart, fs);
  }

  /** "2023-05-19 12:30:45" is what the first format prints for the datetime. */
  lemma May19FirstFormat()
    ensures Match(DateFormats[0], "2023-05-19 12:30:45") == Some(May19)
  {
    var fmt := DatePart + ([Lit(' ')] + ClockPart);
    FirstFormatShape();
    ValidIsPrintable(May19);
    FirstFormatPrints(FieldsOf(May19));
    FirstFormatDefaults(May19);
    MatchStrftime(fmt, May19);
  }

  lemma ConvertDateTimeCase()
    ensures ConvertString("2023-05-19 12:30:45") == Some(May19)
  {
    var s := "2023-05-19 12:30:45";
    May19FirstFormat();
    var r := ConvertString(s);
    assert r.Some?;
    var i :| 0 <= i < |DateFormats| && r == Match(DateFormats[i], s)
             && forall j :: 0 <= j < i ==> Match(DateFormats[j], s).None?;
    assert i == 0;
  }

  /** The first format prints nineteen characters, so it reads no string of
      another length: a bare date falls through to the next format. */
  lemma FirstFormatNeedsClock(s: string)
    requires |s| != 19
    ensures Match(DateFormats[0], s).None?
  {
    FirstFormatShape();
    ValidIsPrintable(May19);
    FirstFormatPrints(FieldsOf(May19));
    assert Length(DateFormats[0]) == |Strftime(DateFormats[0], May19)| == 19;
  }

  /** The second format is `%Y-%m-%d`; it leaves the clock fields at their
      defaults, so it reads midnight. */
  lemma SecondFormatDefaults(dt: DateTime)
    requires dt.time == Midnight
    ensures DateFormats[1] == DatePart
    ensures DefaultsOutside(DatePart, dt)
  {
    forall g | Num(g) !in DatePart ensures Get(FieldsOf(dt), g) == Get(DefaultFields, g) {
      assert Num(Year) == DatePart[0] && Num(Month) == DatePart[2] && Num(Day) == DatePart[4];
    }
  }

  /** `%Y-%m-%d` reads a day of May 2023 back as that day at midnight. */
  lemma SecondFormatReads(d: int, dd: string)
    requires 18 <= d <= 22 && Pad(d, 2) == dd
    ensures Match(DateFormats[1], "2023-05-" + dd) == Some(At(2023, 5, d))
  {
    var dt := At(2023, 5, d);
    May2023(d);
    ValidIsPrintable(dt);
    PrintsDate(FieldsOf(dt), dd);
    SecondFormatDefaults(dt);
    MatchStrftime(DatePart, dt);
  }

  /** A bare date converts through the second format, `%Y-%m-%d`, once the
      first has failed. */
  lemma ConvertDateCase(d: int, dd: string)
    requires 18 <= d <= 22 && Pad(d, 2) == dd
    ensures ConvertString("2023-05-" + dd) == Some(At(2023, 5, d))
  {
    var text := "2023-05-" + dd;
    FirstFormatNeedsClock(text);
    SecondFormatReads(d, dd);
    var r := ConvertString(text);
    assert r.Some?;
    var i :| 0 <= i < |DateFormats| && r == Match(DateFormats[i], text)
             && forall j :: 0 <= j < i ==> Match(DateFormats[j], text).None?;
    assert i == 1;
  }

  /** "2023-05-19" and "2023-05-20" convert to those days at midnight. */
  lemma ConvertDateOnlyCase(d: int, text: string)
    requires (d == 19 && text == "2023-05-19") || (d == 20 && text == "2023-05-20")
    ensures ConvertString(text) == Some(At(2023, 5, d))
  {
    PadDateCases();
    if d == 19 {
      ConvertDateCase(19, "19");
      assert "2023-05-" + "19" == text;
    } else {
      ConvertDateCase(20, "20");
      assert "2023-05-" + "20" == text;
    }
  }

  lemma ConvertStringsCase()
    ensures ConvertStrings(["2023-05-19", "2023-05-20"]) == [Some(At(2023, 5, 19)), Some(At(2023, 5, 20))]
  {
    ConvertDateOnlyCase(19, "2023-05-19");
    ConvertDateOnlyCase(20, "2023-05-20");
  }

  /** The first week of 2023, Sunday 2023-01-01 to Saturday 2023-01-07: day
      numbers and weekdays. */
  lemma Jan2023(d: int)
    requires 1 <= d <= 7
    ensures Date(2023, 1, d).Valid()
    ensures Ordinal(Date(2023, 1, d)) == 738520 + d
    ensures Weekday(Date(2023, 1, d)) == (d + 5) % 7
  {
  }

  /** A day reported between Sunday 2023-01-01 and Saturday 2023-01-07 is
      one of the weekdays 2023-01-02 to 2023-01-06. */
  lemma FirstWeekReported(x: DateTime)
    requires Reported(At(2023, 1, 1), At(2023, 1, 7), x)
    ensures 738522 <= Ordinal(x.date) <= 738526
    ensures x == At(2023, 1, Ordinal(x.date) - 738520)
  {
    Jan2023(1);
    Jan2023(7);
    OrdinalOrder(Date(2023, 1, 7), x.date);
    var k := Ordinal(x.date) - 738520;
    assert k != 7 by {
      assert WeekdayOfOrdinal(738527) == 5;
    }
    Jan2023(k);
    OrdinalOrder(x.date, Date(2023, 1, k));
  }

  /** In a list that `Before` orders strictly, an earlier entry sits at a smaller index. */
  lemma IncreasingIndex(xs: seq<DateTime>, i: int, j: int)
    requires forall a, b :: 0 <= a < b < |xs| ==> xs[a].Before(xs[b])
    requires 0 <= i < |xs| && 0 <= j < |xs| && xs[i].Before(xs[j])
    ensures i < j
  {
  }

  /** In a list of valid midnights that `Before` orders strictly, the day
      number grows by at least one per entry. */
  lemma {:induction false} SpreadOrdinals(xs: seq<DateTime>, i: nat)
    requires forall a, b :: 0 <= a < b < |xs| ==> xs[a].Before(xs[b])
    requires forall a :: 0 <= a < |xs| ==> xs[a].date.Valid() && xs[a].time == Midnight
    requires i < |xs|
    ensures Ordinal(xs[0].date) + i <= Ordinal(xs[i].date)
    decreases i
  {
    if i > 0 {
      SpreadOrdinals(xs, i - 1);
      OrdinalOrder(xs[i - 1].date, xs[i].date);
    }
  }

  /** A list that `Before` orders strictly, of days reported between Sunday
      2023-01-01 and Saturday 2023-01-07, has at most the five weekdays of
      that week. */
  lemma FirstWeekAtMostFive(xs: seq<DateTime>)
    requires forall a :: 0 <= a < |xs| ==> Reported(At(2023, 1, 1), At(2023, 1, 7), xs[a])
    requires forall a, b :: 0 <= a < b < |xs| ==> xs[a].Before(xs[b])
    ensures |xs| <= 5
  {
    forall a | 0 <= a < |xs|
      ensures xs[a].date.Valid() && xs[a].time == Midnight
      ensures 738522 <= Ordinal(xs[a].date) <= 738526
    {
      FirstWeekReported(xs[a]);
    }
    if |xs| > 5 {
      SpreadOrdinals(xs, 5);
    }
  }

  /** A list of at most five entries that `Before` orders strictly and that
      holds each of Monday 2023-01-02 to Friday 2023-01-06 is those days in order. */
  lemma FirstWeekList(xs: seq<DateTime>)
    requires |xs| <= 5
    requires forall a, b :: 0 <= a < b < |xs| ==> xs[a].Before(xs[b])
    requires forall k :: 2 <= k <= 6 ==> At(2023, 1, k) in xs
    ensures xs == [At(2023, 1, 2), At(2023, 1, 3), At(2023, 1, 4), At(2023, 1, 5), At(2023, 1, 6)]
  {
    assert At(2023, 1, 2) in xs && At(2023, 1, 3) in xs && At(2023, 1, 4) in xs;
    assert At(2023, 1, 5) in xs && At(2023, 1, 6) in xs;
    var i2 :| 0 <= i2 < |xs| && xs[i2] == At(2023, 1, 2);
    var i3 :| 0 <= i3 < |xs| && xs[i3] == At(2023, 1, 3);
    var i4 :| 0 <= i4 < |xs| && xs[i4] == At(2023, 1, 4);
    var i5 :| 0 <= i5 < |xs| && xs[i5] == At(2023, 1, 5);
    var i6 :| 0 <= i6 < |xs| && xs[i6] == At(2023, 1, 6);
    IncreasingIndex(xs, i2, i3);
    IncreasingIndex(xs, i3, i4);
    IncreasingIndex(xs, i4, i5);
    IncreasingIndex(xs, i5, i6);
    assert i2 == 0 && i3 == 1 && i4 == 2 && i5 == 3 && i6 == 4 && |xs| == 5;
  }

  /** `get_business_days_between(2023-01-01, 2023-01-07)` is Monday 2023-01-02
      to Friday 2023-01-06. */
  method BusinessDaysBetweenCase() returns (r: Result<seq<DateTime>>)
    ensures r == Ok([At(2023, 1, 2), At(2023, 1, 3), At(2023, 1, 4), At(2023, 1, 5), At(2023, 1, 6)])
  {
    Jan2023(1);
    Jan2023(7);
    r := BusinessDaysBetween(At(2023, 1, 1), At(2023, 1, 7));
    assert r.Ok?;
    forall k | 2 <= k <= 6 ensures At(2023, 1, k) in r.value {
      Jan2023(k);
    }
    FirstWeekAtMostFive(r.value);
    FirstWeekList(r.value);
  }
}
