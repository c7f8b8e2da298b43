/** The date formats of schedule/schedule.py and the fixed-width subset of
    `strptime` / `strftime` they need.

    A format is a sequence of tokens: a literal character, or one of the
    numeric directives `%Y %m %d %H %M %S %f`. Parsing accepts the canonical
    zero-padded spelling only (four digits for `%Y`, six for `%f`, two for the
    rest); fields a format does not mention take `strptime`'s defaults,
    1900-01-01 00:00:00.000000.
 */
module Formats {
  import opened Outcomes
  import opened Calendar
  import opened DateTimes

  datatype Field = Year | Month | Day | Hour | Minute | Second | Micro

  /** A literal character, or a numeric directive such as `%Y`. */
  datatype Token = Lit(c: char) | Num(field: Field)

  type Format = seq<Token>

  /** Digits printed for a field: `%Y` four, `%f` six, the others two. */
  function Width(f: Field): (w: nat)
    ensures 2 <= w <= 6
  {
    match f
    case Year => 4
    case Micro => 6
    case _ => 2
  }

  /** `%Y-%m-%d` */
  const DatePart: Format := [Num(Year), Lit('-'), Num(Month), Lit('-'), Num(Day)]
  /** `%H:%M:%S` */
  const ClockPart: Format := [Num(Hour), Lit(':'), Num(Minute), Lit(':'), Num(Second)]
  /** `%Y-%m-%dT%H:%M:%S`, the format of `ajust_date`. */
  const IsoFormat: Format := DatePart + [Lit('T')] + ClockPart

  /** `LIST_DATE_FORMATS`, in its order. */
  const DateFormats: seq<Format> := [
    DatePart + [Lit(' ')] + ClockPart,                       // %Y-%m-%d %H:%M:%S
    DatePart,                                                // %Y-%m-%d
    IsoFormat + [Lit('.'), Num(Micro)],                      // %Y-%m-%dT%H:%M:%S.%f
    DatePart + [Lit(' ')] + ClockPart + [Lit('.'), Num(Micro)], // %Y-%m-%d %H:%M:%S.%f
    IsoFormat + [Lit('.'), Num(Micro), Lit('Z')],            // %Y-%m-%dT%H:%M:%S.%fZ
    IsoFormat                                                // %Y-%m-%dT%H:%M:%S
  ]

  /** The broken-down values `strptime` collects before building a datetime. */
  datatype Fields = Fields(year: int, month: int, day: int, hour: int, minute: int, second: int, micro: int)

  /** What `strptime` assumes for a field its format does not mention. */
  const DefaultFields: Fields := Fields(1900, 1, 1, 0, 0, 0, 0)

  function Get(fs: Fields, f: Field): int {
    match f
    case Year => fs.year
    case Month => fs.month
    case Day => fs.day
    case Hour => fs.hour
    case Minute => fs.minute
    case Second => fs.second
    case Micro => fs.micro
  }

  function Set(fs: Fields, f: Field, v: int): (r: Fields)
    ensures Get(r, f) == v
    ensures forall g :: g != f ==> Get(r, g) == Get(fs, g)
  {
    match f
    case Year => fs.(year := v)
    case Month => fs.(month := v)
    case Day => fs.(day := v)
    case Hour => fs.(hour := v)
    case Minute => fs.(minute := v)
    case Second => fs.(second := v)
    case Micro => fs.(micro := v)
  }

  /** Field values determine the record. */
  lemma FieldsEqual(a: Fields, b: Fields)
    requires forall f :: Get(a, f) == Get(b, f)
    ensures a == b
  {
    assert Get(a, Year) == Get(b, Year) && Get(a, Month) == Get(b, Month) && Get(a, Day) == Get(b, Day);
    assert Get(a, Hour) == Get(b, Hour) && Get(a, Minute) == Get(b, Minute) && Get(a, Second) == Get(b, Second);
    assert Get(a, Micro) == Get(b, Micro);
  }

  function FieldsOf(dt: DateTime): Fields {
    Fields(dt.date.year, dt.date.month, dt.date.day, dt.time.hour, dt.time.minute, dt.time.second, dt.time.micro)
  }

  function ToDateTime(fs: Fields): (dt: DateTime)
    ensures FieldsOf(dt) == fs
  {
    DateTime(Date(fs.year, fs.month, fs.day), Time(fs.hour, fs.minute, fs.second, fs.micro))
  }

  function Pow10(n: nat): (p: nat)
    ensures p >= 1
  {
    if n == 0 then 1 else 10 * Pow10(n - 1)
  }

  /** Every field value fits in its directive's width. */
  predicate Printable(fs: Fields) {
    forall f :: 0 <= Get(fs, f) < Pow10(Width(f))
  }

  /** The fields of a valid datetime all fit their widths. */
  lemma ValidIsPrintable(dt: DateTime)
    requires dt.Valid()
    ensures Printable(FieldsOf(dt))
  {
    assert Pow10(2) == 100 && Pow10(4) == 10000 && Pow10(6) == 1000000;
    forall f ensures 0 <= Get(FieldsOf(dt), f) < Pow10(Width(f)) {
    }
  }

  predicate IsDigit(c: char) {
    '0' <= c <= '9'
  }

  predicate AllDigits(s: string) {
    forall i :: 0 <= i < |s| ==> IsDigit(s[i])
  }

  /** The digit for `d`, 0 <= d <= 9. */
  function DigitChar(d: int): (c: char)
    requires 0 <= d <= 9
    ensures IsDigit(c)
  {
    ('0' as int + d) as char
  }

  /** The value of a string of decimal digits, most significant first. */
  function DigitsValue(s: string): (v: nat)
    requires AllDigits(s)
    ensures v < Pow10(|s|)
    decreases |s|
  {
    if |s| == 0 then 0
    else DigitsValue(s[..|s| - 1]) * 10 + (s[|s| - 1] as int - '0' as int)
  }

  /** `v` printed in exactly `w` digits, zero-padded on the left. */
  function Pad(v: nat, w: nat): (s: string)
    requires v < Pow10(w)
    ensures |s| == w && AllDigits(s)
    decreases w
  {
    if w == 0 then ""
    else Pad(v / 10, w - 1) + [DigitChar(v % 10)]
  }

  /** Reading back a padded number gives the number. */
  lemma {:induction false} DigitsValueOfPad(v: nat, w: nat)
    requires v < Pow10(w)
    ensures DigitsValue(Pad(v, w)) == v
    decreases w
  {
    if w > 0 {
      var s := Pad(v, w);
      assert s[..|s| - 1] == Pad(v / 10, w - 1);
      DigitsValueOfPad(v / 10, w - 1);
    }
  }

  /** Padding the value of a digit string to its length gives the string. */
  lemma {:induction false} PadOfDigitsValue(s: string)
    requires AllDigits(s)
    ensures Pad(DigitsValue(s), |s|) == s
    decreases |s|
  {
    if |s| > 0 {
      var init := s[..|s| - 1];
      PadOfDigitsValue(init);
      var v := DigitsValue(s);
      assert v / 10 == DigitsValue(init);
      assert DigitChar(v % 10) == s[|s| - 1];
      assert s == init + [s[|s| - 1]];
    }
  }

  /** Characters a token prints. */
  function TokenLength(t: Token): nat {
    match t
    case Lit(_) => 1
    case Num(f) => Width(f)
  }

  /** Characters a format prints. */
  function Length(fmt: Format): nat
    decreases |fmt|
  {
    if |fmt| == 0 then 0 else TokenLength(fmt[0]) + Length(fmt[1..])
  }

  /** Read `s` against `fmt`, storing each directive's digits into `acc`.
      All of `s` must be consumed; trailing characters are an error, as is a
      short field or a character that is not the literal expected. */
  function Scan(fmt: Format, s: string, acc: Fields): (r: Option<Fields>)
    ensures r.Some? ==> |s| == Length(fmt)
    ensures r.Some? ==> forall g :: Num(g) !in fmt ==> Get(r.value, g) == Get(acc, g)
    decreases |fmt|
  {
    if |fmt| == 0 then (if |s| == 0 then Some(acc) else None)
    else match fmt[0]
      case Lit(c) =>
        if |s| > 0 && s[0] == c then
          var r := Scan(fmt[1..], s[1..], acc);
          assert r.Some? ==> forall g :: Num(g) !in fmt ==> Num(g) !in fmt[1..];
          r
        else None
      case Num(f) =>
        var w := Width(f);
        if |s| >= w && AllDigits(s[..w]) then
          var r := Scan(fmt[1..], s[w..], Set(acc, f, DigitsValue(s[..w])));
          assert r.Some? ==> forall g :: Num(g) !in fmt ==> g != f && Num(g) !in fmt[1..];
          r
        else None
  }

  /** `fs`'s values for the directives of `fmt`, stored into `acc` in order. */
  function Assign(fmt: Format, fs: Fields, acc: Fields): (r: Fields)
    decreases |fmt|
  {
    if |fmt| == 0 then acc
    else match fmt[0]
      case Lit(_) => Assign(fmt[1..], fs, acc)
      case Num(f) => Assign(fmt[1..], fs, Set(acc, f, Get(fs, f)))
  }

  lemma {:induction false} AssignGet(fmt: Format, fs: Fields, acc: Fields, g: Field)
    ensures Get(Assign(fmt, fs, acc), g) == if Num(g) in fmt then Get(fs, g) else Get(acc, g)
    decreases |fmt|
  {
    if |fmt| > 0 {
      assert fmt == [fmt[0]] + fmt[1..];
      match fmt[0]
      case Lit(_) => AssignGet(fmt[1..], fs, acc, g);
      case Num(f) => AssignGet(fmt[1..], fs, Set(acc, f, Get(fs, f)), g);
    }
  }

  /** `strftime` over the numeric directives: literals as they are, numbers
      zero-padded to their widths. */
  function Render(fmt: Format, fs: Fields): (s: string)
    requires Printable(fs)
    ensures |s| == Length(fmt)
    decreases |fmt|
  {
    if |fmt| == 0 then "" else RenderToken(fmt[0], fs) + Render(fmt[1..], fs)
  }

  function RenderToken(t: Token, fs: Fields): (s: string)
    requires Printable(fs)
    ensures |s| == TokenLength(t)
  {
    match t
    case Lit(c) => [c]
    case Num(f) => Pad(Get(fs, f), Width(f))
  }

  /** Scanning what `Render` printed recovers every directive's value. */
  lemma {:induction false} ScanRender(fmt: Format, fs: Fields, acc: Fields)
    requires Printable(fs)
    ensures Scan(fmt, Render(fmt, fs), acc) == Some(Assign(fmt, fs, acc))
    decreases |fmt|
  {
    if |fmt| > 0 {
      var s := Render(fmt, fs);
      match fmt[0]
      case Lit(c) =>
        assert s[1..] == Render(fmt[1..], fs);
        ScanRender(fmt[1..], fs, acc);
      case Num(f) =>
        var w := Width(f);
        var p := Pad(Get(fs, f), w);
        assert s[..w] == p && s[w..] == Render(fmt[1..], fs);
        DigitsValueOfPad(Get(fs, f), w);
        ScanRender(fmt[1..], fs, Set(acc, f, Get(fs, f)));
    }
  }

  /** No directive occurs twice, so no later field overwrites an earlier one. */
  predicate NoRepeat(fmt: Format) {
    forall i, j :: 0 <= i < j < |fmt| && fmt[i].Num? ==> fmt[i] != fmt[j]
  }

  /** The tail of a format without repeats has none either, and does not
      repeat the head's directive. */
  lemma NoRepeatTail(fmt: Format)
    requires NoRepeat(fmt) && |fmt| > 0
    ensures NoRepeat(fmt[1..])
    ensures fmt[0].Num? ==> fmt[0] !in fmt[1..]
  {
    forall i, j | 0 <= i < j < |fmt[1..]| && fmt[1..][i].Num? ensures fmt[1..][i] != fmt[1..][j] {
      assert fmt[1..][i] == fmt[i + 1] && fmt[1..][j] == fmt[j + 1];
    }
    if fmt[0].Num? {
      forall j | 0 <= j < |fmt[1..]| ensures fmt[1..][j] != fmt[0] {
        assert fmt[1..][j] == fmt[j + 1];
      }
    }
  }

  /** With no repeated directive, printing what `Scan` read gives back the
      scanned string. */
  lemma {:induction false} RenderScan(fmt: Format, s: string, acc: Fields)
    requires NoRepeat(fmt) && Scan(fmt, s, acc).Some? && Printable(Scan(fmt, s, acc).value)
    ensures Render(fmt, Scan(fmt, s, acc).value) == s
    decreases |fmt|
  {
    if |fmt| > 0 {
      NoRepeatTail(fmt);
      match fmt[0]
      case Lit(c) =>
        RenderScan(fmt[1..], s[1..], acc);
        assert s == [c] + s[1..];
      case Num(f) =>
        var w := Width(f);
        ScanNumHead(fmt, s, acc);
        RenderScan(fmt[1..], s[w..], Set(acc, f, DigitsValue(s[..w])));
        RenderScanNum(fmt, s, acc);
    }
  }

  /** Scanning a format that starts with a directive reads its digits
      first, and no later directive overwrites them. */
  lemma ScanNumHead(fmt: Format, s: string, acc: Fields)
    requires |fmt| > 0 && fmt[0].Num? && fmt[0] !in fmt[1..] && Scan(fmt, s, acc).Some?
    ensures var f := fmt[0].field;
      && |s| >= Width(f) && AllDigits(s[..Width(f)])
      && Scan(fmt, s, acc) == Scan(fmt[1..], s[Width(f)..], Set(acc, f, DigitsValue(s[..Width(f)])))
      && Get(Scan(fmt, s, acc).value, f) == DigitsValue(s[..Width(f)])
  {
  }

  /** The directive step of RenderScan: the digits read for the head
      directive print back as they were, given that the rest does. */
  lemma RenderScanNum(fmt: Format, s: string, acc: Fields)
    requires |fmt| > 0 && fmt[0].Num? && fmt[0] !in fmt[1..]
    requires Scan(fmt, s, acc).Some? && Printable(Scan(fmt, s, acc).value)
    requires var f := fmt[0].field;
      && |s| >= Width(f) && AllDigits(s[..Width(f)])
      && Render(fmt[1..], Scan(fmt[1..], s[Width(f)..], Set(acc, f, DigitsValue(s[..Width(f)]))).value) == s[Width(f)..]
    ensures Render(fmt, Scan(fmt, s, acc).value) == s
  {
    var f := fmt[0].field;
    var w := Width(f);
    var fs := Scan(fmt, s, acc).value;
    ScanNumHead(fmt, s, acc);
    PadOfDigitsValue(s[..w]);
    assert RenderToken(fmt[0], fs) == s[..w];
    assert Render(fmt, fs) == s[..w] + s[w..];
  }

  /** The fields `fmt` does not print hold `strptime`'s defaults in `dt`. */
  predicate DefaultsOutside(fmt: Format, dt: DateTime) {
    forall g :: Num(g) !in fmt ==> Get(FieldsOf(dt), g) == Get(DefaultFields, g)
  }

  /** `datetime.strptime(s, fmt)`: `None` where Python raises ValueError,
      either because `s` does not fit `fmt` or because the fields read do not
      make a valid datetime (month 13, 30 February, year 0, hour 24, ...). */
  function Match(fmt: Format, s: string): (r: Option<DateTime>)
    ensures r.Some? <==> Scan(fmt, s, DefaultFields).Some? && ToDateTime(Scan(fmt, s, DefaultFields).value).Valid()
    ensures r.Some? ==> r.value.Valid() && FieldsOf(r.value) == Scan(fmt, s, DefaultFields).value
    ensures r.Some? ==> DefaultsOutside(fmt, r.value)
  {
    var fs := Scan(fmt, s, DefaultFields);
    if fs.Some? && ToDateTime(fs.value).Valid() then Some(ToDateTime(fs.value)) else None
  }

  /** `dt.strftime(fmt)`. */
  function Strftime(fmt: Format, dt: DateTime): (s: string)
    requires dt.Valid()
    ensures |s| == Length(fmt)
  {
    ValidIsPrintable(dt);
    Render(fmt, FieldsOf(dt))
  }

  /** Parsing a printed datetime gives it back, provided the fields the
      format leaves out are the ones parsing would assume. */
  lemma MatchStrftime(fmt: Format, dt: DateTime)
    requires dt.Valid() && DefaultsOutside(fmt, dt)
    ensures Match(fmt, Strftime(fmt, dt)) == Some(dt)
  {
    ValidIsPrintable(dt);
    ScanRender(fmt, FieldsOf(dt), DefaultFields);
    forall g ensures Get(Assign(fmt, FieldsOf(dt), DefaultFields), g) == Get(FieldsOf(dt), g) {
      AssignGet(fmt, FieldsOf(dt), DefaultFields, g);
    }
    FieldsEqual(Assign(fmt, FieldsOf(dt), DefaultFields), FieldsOf(dt));
  }

  /** Printing a parsed datetime gives back the parsed string, for a format
      that prints no field twice. */
  lemma StrftimeMatch(fmt: Format, s: string)
    requires NoRepeat(fmt) && Match(fmt, s).Some?
    ensures Strftime(fmt, Match(fmt, s).value) == s
  {
    ValidIsPrintable(Match(fmt, s).value);
    RenderScan(fmt, s, DefaultFields);
  }

  /** The first format in `formats` under which `parse` succeeds, tried in
      order; `None` when none does. Exceptions of the parser are its `None`. */
  function FirstMatch(formats: seq<Format>, parse: (Format, string) -> Option<DateTime>, s: string): (r: Option<DateTime>)
    ensures r.None? <==> forall i :: 0 <= i < |formats| ==> parse(formats[i], s).None?
    ensures r.Some? ==> exists i :: 0 <= i < |formats| && r == parse(formats[i], s)
                                  && forall j :: 0 <= j < i ==> parse(formats[j], s).None?
    decreases |formats|
  {
    if |formats| == 0 then None
    else if parse(formats[0], s).Some? then parse(formats[0], s)
    else
      var r := FirstMatch(formats[1..], parse, s);
      assert r.Some? ==> exists i :: 0 <= i < |formats| && r == parse(formats[i], s)
                                    && forall j :: 0 <= j < i ==> parse(formats[j], s).None? by {
        if r.Some? {
          var i :| 0 <= i < |formats| - 1 && r == parse(formats[1..][i], s)
                   && forall j :: 0 <= j < i ==> parse(formats[1..][j], s).None?;
          assert forall j :: 0 <= j < i + 1 ==> parse(formats[j], s).None? by {
            forall j | 0 <= j < i + 1 ensures parse(formats[j], s).None? {
              if j > 0 {
                assert formats[j] == formats[1..][j - 1];
              }
            }
          }
          assert formats[i + 1] == formats[1..][i];
        }
      }
      r
  }

  /** `convert_string_to_date(s)` for one string. */
  function ConvertString(s: string): (r: Option<DateTime>)
    ensures r.Some? ==> r.value.Valid()
    ensures r.None? <==> forall i :: 0 <= i < |DateFormats| ==> Match(DateFormats[i], s).None?
    ensures r.Some? ==> exists i :: 0 <= i < |DateFormats| && r == Match(DateFormats[i], s)
                                  && forall j :: 0 <= j < i ==> Match(DateFormats[j], s).None?
  {
    FirstMatch(DateFormats, Match, s)
  }

  /** `convert_string_to_date(ss)` for a list: element-wise, in order. */
  function ConvertStrings(ss: seq<string>): (r: seq<Option<DateTime>>)
    ensures |r| == |ss|
    ensures forall i :: 0 <= i < |ss| ==> r[i] == ConvertString(ss[i])
    decreases |ss|
  {
    if |ss| == 0 then [] else [ConvertString(ss[0])] + ConvertStrings(ss[1..])
  }

  lemma {:induction false} RenderAppend(a: Format, b: Format, fs: Fields)
    requires Printable(fs)
    ensures Render(a + b, fs) == Render(a, fs) + Render(b, fs)
    decreases |a|
  {
    if |a| > 0 {
      assert (a + b)[0] == a[0] && (a + b)[1..] == a[1..] + b;
      RenderAppend(a[1..], b, fs);
      calc {
        Render(a + b, fs);
        RenderToken(a[0], fs) + Render(a[1..] + b, fs);
        RenderToken(a[0], fs) + (Render(a[1..], fs) + Render(b, fs));
        (RenderToken(a[0], fs) + Render(a[1..], fs)) + Render(b, fs);
      }
    } else {
      assert a + b == b;
    }
  }

  /** `%Y-%m-%d` prints its three fields between dashes. */
  lemma RenderDatePart(fs: Fields)
    requires Printable(fs)
    ensures Render(DatePart, fs)
         == RenderToken(Num(Year), fs) + "-" + RenderToken(Num(Month), fs) + "-" + RenderToken(Num(Day), fs)
  {
    var p := DatePart;
    assert p[1..][1..][1..][1..][1..] == [];
    assert Render(p[1..][1..][1..][1..], fs) == RenderToken(Num(Day), fs);
  }

  /** `%H:%M:%S` prints its three fields between colons. */
  lemma RenderClockPart(fs: Fields)
    requires Printable(fs)
    ensures Render(ClockPart, fs)
         == RenderToken(Num(Hour), fs) + ":" + RenderToken(Num(Minute), fs) + ":" + RenderToken(Num(Second), fs)
  {
    var p := ClockPart;
    assert p[1..][1..][1..][1..][1..] == [];
    assert Render(p[1..][1..][1..][1..], fs) == RenderToken(Num(Second), fs);
  }

  /** `%H:%M:%S` prints the time of day only. */
  lemma ClockPartPrintsTime(x: Fields, y: Fields)
    requires Printable(x) && Printable(y)
    requires x.hour == y.hour && x.minute == y.minute && x.second == y.second
    ensures Render(ClockPart, x) == Render(ClockPart, y)
  {
    assert ClockPart[1..][1..][1..][1..][1..] == [];
  }

  lemma {:induction false} LengthAppend(a: Format, b: Format)
    ensures Length(a + b) == Length(a) + Length(b)
    decreases |a|
  {
    if |a| > 0 {
      assert (a + b)[0] == a[0] && (a + b)[1..] == a[1..] + b;
      LengthAppend(a[1..], b);
      assert Length(a + b) == TokenLength(a[0]) + Length(a[1..] + b);
    } else {
      assert a + b == b;
    }
  }

  /** `%Y-%m-%dT%H:%M:%S`: ten characters of date, a `T`, eight of time,
      and no directive twice. */
  lemma IsoFormatShape()
    ensures IsoFormat == DatePart + ([Lit('T')] + ClockPart)
    ensures Length(DatePart) == 10 && Length(IsoFormat) == 19
    ensures NoRepeat(IsoFormat)
  {
    IsoFormatLength();
    IsoFormatNoRepeat();
  }

  lemma IsoFormatLength()
    ensures IsoFormat == DatePart + ([Lit('T')] + ClockPart)
    ensures Length(DatePart) == 10 && Length(IsoFormat) == 19
  {
    assert Length(DatePart) == 10;
    assert Length(ClockPart) == 8;
    LengthAppend(DatePart, [Lit('T')] + ClockPart);
    LengthAppend([Lit('T')], ClockPart);
  }

  lemma IsoFormatNoRepeat()
    ensures NoRepeat(IsoFormat)
  {
    assert IsoFormat == [Num(Year), Lit('-'), Num(Month), Lit('-'), Num(Day), Lit('T'),
                         Num(Hour), Lit(':'), Num(Minute), Lit(':'), Num(Second)];
  }

  /** What printing `moved` in the `ajust_date` format gives, when `moved`
      has the time of day of the parsed `s`. */
  lemma AjustDatePrints(s: string, moved: DateTime)
    requires Match(IsoFormat, s).Some? && moved.Valid() && moved.time == Match(IsoFormat, s).value.time
    ensures Match(IsoFormat, Strftime(IsoFormat, moved)) == Some(moved)
    ensures |Strftime(IsoFormat, moved)| == 19 && Strftime(IsoFormat, moved)[10..] == s[10..]
  {
    var parsed := Match(IsoFormat, s).value;
    IsoFormatShape();
    MatchStrftime(IsoFormat, moved);
    StrftimeMatch(IsoFormat, s);
    ValidIsPrintable(parsed);
    ValidIsPrintable(moved);
    RenderAppend(DatePart, [Lit('T')] + ClockPart, FieldsOf(parsed));
    RenderAppend(DatePart, [Lit('T')] + ClockPart, FieldsOf(moved));
    ClockPartPrintsTime(FieldsOf(parsed), FieldsOf(moved));
  }

  /** `ajust_date(s, days)`: read `s` as `%Y-%m-%dT%H:%M:%S`, move it by
      `days` days, and print it in the same format. */
  function AjustDate(s: string, days: int): (r: Result<string>)
    ensures r == Err(NoMatch) <==> Match(IsoFormat, s).None?
    ensures Match(IsoFormat, s).Some? ==>
      (r.Ok? <==> 1 <= Ordinal(Match(IsoFormat, s).value.date) + days <= MaxOrdinal)
    ensures r.Err? ==> r.error in {NoMatch, DateOverflow}
    ensures r.Ok? ==> var before := Match(IsoFormat, s).value;
      && Match(IsoFormat, r.value).Some?
      && Ordinal(Match(IsoFormat, r.value).value.date) == Ordinal(before.date) + days
      && Match(IsoFormat, r.value).value.time == before.time
    ensures r.Ok? ==> |r.value| == 19 && r.value[10..] == s[10..]
  {
    var parsed := Match(IsoFormat, s);
    if parsed.None? then Err(NoMatch)
    else
      var moved := AddDays(parsed.value, days);
      if moved.Err? then Err(moved.error)
      else
        AjustDatePrints(s, moved.value);
        Ok(Strftime(IsoFormat, moved.value))
  }

  /** Moving a date string by `days` and back by `days` restores it. */
  lemma AjustDateRoundTrip(s: string, days: int)
    requires AjustDate(s, days).Ok?
    ensures AjustDate(AjustDate(s, days).value, -days) == Ok(s)
  {
    var parsed := Match(IsoFormat, s).value;
    var moved := AddDays(parsed, days).value;
    AjustDatePrints(s, moved);
    AddDaysInverse(parsed, days);
    IsoFormatShape();
    StrftimeMatch(IsoFormat, s);
  }
}
