/** Approximate dates: an interval [earliest, latest] of calendar days, its canonical
    text form (`approx_date_to_iso`) and the reading of that text (`approx_date_getter`). */
module ApproxDates {
  import opened Wrappers
  import opened Text

  /** A proleptic Gregorian calendar day, as Python's `datetime.date`. */
  datatype Date = Date(year: int, month: int, day: int)

  predicate IsLeapYear(y: int) {
    y % 4 == 0 && (y % 100 != 0 || y % 400 == 0)
  }

  /** `calendar.monthrange(y, m)[1]`. */
  function DaysInMonth(y: int, m: int): (n: int)
    requires 1 <= m <= 12
    ensures 28 <= n <= 31
    ensures n == 29 <==> m == 2 && IsLeapYear(y)
  {
    if m == 2 then (if IsLeapYear(y) then 29 else 28)
    else if m == 4 || m == 6 || m == 9 || m == 11 then 30
    else 31
  }

  /** The days `datetime.date` can represent: years 1 to 9999. */
  predicate ValidDate(d: Date) {
    1 <= d.year <= 9999 && 1 <= d.month <= 12 && 1 <= d.day <= DaysInMonth(d.year, d.month)
  }

  /** Chronological order of days. */
  predicate DateLe(a: Date, b: Date) {
    a.year < b.year || (a.year == b.year && (a.month < b.month || (a.month == b.month && a.day <= b.day)))
  }

  const MinDate := Date(1, 1, 1)
  const MaxDate := Date(9999, 12, 31)

  /** An approximate date: the interval of days it may denote. */
  datatype ApproxDate = ApproxDate(earliest: Date, latest: Date)

  /** Both ends are real days and the interval is not inverted. */
  predicate Valid(a: ApproxDate) {
    ValidDate(a.earliest) && ValidDate(a.latest) && DateLe(a.earliest, a.latest)
  }

  /** The open lower bound used when a start date is unknown. */
  const PAST := ApproxDate(MinDate, MinDate)
  /** The open upper bound used when an end date is unknown. */
  const FUTURE := ApproxDate(MaxDate, MaxDate)

  lemma SentinelsBoundEveryDate(d: Date)
    requires ValidDate(d)
    ensures Valid(PAST) && Valid(FUTURE)
    ensures DateLe(PAST.latest, d) && DateLe(d, FUTURE.earliest)
  {
  }

  const Separator := " to "

  /** `date.isoformat()`: `YYYY-MM-DD`, zero padded. */
  function Iso(d: Date): (s: string)
    requires ValidDate(d)
    ensures |s| == 10 && ' ' !in s
  {
    Digits(d.year, 4) + "-" + Digits(d.month, 2) + "-" + Digits(d.day, 2)
  }

  /** `date.strftime("%Y-%m")`; the year is written as `str(year)` (no padding below 1000). */
  function MonthText(d: Date): (s: string)
    requires ValidDate(d)
    ensures ' ' !in s
  {
    Decimal(d.year) + "-" + Digits(d.month, 2)
  }

  /** `"{0}".format(year)`. */
  function YearText(y: nat): (s: string)
    ensures ' ' !in s
  {
    Decimal(y)
  }

  predicate IsWholeMonth(a: ApproxDate)
    requires Valid(a)
  {
    var e, l := a.earliest, a.latest;
    e.month == l.month && e.year == l.year && e.day == 1 && l.day == DaysInMonth(e.year, e.month)
  }

  predicate IsWholeYear(a: ApproxDate) {
    var e, l := a.earliest, a.latest;
    e.year == l.year && e.month == 1 && e.day == 1 && l.month == 12 && l.day == 31
  }

  /** The interval has one of the three one-part shapes: a day, a whole month, a whole year. */
  predicate IsOnePart(a: ApproxDate)
    requires Valid(a)
  {
    a.earliest == a.latest || IsWholeMonth(a) || IsWholeYear(a)
  }

  /** `approx_date_to_iso`: the canonical text of an approximate date. The single-day test
      runs first, then the whole-month test, then the whole-year test. */
  function Format(a: ApproxDate): (s: string)
    requires Valid(a)
    ensures ' ' in s <==> !IsOnePart(a)
  {
    if a.earliest == a.latest then Iso(a.earliest)
    else if IsWholeMonth(a) then MonthText(a.earliest)
    else if IsWholeYear(a) then YearText(a.earliest.year)
    else
      var s := Iso(a.earliest) + Separator + Iso(a.latest);
      assert s[10] == ' ';
      s
  }

  /** The four shapes of the canonical text. The month test precedes the year test, and a
      whole year is never mistaken for a day or a month. */
  lemma FormatShape(a: ApproxDate)
    requires Valid(a)
    ensures a.earliest == a.latest ==> Format(a) == Iso(a.earliest)
    ensures a.earliest != a.latest && IsWholeMonth(a) ==> Format(a) == MonthText(a.earliest)
    ensures IsWholeYear(a) ==> Format(a) == YearText(a.earliest.year)
    ensures !IsOnePart(a) ==> Format(a) == Iso(a.earliest) + " to " + Iso(a.latest)
  {
  }

  /** The text holds the range separator exactly when the interval is not one-part. */
  lemma FormatSeparatorIff(a: ApproxDate)
    requires Valid(a)
    ensures Contains(Format(a), Separator) <==> !IsOnePart(a)
  {
    if IsOnePart(a) {
      NotContainsWithoutHead(Format(a), Separator);
    } else {
      NotContainsWithoutHead(Iso(a.latest), Separator);
      SplitJoined(Iso(a.earliest), Separator, Iso(a.latest));
    }
  }

  datatype DateError =
    | Malformed(text: string)     // not a date in a recognised shape
    | TooManyParts(text: string)  // more than one " to " (unpacking `split` fails)
    | Inverted(text: string)       // a range whose end lies before its start
    | NotText                     // the stored value is not a string

  /** `ApproxDate.from_iso8601` on the three one-part shapes: `YYYY` is the whole year,
      `YYYY-MM` the whole month and `YYYY-MM-DD` the single day. */
  function FromIso8601(s: string): (r: Result<ApproxDate, DateError>)
    ensures r.Success? ==> Valid(r.value) && DateLe(r.value.earliest, r.value.latest)
  {
    Pow10Values();
    if |s| == 4 && AllDigits(s) then
      var y := Num(s);
      if 1 <= y then Success(ApproxDate(Date(y, 1, 1), Date(y, 12, 31))) else Failure(Malformed(s))
    else if |s| == 7 && AllDigits(s[..4]) && s[4] == '-' && AllDigits(s[5..]) then
      var y, m := Num(s[..4]), Num(s[5..]);
      if 1 <= y && 1 <= m <= 12 then Success(ApproxDate(Date(y, m, 1), Date(y, m, DaysInMonth(y, m))))
      else Failure(Malformed(s))
    else if |s| == 10 && AllDigits(s[..4]) && s[4] == '-' && AllDigits(s[5..7]) && s[7] == '-' && AllDigits(s[8..]) then
      var y, m, d := Num(s[..4]), Num(s[5..7]), Num(s[8..]);
      if 1 <= y && 1 <= m <= 12 && 1 <= d <= DaysInMonth(y, m) then Success(ApproxDate(Date(y, m, d), Date(y, m, d)))
      else Failure(Malformed(s))
    else Failure(Malformed(s))
  }

  /** `approx_date_getter`: text holding " to " is split there; the interval runs from the
      earliest day of the left half to the latest day of the right half. */
  function ApproxDateGetter(s: string): (r: Result<ApproxDate, DateError>)
    ensures r.Success? ==> Valid(r.value)
    ensures !Contains(s, Separator) ==> r == FromIso8601(s)
  {
    var parts := Split(s, Separator);
    if |parts| == 1 then FromIso8601(s)
    else if |parts| == 2 then
      var start :- FromIso8601(parts[0]);
      var end :- FromIso8601(parts[1]);
      if DateLe(start.earliest, end.latest) then Success(ApproxDate(start.earliest, end.latest))
      else Failure(Inverted(s))
    else Failure(TooManyParts(s))
  }

  /** A range whose halves hold no space reads as the earliest day of the left half to the
      latest day of the right half, whatever the precision of each half. */
  lemma GetterOfRange(x: string, y: string)
    requires ' ' !in x && ' ' !in y
    requires FromIso8601(x).Success? && FromIso8601(y).Success?
    ensures var e, l := FromIso8601(x).value.earliest, FromIso8601(y).value.latest;
      ApproxDateGetter(x + Separator + y)
        == if DateLe(e, l) then Success(ApproxDate(e, l)) else Failure(Inverted(x + Separator + y))
  {
    NotContainsWithoutHead(y, Separator);
    SplitJoined(x, Separator, y);
  }

  /** The year shape read on its own: "1964" is 1964-01-01 to 1964-12-31. */
  lemma ParsesYear(ys: string, y: nat)
    requires 1 <= y < 10000 && ys == Digits(y, 4)
    ensures FromIso8601(ys) == Success(ApproxDate(Date(y, 1, 1), Date(y, 12, 31)))
  {
    Pow10Values();
    NumOfDigits(y, 4);
  }

  /** The month shape read on its own. */
  lemma ParsesMonth(ms: string, y: nat, m: nat)
    requires 1 <= y < 10000 && 1 <= m <= 12 && ms == Digits(y, 4) + "-" + Digits(m, 2)
    ensures FromIso8601(ms) == Success(ApproxDate(Date(y, m, 1), Date(y, m, DaysInMonth(y, m))))
  {
    Pow10Values();
    NumOfDigits(y, 4);
    NumOfDigits(m, 2);
    assert ms[..4] == Digits(y, 4) && ms[5..] == Digits(m, 2);
  }

  /** The parse shapes of the creation tests: "1964" is 1964-01-01 to 1964-12-31 and
      "1964-06" is 1964-06-01 to 1964-06-30. */
  lemma ParsesTestShapes()
    ensures FromIso8601("1964") == Success(ApproxDate(Date(1964, 1, 1), Date(1964, 12, 31)))
    ensures FromIso8601("1964-06") == Success(ApproxDate(Date(1964, 6, 1), Date(1964, 6, 30)))
  {
    assert Digits(1964, 4) == "1964";
    assert Digits(6, 2) == "06";
    ParsesYear("1964", 1964);
    ParsesMonth("1964-06", 1964, 6);
  }

  /** A year to a month of the next year: "1963 to 1964-06" runs from 1963-01-01 to
      1964-06-30. */
  lemma YearToMonth(x: string, y: string)
    requires x == "1963" && y == "1964-06"
    ensures ApproxDateGetter(x + Separator + y) == Success(ApproxDate(Date(1963, 1, 1), Date(1964, 6, 30)))
  {
    assert Digits(1963, 4) == x;
    ParsesYear(x, 1963);
    ParsesTestShapes();
    assert ' ' !in x && ' ' !in y;
    GetterOfRange(x, y);
  }

  lemma IsoParts(d: Date)
    requires ValidDate(d)
    ensures var s := Iso(d);
      s[..4] == Digits(d.year, 4) && s[4] == '-' && s[5..7] == Digits(d.month, 2)
      && s[7] == '-' && s[8..] == Digits(d.day, 2)
  {
  }

  /** A single ISO day reads back as that day. */
  lemma ReadIso(d: Date)
    requires ValidDate(d)
    ensures FromIso8601(Iso(d)) == Success(ApproxDate(d, d))
    ensures ApproxDateGetter(Iso(d)) == Success(ApproxDate(d, d))
  {
    Pow10Values();
    IsoParts(d);
    NumOfDigits(d.year, 4);
    NumOfDigits(d.month, 2);
    NumOfDigits(d.day, 2);
    NotContainsWithoutHead(Iso(d), Separator);
  }

  /** Round trip: reading the canonical text gives back the interval. Years below 1000 are
      written without padding in the month and year shapes, which a four-digit reader
      rejects, so those two shapes are covered from year 1000 on. */
  lemma {:induction false} GetterOfFormat(a: ApproxDate)
    requires Valid(a)
    requires a.earliest == a.latest || !(IsWholeMonth(a) || IsWholeYear(a)) || a.earliest.year >= 1000
    ensures ApproxDateGetter(Format(a)) == Success(a)
  {
    var e, l := a.earliest, a.latest;
    Pow10Values();
    if e == l {
      ReadIso(e);
    } else if IsWholeMonth(a) || IsWholeYear(a) {
      DecimalIsDigits(e.year, 4);
      NumOfDigits(e.year, 4);
      var s := Format(a);
      NotContainsWithoutHead(s, Separator);
      if IsWholeMonth(a) {
        NumOfDigits(e.month, 2);
        assert s[..4] == Digits(e.year, 4) && s[5..] == Digits(e.month, 2);
      } else {
        assert s == Digits(e.year, 4);
      }
    } else {
      var s := Format(a);
      NotContainsWithoutHead(Iso(l), Separator);
      SplitJoined(Iso(e), Separator, Iso(l));
      ReadIso(e);
      ReadIso(l);
    }
  }

  /** Round trip the other way: a one-part text whose year has no leading zero is already
      canonical (full dates are always canonical, as `isoformat` pads). */
  lemma FormatOfFromIso8601(s: string)
    requires FromIso8601(s).Success?
    requires |s| == 10 || s[0] != '0'
    ensures Format(FromIso8601(s).value) == s
  {
    if |s| == 4 {
      FormatOfYearText(s);
    } else if |s| == 7 {
      FormatOfMonthText(s);
    } else {
      FormatOfDayText(s);
    }
  }

  lemma FourDigitYear(ys: string)
    requires |ys| == 4 && AllDigits(ys) && ys[0] != '0'
    ensures Decimal(Num(ys)) == ys
  {
    Pow10Values();
    DigitsOfNum(ys);
    NumLeadingDigit(ys);
    DecimalIsDigits(Num(ys), 4);
  }

  lemma FormatOfYearText(s: string)
    requires |s| == 4 && FromIso8601(s).Success? && s[0] != '0'
    ensures Format(FromIso8601(s).value) == s
  {
    FourDigitYear(s);
  }

  lemma FormatOfMonthText(s: string)
    requires |s| == 7 && FromIso8601(s).Success? && s[0] != '0'
    ensures Format(FromIso8601(s).value) == s
  {
    var ys, ms := s[..4], s[5..];
    assert ys[0] == s[0];
    FourDigitYear(ys);
    DigitsOfNum(ms);
    assert s == ys + "-" + ms;
  }

  lemma FormatOfDayText(s: string)
    requires |s| == 10 && FromIso8601(s).Success?
    ensures Format(FromIso8601(s).value) == s
  {
    var ys, ms, ds := s[..4], s[5..7], s[8..];
    DigitsOfNum(ys);
    DigitsOfNum(ms);
    DigitsOfNum(ds);
    assert s == ys + "-" + ms + "-" + ds;
  }

  /** The part of an ISO text after the year: `-MM-DD`. */
  function IsoTail(d: Date): string
    requires ValidDate(d)
  {
    ['-'] + (Digits(d.month, 2) + (['-'] + Digits(d.day, 2)))
  }

  lemma IsoShape(d: Date)
    requires ValidDate(d)
    ensures Iso(d) == Digits(d.year, 4) + IsoTail(d)
  {
  }

  lemma IsoTailOrder(a: Date, b: Date)
    requires ValidDate(a) && ValidDate(b)
    ensures StrLe(IsoTail(a), IsoTail(b)) <==> a.month < b.month || (a.month == b.month && a.day <= b.day)
  {
    Pow10Values();
    var da, db := ['-'] + Digits(a.day, 2), ['-'] + Digits(b.day, 2);
    StrLeCons('-', '-', Digits(a.month, 2) + da, Digits(b.month, 2) + db);
    StrLeDigits(a.month, b.month, 2, da, db);
    StrLeCons('-', '-', Digits(a.day, 2), Digits(b.day, 2));
    assert Digits(a.day, 2) + [] == Digits(a.day, 2);
    assert Digits(b.day, 2) + [] == Digits(b.day, 2);
    StrLeDigits(a.day, b.day, 2, [], []);
  }

  /** Comparing ISO texts as strings, as the source does, agrees with comparing the days. */
  lemma IsoOrder(a: Date, b: Date)
    requires ValidDate(a) && ValidDate(b)
    ensures StrLe(Iso(a), Iso(b)) <==> DateLe(a, b)
  {
    Pow10Values();
    IsoShape(a);
    IsoShape(b);
    StrLeDigits(a.year, b.year, 4, IsoTail(a), IsoTail(b));
    IsoTailOrder(a, b);
  }
}
