/** Time bucket ids and their indices: round trips, order, and seconds against milliseconds. */
module TimeBuckets {
  import opened Common
  import opened Decimal
  import opened Calendar
  import opened Bucket

  /** The period an instant lies in, without going through any text. */
  function Period(unit: TimeUnit, t: int): int {
    match unit
    case Hour => t / 3600
    case Day => t / 86400
    case Month => MonthIndex(CivilDate(DayOf(t)))
  }

  /** Years whose ids Index can read back. */
  predicate Readable(unit: TimeUnit, t: int) {
    var y := CivilDate(DayOf(t)).year;
    0 <= y && (unit.Month? || y <= 9999)
  }

  // ---- dates as text ---------------------------------------------------------------

  lemma PadTwo(n: nat)
    requires n < 100
    ensures |Pad(n, 2)| == 2 && Value(Pad(n, 2)) == n
  {
    PrintLength(n, 2);
    assert Pow10(2) == 10 * Pow10(1) && Pow10(1) == 10 * Pow10(0);
    ValueOfPad(n, 2);
  }

  lemma YearWidth(y: int)
    ensures |FormatYear(y)| == 4 <==> 0 <= y <= 9999
    ensures |FormatYear(y)| >= 4
    ensures y >= 0 ==> AllDigits(FormatYear(y)) && Value(FormatYear(y)) == y
  {
    if y >= 0 {
      PrintLength(y, 4);
      assert Pow10(4) == 10 * Pow10(3) && Pow10(3) == 10 * Pow10(2);
      assert Pow10(2) == 10 * Pow10(1) && Pow10(1) == 10 * Pow10(0);
      ValueOfPad(y, 4);
    }
  }

  /** A date's text reads back as the same day, if its year has four digits. */
  lemma DateRoundTrip(d: Date)
    requires ValidDate(d)
    ensures ParseDate(FormatDate(d)) == if 0 <= d.year <= 9999 then Some(DayNumber(d)) else None
    ensures |FormatDate(d)| == |FormatYear(d.year)| + 6
  {
    var s := FormatDate(d);
    YearWidth(d.year);
    PadTwo(d.month);
    PadTwo(d.day);
    assert |s| == |FormatYear(d.year)| + 6;
    if 0 <= d.year <= 9999 {
      assert s[..4] == FormatYear(d.year);
      assert s[5..7] == Pad(d.month, 2);
      assert s[8..] == Pad(d.day, 2);
    }
  }

  lemma DateHourRoundTrip(d: Date, h: nat)
    requires ValidDate(d) && h < 24
    ensures ParseDateHour(FormatDate(d) + "T" + Pad(h, 2))
            == if 0 <= d.year <= 9999 then Some(DayNumber(d) * 86400 + h * 3600) else None
  {
    hide ParseDate, ParseDateHour, FormatDate, DayNumber;
    YearWidth(d.year);
    DateRoundTrip(d);
    PadTwo(h);
    hide Pad, Value, FormatYear;
    ParseDateAndHour(FormatDate(d), Pad(h, 2));
  }

  /** A date of ten characters and an hour of one or two digits below 24 read as a time; any other digits do not. */
  lemma HourTextReads(p: string, q: string)
    requires |p| == 10 && AllDigits(q)
    ensures Index(TimeAxis(Hour), p + "T" + q)
            == if 1 <= |q| <= 2 && Value(q) < 24 && ParseDate(p).Some?
               then Some(TruncDiv(ParseDate(p).value * 86400 + Value(q) * 3600, 3600)) else None
  {
    hide ParseDate, Value, TruncDiv;
    var s := p + "T" + q;
    assert s[..10] == p && s[11..] == q && s[10] == 'T';
  }

  /** A text of a date and two digits for the hour. */
  lemma ParseDateAndHour(p: string, q: string)
    requires |p| >= 10 && |q| == 2 && AllDigits(q) && Value(q) < 24
    ensures ParseDateHour(p + "T" + q)
            == if |p| == 10 && ParseDate(p).Some? then Some(ParseDate(p).value * 86400 + Value(q) * 3600) else None
  {
    hide ParseDate, Value;
    var s := p + "T" + q;
    if |p| == 10 {
      assert s[..10] == p && s[11..] == q;
    }
  }

  lemma {:induction false} SplitNoSeparator(s: string, sep: char)
    requires sep !in s
    ensures Split(s, sep) == [s]
  {
    if |s| > 0 {
      SplitNoSeparator(s[1..], sep);
      assert s == [s[0]] + s[1..];
    }
  }

  lemma {:induction false} SplitFirst(a: string, sep: char, b: string)
    requires sep !in a
    ensures Split(a + [sep] + b, sep) == [a] + Split(b, sep)
  {
    var s := a + [sep] + b;
    if |a| == 0 {
      assert s[1..] == b;
    } else {
      assert s[1..] == a[1..] + [sep] + b;
      SplitFirst(a[1..], sep, b);
      assert a == [a[0]] + a[1..];
    }
  }

  lemma MonthRoundTrip(y: nat, m: nat, w: int)
    requires m <= 12 && y * 12 + m - 1 <= MAX_INT64
    ensures ParseMonthIndex(Pad(y, w) + "-" + Pad(m, 2)) == Some(y * 12 + m - 1)
  {
    AtoiOfPad(y, w);
    AtoiOfPad(m, 2);
    MonthOfParts(Pad(y, w), Pad(m, 2), y, m);
  }

  lemma MonthOfParts(a: string, b: string, y: nat, m: nat)
    requires AllDigits(a) && AllDigits(b)
    requires AtoiIgnoringError(a) == y && AtoiIgnoringError(b) == m
    requires m <= 12 && y * 12 + m - 1 <= MAX_INT64
    ensures ParseMonthIndex(a + "-" + b) == Some(y * 12 + m - 1)
  {
    SplitPair(a, b);
  }

  lemma SplitPair(a: string, b: string)
    requires AllDigits(a) && AllDigits(b)
    ensures Split(a + "-" + b, '-') == [a, b]
  {
    DigitsHaveNoDash(a);
    DigitsHaveNoDash(b);
    SplitFirst(a, '-', b);
    SplitNoSeparator(b, '-');
  }

  lemma DigitsHaveNoDash(s: string)
    requires AllDigits(s)
    ensures '-' !in s
  {
  }

  lemma SplitAfterDash(a: string, b: string)
    requires |a| > 0 && a[0] == '-'
    ensures |Split(a + "-" + b, '-')| >= 3
  {
    var c := a[1..] + "-" + b;
    assert a + "-" + b == [] + ['-'] + c;
    SplitFirst([], '-', c);
    SplitCount(a[1..], b);
  }

  lemma {:induction false} SplitCount(a: string, b: string)
    ensures |Split(a + "-" + b, '-')| >= 2
  {
    var s := a + "-" + b;
    if |a| == 0 {
      assert s[1..] == b;
    } else {
      assert s[1..] == a[1..] + "-" + b;
      SplitCount(a[1..], b);
    }
  }

  // ---- the index of an instant's id ------------------------------------------------------

  lemma {:induction false} YearStartBound(y: int)
    requires y >= 1970
    ensures YearStart(y) >= 365 * (y - 1970)
  {
    if y > 1970 {
      YearStartBound(y - 1);
    }
  }

  lemma Int64YearBound(t: int)
    requires t <= MAX_INT64
    ensures CivilDate(DayOf(t)).year * 12 + 12 <= MAX_INT64
  {
    var d := CivilDate(DayOf(t));
    DayWithinYear(d);
    if d.year >= 1970 {
      YearStartBound(d.year);
    }
  }

  /**
   The index read from an instant's id is the period the instant lies in, before 1970 too;
   an id that Index cannot read is exactly one whose year the layout cannot hold.
   */
  lemma IndexOfTimeID(unit: TimeUnit, t: int)
    requires InInt64(t)
    ensures Index(TimeAxis(unit), TimeID(unit, t)) == if Readable(unit, t) then Some(Period(unit, t)) else None
  {
    var d := CivilDate(DayOf(t));
    hide CivilDate, Index, FormatDate, Pad, DayNumber;
    match unit
    case Hour =>
      HourArithmetic(t);
      IndexOfHour(d, HourOf(t));
    case Day =>
      IndexOfDay(d);
    case Month =>
      Int64YearBound(t);
      IndexOfMonth(d);
  }

  lemma IndexOfHour(d: Date, h: nat)
    requires ValidDate(d) && h < 24
    ensures Index(TimeAxis(Hour), FormatDate(d) + "T" + Pad(h, 2))
            == if 0 <= d.year <= 9999 then Some(TruncDiv(DayNumber(d) * 86400 + h * 3600, 3600)) else None
  {
    hide FormatDate, ParseDateHour, Pad;
    DateHourRoundTrip(d, h);
    HourIndexIsParse(FormatDate(d) + "T" + Pad(h, 2));
  }

  lemma HourIndexIsParse(s: string)
    ensures Index(TimeAxis(Hour), s)
            == if ParseDateHour(s).Some? then Some(TruncDiv(ParseDateHour(s).value, 3600)) else None
  {
  }

  lemma DayIndexIsParse(s: string)
    ensures Index(TimeAxis(Day), s) == ParseDate(s)
  {
  }

  lemma IndexOfDay(d: Date)
    requires ValidDate(d)
    ensures Index(TimeAxis(Day), FormatDate(d)) == if 0 <= d.year <= 9999 then Some(DayNumber(d)) else None
  {
    DateRoundTrip(d);
    DayIndexIsParse(FormatDate(d));
  }

  lemma IndexOfMonth(d: Date)
    requires ValidDate(d) && MonthIndex(d) <= MAX_INT64
    ensures Index(TimeAxis(Month), FormatYearMonth(d)) == if d.year >= 0 then Some(MonthIndex(d)) else None
  {
    if d.year >= 0 {
      MonthRoundTrip(d.year, d.month, 4);
    } else {
      SplitAfterDash(FormatYear(d.year), Pad(d.month, 2));
    }
  }

  lemma HourArithmetic(t: int)
    ensures TruncDiv(DayOf(t) * 86400 + HourOf(t) * 3600, 3600) == t / 3600
    ensures 0 <= HourOf(t) < 24
  {
  }

  /** Later instants never lie in earlier periods. */
  lemma PeriodMonotone(unit: TimeUnit, s: int, t: int)
    requires s <= t
    ensures Period(unit, s) <= Period(unit, t)
  {
    if unit.Month? {
      MonthIndexMonotone(DayOf(s), DayOf(t));
    }
  }

  /** The last second of an hour, of a day, or of the last day of a month. */
  predicate LastSecond(unit: TimeUnit, t: int) {
    match unit
    case Hour => (t + 1) % 3600 == 0
    case Day => (t + 1) % 86400 == 0
    case Month =>
      var d := CivilDate(DayOf(t));
      (t + 1) % 86400 == 0 && d.day == MonthLength(d.year, d.month)
  }

  lemma NextSecond(t: int)
    ensures (t + 1) / 3600 == t / 3600 + (if (t + 1) % 3600 == 0 then 1 else 0)
    ensures (t + 1) / 86400 == t / 86400 + (if (t + 1) % 86400 == 0 then 1 else 0)
  {
  }

  /** The index goes up by one exactly after the last second of a period. */
  lemma PeriodNextSecond(unit: TimeUnit, t: int)
    ensures Period(unit, t + 1) == Period(unit, t) + (if LastSecond(unit, t) then 1 else 0)
  {
    hide CivilDate, MonthLength, MonthIndex;
    NextSecond(t);
    MonthIndexNextDay(DayOf(t));
  }

  // ---- from an index to an id and back -----------------------------------------------------

  /** The instant a time bucket starts at. */
  function PeriodStart(unit: TimeUnit, index: int): int {
    match unit
    case Hour => index * 3600
    case Day => index * 86400
    case Month => DayNumber(Date(index / 12, index % 12 + 1, 1)) * 86400
  }

  lemma Midnight(n: int)
    ensures DayOf(n * 86400) == n && HourOf(n * 86400) == 0
  {
  }

  lemma MonthOfFirst(d: Date)
    requires ValidDate(d)
    ensures Period(Month, DayNumber(d) * 86400) == MonthIndex(d)
  {
    Midnight(DayNumber(d));
    CivilDateInverse(d);
  }

  lemma PeriodOfStart(unit: TimeUnit, index: int)
    ensures Period(unit, PeriodStart(unit, index)) == index
  {
    if unit.Month? {
      MonthOfFirst(Date(index / 12, index % 12 + 1, 1));
    }
  }

  /** Whether Index reads IDFromIndex(index) back as `index`; a caller can decide it from the index alone. */
  predicate IndexRoundTrips(unit: TimeUnit, index: int) {
    match unit
    case Month => index >= -1
    case _ => InInt64(PeriodStart(unit, index)) && Readable(unit, PeriodStart(unit, index))
  }

  /** Hours and days come back exactly while int64 and the layout hold them; months exactly from -1 on. */
  lemma IndexOfIDFromIndex(unit: TimeUnit, index: int)
    requires InInt64(index)
    ensures Index(TimeAxis(unit), IDFromIndex(TimeAxis(unit), index).value) == Some(index)
            <==> IndexRoundTrips(unit, index)
  {
    match unit
    case Hour =>
      IndexOfTimeID(unit, Wrap64(index * 3600));
      WrapIsVisible(index, 3600);
    case Day =>
      IndexOfTimeID(unit, Wrap64(index * 86400));
      WrapIsVisible(index, 86400);
    case Month => MonthIndexRoundTrip(index);
  }

  lemma WrapIsVisible(index: int, seconds: int)
    requires seconds == 3600 || seconds == 86400
    ensures Wrap64(index * seconds) / seconds == index <==> InInt64(index * seconds)
  {
  }

  lemma MonthIndexRoundTrip(index: int)
    requires InInt64(index)
    ensures ParseMonthIndex(IDFromIndex(TimeAxis(Month), index).value) == Some(index) <==> index >= -1
  {
    hide ParseMonthIndex, PadInt;
    MonthArithmetic(index);
    MonthTextRoundTrip(TruncDiv(index, 12), TruncMod(index, 12) + 1);
  }

  lemma MonthArithmetic(index: int)
    ensures var y, m := TruncDiv(index, 12), TruncMod(index, 12) + 1;
            y * 12 + m - 1 == index && m <= 12 && (y >= 0 && m >= 0 <==> index >= -1)
  {
  }

  lemma MonthTextRoundTrip(y: int, m: int)
    requires m <= 12 && y * 12 + m - 1 <= MAX_INT64
    ensures ParseMonthIndex(PadInt(y, 4) + "-" + PadInt(m, 2))
            == if y >= 0 && m >= 0 then Some(y * 12 + m - 1) else None
  {
    if y < 0 {
      SplitAfterDash(PadInt(y, 4), PadInt(m, 2));
    } else if m < 0 {
      SplitSignedMonth(PadInt(y, 4), Pad(-m, 1));
    } else {
      MonthRoundTrip(y, m, 4);
    }
  }

  lemma SplitSignedMonth(a: string, b: string)
    requires AllDigits(a) && AllDigits(b)
    ensures |Split(a + "-" + ("-" + b), '-')| == 3
  {
    DigitsHaveNoDash(a);
    DigitsHaveNoDash(b);
    SplitFirst(a, '-', "-" + b);
    assert "-" + b == [] + ['-'] + b;
    SplitFirst([], '-', b);
    SplitNoSeparator(b, '-');
  }

  /** The id of an instant is the id its index prints to: one name per period. */
  lemma TimeIDIsCanonical(unit: TimeUnit, t: int)
    requires InInt64(t) && Readable(unit, t)
    ensures IDFromIndex(TimeAxis(unit), Period(unit, t)) == Some(TimeID(unit, t))
  {
    match unit
    case Hour =>
      YearZeroBound(t);
      HourStart(t);
    case Day =>
      YearZeroBound(t);
      Midnight(DayOf(t));
    case Month => MonthIdIsCanonical(CivilDate(DayOf(t)));
  }

  /** Instants of year 0 and later are far above the int64 minimum. */
  lemma YearZeroBound(t: int)
    requires CivilDate(DayOf(t)).year >= 0
    ensures t >= -100_000_000_000
  {
    var y := CivilDate(DayOf(t)).year;
    DayWithinYear(CivilDate(DayOf(t)));
    YearStartClosedForm(y);
  }

  lemma HourStart(t: int)
    ensures DayOf(t / 3600 * 3600) == DayOf(t) && HourOf(t / 3600 * 3600) == HourOf(t)
  {
  }

  lemma MonthIdIsCanonical(d: Date)
    requires ValidDate(d) && d.year >= 0
    ensures IDFromIndex(TimeAxis(Month), MonthIndex(d)) == Some(FormatYearMonth(d))
  {
    assert TruncDiv(MonthIndex(d), 12) == d.year && TruncMod(MonthIndex(d), 12) + 1 == d.month;
  }

  // ---- seconds and milliseconds -----------------------------------------------------------

  /**
   A number of seconds and the same instant in milliseconds get one bucket, in every unit and however the two numbers
   are written, as long as the RFC 3339 parser refuses bare numbers.
   */
  lemma SecondsAndMillisecondsAgree(lib: Lib, unit: TimeUnit, s: int, r: int, a: Key, b: Key)
    requires s <= SECONDS_THRESHOLD < 1000 * s + r && 0 <= r < 1000 && InInt64(1000 * s + r)
    requires Spells(a, s) && Spells(b, 1000 * s + r)
    requires lib.parseRfc3339(PrintInt(s)).None? && lib.parseRfc3339(PrintInt(1000 * s + r)).None?
    ensures ParseTimeKey(lib, a) == ParseTimeKey(lib, b) == Some(s)
    ensures ID(lib, TimeAxis(unit), a) == ID(lib, TimeAxis(unit), b)
  {
    hide ID, ParseTimeKey, Spells, PrintInt;
    MillisToSeconds(s, r);
    NumberReadsAsTime(lib, a, s);
    NumberReadsAsTime(lib, b, 1000 * s + r);
    SameInstantSameId(lib, unit, a, b);
  }

  lemma MillisToSeconds(s: int, r: int)
    requires 0 <= r < 1000
    ensures (1000 * s + r) / 1000 == s
  {
  }

  /** A number reads as seconds up to 32 536 800 000 and as milliseconds beyond, however it is written. */
  lemma NumberReadsAsTime(lib: Lib, key: Key, n: int)
    requires InInt64(n) && Spells(key, n) && lib.parseRfc3339(PrintInt(n)).None?
    ensures ParseTimeKey(lib, key) == Some(if n > 32_536_800_000 then n / 1000 else n)
  {
    hide Value, Print;
    ParseOfPrint(n);
    NumbersAreNoDates(PrintInt(n));
    hide ParseInt64;
  }

  lemma NumbersAreNoDates(s: string)
    requires AllDigits(s) || (|s| > 0 && s[0] == '-')
    ensures ParseDate(s).None? && ParseYearMonth(s).None?
  {
    if |s| > 4 {
      assert (s + "-01")[4] == s[4] && (s + "-01")[..4] == s[..4];
      assert AllDigits(s) ==> IsDigit(s[4]);
      assert s[..4][0] == s[0];
    }
  }

  /** Text keys: RFC 3339 first, then a date as its first second, then a month as the first second of its first day. */
  lemma TextReadsAsTime(lib: Lib, s: string, d: Date)
    ensures lib.parseRfc3339(s).Some? ==> ParseTimeKey(lib, Text(s)) == lib.parseRfc3339(s)
    ensures lib.parseRfc3339(s).None? && ValidDate(d) && 0 <= d.year <= 9999 && s == FormatDate(d) ==>
              ParseTimeKey(lib, Text(s)) == Some(DayNumber(d) * 86400)
    ensures lib.parseRfc3339(s).None? && ValidDate(d) && 0 <= d.year <= 9999 && d.day == 1
            && s == FormatYearMonth(d) ==>
              ParseTimeKey(lib, Text(s)) == Some(DayNumber(d) * 86400)
  {
    hide DayNumber, MonthLength;
    if ValidDate(d) {
      DateRoundTrip(d);
      if 0 <= d.year <= 9999 && d.day == 1 {
        MonthTextIsDate(d);
      }
    }
    hide ParseDate, FormatDate, FormatYear;
  }

  lemma MonthTextIsDate(d: Date)
    requires ValidDate(d) && 0 <= d.year <= 9999 && d.day == 1
    ensures |FormatYearMonth(d)| == 7 && FormatYearMonth(d) + "-01" == FormatDate(d)
    ensures ParseDate(FormatYearMonth(d)).None?
  {
    YearWidth(d.year);
    PadTwo(d.month);
    PadTwo(1);
    assert Pad(1, 2) == "01";
  }

  /** Keys of other types, and texts that are none of these, are no time. */
  lemma NoTimeKey(lib: Lib, key: Key)
    requires key.JsonNumber? || key.Unsupported?
             || (key.Text? && lib.parseRfc3339(key.text).None? && ParseDate(key.text).None?
                 && ParseYearMonth(key.text).None? && ParseInt64(key.text).None?)
    ensures ParseTimeKey(lib, key) == None
  {
  }

  /** Day and month ids are keys of their own bucket. */
  lemma IdIsItsOwnKey(lib: Lib, unit: TimeUnit, t: int)
    requires unit.Day? || unit.Month?
    requires Readable(Day, t) && lib.parseRfc3339(TimeID(unit, t)).None?
    ensures ID(lib, TimeAxis(unit), Text(TimeID(unit, t))) == Some(TimeID(unit, t))
  {
    hide ParseDate, FormatDate, FormatYearMonth, FormatYear, DayNumber, MonthLength;
    var d := CivilDate(DayOf(t));
    if unit.Day? {
      TextReadsAsTime(lib, TimeID(Day, t), d);
      Midnight(DayOf(t));
    } else {
      var first := d.(day := 1);
      SameMonthText(d, first);
      TextReadsAsTime(lib, TimeID(Month, t), first);
      Midnight(DayNumber(first));
      CivilDateInverse(first);
    }
    hide ParseTimeKey, CivilDate;
  }

  lemma SameMonthText(d: Date, e: Date)
    requires ValidDate(d) && ValidDate(e) && d.year == e.year && d.month == e.month
    ensures FormatYearMonth(d) == FormatYearMonth(e)
  {
  }

  lemma SameInstantSameId(lib: Lib, unit: TimeUnit, a: Key, b: Key)
    requires ParseTimeKey(lib, a) == ParseTimeKey(lib, b)
    ensures ID(lib, TimeAxis(unit), a) == ID(lib, TimeAxis(unit), b)
  {
  }

  /** A key that reads as the instant `t`. */
  function KeyFor(t: int): Key {
    Int64(if t <= SECONDS_THRESHOLD then t else 1000 * t)
  }

  lemma KeyForReads(lib: Lib, t: int)
    ensures ParseTimeKey(lib, KeyFor(t)) == Some(t)
  {
  }
}
