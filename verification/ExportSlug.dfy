/** The export's filename slug: YYYY-MM-DD-HHMM in UTC from epoch milliseconds. */
module ExportSlug {
  import opened Calendar
  import opened Numerals

  const U64_END: int := 0x1_0000_0000_0000_0000

  predicate FitsI64(x: int) {
    -0x8000_0000_0000_0000 <= x < 0x8000_0000_0000_0000
  }

  // ----- text order -----

  /** Byte order of file names. */
  predicate Before(s: string, t: string) {
    t != "" && (s == "" || s[0] < t[0] || (s[0] == t[0] && Before(s[1..], t[1..])))
  }

  lemma {:induction false} BeforeConcat(a: string, b: string, x: string, y: string)
    requires |a| == |b|
    ensures Before(a + x, b + y) <==> Before(a, b) || (a == b && Before(x, y))
    ensures a + x == b + y <==> a == b && x == y
    decreases |a|
  {
    if a == "" {
      assert a + x == x && b + y == y;
    } else {
      assert (a + x)[1..] == a[1..] + x && (b + y)[1..] == b[1..] + y;
      assert a == [a[0]] + a[1..] && b == [b[0]] + b[1..];
      BeforeConcat(a[1..], b[1..], x, y);
      if a + x == b + y { assert (a + x)[..|a|] == a && (b + y)[..|a|] == b && (a + x)[|a|..] == x; }
    }
  }

  lemma {:induction false} NumeralOrder(s: string, t: string)
    requires |s| == |t| && IsNumeral(s) && IsNumeral(t)
    ensures Before(s, t) <==> Value(s) < Value(t)
    ensures s == t <==> Value(s) == Value(t)
    decreases |s|
  {
    if s != "" {
      NumeralOrder(s[1..], t[1..]);
      ValueBound(s[1..]);
      ValueBound(t[1..]);
      assert s == [s[0]] + s[1..] && t == [t[0]] + t[1..];
      var p := Pow10(|s| - 1);
      LeadingDigit(DigitOf(s[0]), DigitOf(t[0]), p, Value(s[1..]), Value(t[1..]));
      LeadingDigit(DigitOf(t[0]), DigitOf(s[0]), p, Value(t[1..]), Value(s[1..]));
    }
  }

  // ----- the slug -----

  datatype Stamp = Stamp(date: Date, hour: int, minute: int)

  function StampOf(ms: nat): Stamp {
    var secs := ms / 1000;
    var rem := secs % 86_400;
    Stamp(CivilFromDays(secs / 86_400), rem / 3600, (rem % 3600) / 60)
  }

  predicate IsStamp(t: Stamp) {
    IsDate(t.date) && t.date.year >= 0 && 0 <= t.hour < 24 && 0 <= t.minute < 60
  }

  function Tail(t: Stamp): string
    requires IsStamp(t)
  {
    "-" + (Pad(t.date.month, 2) + ("-" + (Pad(t.date.day, 2) + ("-" + (Pad(t.hour, 2) + Pad(t.minute, 2))))))
  }

  function Slug(t: Stamp): string
    requires IsStamp(t)
  {
    Pad(t.date.year, 4) + Tail(t)
  }

  predicate DateBefore(a: Date, b: Date) {
    a.year < b.year || (a.year == b.year && (a.month < b.month || (a.month == b.month && a.day < b.day)))
  }

  predicate ClockBefore(a: Stamp, b: Stamp) {
    a.hour < b.hour || (a.hour == b.hour && a.minute < b.minute)
  }

  lemma {:induction false} CountingGrows(n: nat, m: nat)
    requires n < m
    ensures DateBefore(DayAfterEpoch(n), DayAfterEpoch(m))
    decreases m - n
  {
    CountingDate(m - 1);
    if n < m - 1 { CountingGrows(n, m - 1); }
  }

  lemma CountingDate(n: nat)
    ensures IsDate(DayAfterEpoch(n))
  {
    CivilIsCounting(n);
  }

  lemma {:induction false} CountingYear(n: nat)
    ensures DayAfterEpoch(n).year >= 1970
  {
    if n > 0 { CountingYear(n - 1); }
  }

  /** The stamp is the minute this instant falls in, on the day counting reaches. */
  ghost predicate Marks(ms: nat, t: Stamp) {
    && IsStamp(t)
    && t.date == DayAfterEpoch(ms / 86_400_000)
    && ms / 60_000 == ms / 86_400_000 * 1440 + t.hour * 60 + t.minute
  }

  lemma StampMarks(ms: nat)
    ensures Marks(ms, StampOf(ms))
  {
    var secs := ms / 1000;
    var days := secs / 86_400;
    assert days == ms / 86_400_000;
    MinuteOfDay(ms);
    CivilIsCounting(days);
    CountingYear(days);
  }

  lemma MinuteOfDay(ms: nat)
    ensures var rem := ms / 1000 % 86_400;
      ms / 60_000 == ms / 86_400_000 * 1440 + rem / 3600 * 60 + rem % 3600 / 60
  {
    assert ms / 60_000 == ms / 1000 / 60;
    assert ms / 86_400_000 == ms / 1000 / 86_400;
  }

  /** Stamps are in time order, minute by minute. */
  lemma StampOrder(a: nat, s: Stamp, b: nat, t: Stamp)
    requires Marks(a, s) && Marks(b, t)
    ensures a / 60_000 < b / 60_000 ==> DateBefore(s.date, t.date) || (s.date == t.date && ClockBefore(s, t))
    ensures a / 60_000 == b / 60_000 ==> s == t
  {
    var m, n := a / 86_400_000, b / 86_400_000;
    if m < n { CountingGrows(m, n); }
    assert m == a / 60_000 / 1440 && n == b / 60_000 / 1440;
  }

  lemma TailOrder(s: Stamp, t: Stamp)
    requires IsStamp(s) && IsStamp(t)
    ensures |Tail(s)| == |Tail(t)| == 11
    ensures Before(Tail(s), Tail(t)) <==>
      || s.date.month < t.date.month
      || (s.date.month == t.date.month && (s.date.day < t.date.day || (s.date.day == t.date.day && ClockBefore(s, t))))
    ensures Tail(s) == Tail(t) <==>
      s.date.month == t.date.month && s.date.day == t.date.day && s.hour == t.hour && s.minute == t.minute
  {
    PadOrder(s.date.month, t.date.month);
    PadOrder(s.date.day, t.date.day);
    PadOrder(s.hour, t.hour);
    PadOrder(s.minute, t.minute);
    var m, d, h := Pad(s.date.month, 2), Pad(s.date.day, 2), Pad(s.hour, 2);
    var m', d', h' := Pad(t.date.month, 2), Pad(t.date.day, 2), Pad(t.hour, 2);
    var x3, x3' := h + Pad(s.minute, 2), h' + Pad(t.minute, 2);
    var x2, x2' := d + ("-" + x3), d' + ("-" + x3');
    BeforeConcat(h, h', Pad(s.minute, 2), Pad(t.minute, 2));
    BeforeConcat("-", "-", x3, x3');
    BeforeConcat(d, d', "-" + x3, "-" + x3');
    BeforeConcat("-", "-", x2, x2');
    BeforeConcat(m, m', "-" + x2, "-" + x2');
    BeforeConcat("-", "-", m + ("-" + x2), m' + ("-" + x2'));
  }

  lemma PadOrder(a: nat, b: nat)
    requires a < 100 && b < 100
    ensures |Pad(a, 2)| == |Pad(b, 2)| == 2
    ensures Before(Pad(a, 2), Pad(b, 2)) <==> a < b
    ensures Pad(a, 2) == Pad(b, 2) <==> a == b
  {
    PadValue(a, 2);
    PadValue(b, 2);
    NumeralOrder(Pad(a, 2), Pad(b, 2));
  }

  /** A stretch of text is a numeral of this width and value. */
  predicate Shows(s: string, from: nat, to: nat, n: nat) {
    from <= to <= |s| && IsNumeral(s[from..to]) && Value(s[from..to]) == n
  }

  /** Year, month, day and time, separated by dashes; the last eleven characters are all
      but the year. */
  predicate SpellsFields(s: string, year: nat, month: nat, day: nat, hour: nat, minute: nat) {
    var n := |s| - 11;
    && n >= 4 && (year <= 9999 ==> n == 4)
    && Shows(s, 0, n, year) && s[n] == '-'
    && Shows(s, n + 1, n + 3, month) && s[n + 3] == '-'
    && Shows(s, n + 4, n + 6, day) && s[n + 6] == '-'
    && Shows(s, n + 7, n + 9, hour) && Shows(s, n + 9, n + 11, minute)
  }

  /** The slug spells the date that counting days reaches and the time of that day. */
  lemma SlugSpells(ms: nat)
    ensures IsStamp(StampOf(ms)) && IsStamp(Stamp(DayAfterEpoch(ms / 86_400_000), 0, 0))
    ensures DayAfterEpoch(ms / 86_400_000).year >= 0
    ensures var date := DayAfterEpoch(ms / 86_400_000);
      SpellsFields(Slug(StampOf(ms)), date.year, date.month, date.day, ms / 3_600_000 % 24, ms / 60_000 % 60)
  {
    StampMarks(ms);
    ClockOf(ms, StampOf(ms));
    StampSpells(StampOf(ms));
  }

  lemma StampSpells(t: Stamp)
    requires IsStamp(t)
    ensures SpellsFields(Slug(t), t.date.year, t.date.month, t.date.day, t.hour, t.minute)
  {
    TailSpells(t);
    YearWidth(t.date.year);
    PadValue(t.date.year, 4);
    FieldsJoin(Pad(t.date.year, 4), Tail(t), t);
  }

  lemma FieldsJoin(y: string, tail: string, t: Stamp)
    requires IsStamp(t) && |tail| == 11 && |y| >= 4 && (t.date.year <= 9999 ==> |y| == 4)
    requires IsNumeral(y) && Value(y) == t.date.year
    requires tail[0] == '-' && Shows(tail, 1, 3, t.date.month) && tail[3] == '-'
    requires Shows(tail, 4, 6, t.date.day) && tail[6] == '-'
    requires Shows(tail, 7, 9, t.hour) && Shows(tail, 9, 11, t.minute)
    ensures SpellsFields(y + tail, t.date.year, t.date.month, t.date.day, t.hour, t.minute)
  {
    assert (y + tail)[0..|y|] == y;
    ShowsAfter(y, tail, 1, 3, t.date.month);
    ShowsAfter(y, tail, 4, 6, t.date.day);
    ShowsAfter(y, tail, 7, 9, t.hour);
    ShowsAfter(y, tail, 9, 11, t.minute);
    CharAfter(y, tail, 0);
    CharAfter(y, tail, 3);
    CharAfter(y, tail, 6);
  }

  lemma ShowsAfter(y: string, tail: string, from: nat, to: nat, n: nat)
    requires Shows(tail, from, to, n)
    ensures Shows(y + tail, |y| + from, |y| + to, n)
  {
    assert (y + tail)[|y| + from..|y| + to] == tail[from..to];
  }

  lemma CharAfter(y: string, tail: string, k: nat)
    requires k < |tail|
    ensures (y + tail)[|y| + k] == tail[k]
  {}

  /** The hour and the minute of the day. */
  lemma ClockOf(ms: nat, t: Stamp)
    requires Marks(ms, t)
    ensures t.hour == ms / 3_600_000 % 24 && t.minute == ms / 60_000 % 60
  {
    var minutes, days := ms / 60_000, ms / 86_400_000;
    assert ms / 3_600_000 == minutes / 60;
    assert minutes == (days * 24 + t.hour) * 60 + t.minute;
    Divides(minutes, 60, days * 24 + t.hour, t.minute);
    Divides(days * 24 + t.hour, 24, days, t.hour);
  }

  lemma YearWidth(n: nat)
    ensures |Pad(n, 4)| >= 4 && (n <= 9999 ==> |Pad(n, 4)| == 4)
  {
    PadValue(n, 4);
    if n < 10_000 {
      assert Pow10(4) == 10_000;
    } else {
      ValueBound(Pad(n, 4));
      if |Pad(n, 4)| < 4 { PowersGrow(|Pad(n, 4)|, 4); }
    }
  }

  lemma {:induction false} PowersGrow(a: nat, b: nat)
    requires a <= b
    ensures Pow10(a) <= Pow10(b)
    decreases b - a
  {
    if a < b { PowersGrow(a, b - 1); }
  }

  lemma TailSpells(t: Stamp)
    requires IsStamp(t)
    ensures var s := Tail(t);
      && |s| == 11 && s[0] == '-' && Shows(s, 1, 3, t.date.month) && s[3] == '-'
      && Shows(s, 4, 6, t.date.day) && s[6] == '-' && Shows(s, 7, 9, t.hour) && Shows(s, 9, 11, t.minute)
  {
    var s := Tail(t);
    var m, d, h, n := Pad(t.date.month, 2), Pad(t.date.day, 2), Pad(t.hour, 2), Pad(t.minute, 2);
    PadOrder(t.date.month, t.date.month);
    PadOrder(t.date.day, t.date.day);
    PadOrder(t.hour, t.hour);
    PadOrder(t.minute, t.minute);
    PadValue(t.date.month, 2);
    PadValue(t.date.day, 2);
    PadValue(t.hour, 2);
    PadValue(t.minute, 2);
    assert s[1..3] == m && s[4..6] == d && s[7..9] == h && s[9..11] == n;
  }

  /** Two slugs are the same text exactly when they name the same minute. */
  lemma SlugNamesMinute(a: nat, b: nat)
    ensures IsStamp(StampOf(a)) && IsStamp(StampOf(b))
    ensures Slug(StampOf(a)) == Slug(StampOf(b)) <==> a / 60_000 == b / 60_000
  {
    StampMarks(a);
    StampMarks(b);
    SlugsOfMinutes(a, StampOf(a), b, StampOf(b));
  }

  lemma SlugsOfMinutes(a: nat, s: Stamp, b: nat, t: Stamp)
    requires Marks(a, s) && Marks(b, t)
    ensures Slug(s) == Slug(t) <==> a / 60_000 == b / 60_000
    ensures s.date.year <= 9999 && t.date.year <= 9999 ==> (Before(Slug(s), Slug(t)) <==> a / 60_000 < b / 60_000)
  {
    StampOrder(a, s, b, t);
    StampOrder(b, t, a, s);
    SlugInjective(s, t);
    if s.date.year <= 9999 && t.date.year <= 9999 { SlugOrder(s, t); }
  }

  lemma SlugInjective(s: Stamp, t: Stamp)
    requires IsStamp(s) && IsStamp(t)
    ensures Slug(s) == Slug(t) <==> s == t
  {
    TailOrder(s, t);
    var y, y' := Pad(s.date.year, 4), Pad(t.date.year, 4);
    PadValue(s.date.year, 4);
    PadValue(t.date.year, 4);
    if Slug(s) == Slug(t) {
      assert |y| == |y'|;
      BeforeConcat(y, y', Tail(s), Tail(t));
    }
  }

  /** The first millisecond of the year 10000. */
  const YEAR_10000: nat := 253_402_300_800_000

  lemma YearBefore10000(ms: nat)
    requires ms < YEAR_10000
    ensures StampOf(ms).date.year <= 9999
  {
    YearOfDay(ms / 1000 / 86_400);
  }

  lemma YearOfDay(day: nat)
    requires day < 2_932_897
    ensures CivilFromDays(day).year <= 9999
  {
    var last: nat := 2_932_896;
    CivilOrder(day, last);
    LastDayOf9999();
  }

  lemma CivilOrder(n: nat, m: nat)
    requires n <= m
    ensures n == m || DateBefore(CivilFromDays(n), CivilFromDays(m))
  {
    CivilIsCounting(n);
    CivilIsCounting(m);
    if n < m { CountingGrows(n, m); }
  }

  lemma LastDayOf9999()
    ensures CivilFromDays(2_932_896) == Date(9999, 12, 31)
  {}

  lemma FirstDayOf10000()
    ensures CivilFromDays(2_932_897) == Date(10_000, 1, 1)
  {}

  lemma IsStampOf(ms: nat)
    ensures IsStamp(StampOf(ms))
  {
    StampMarks(ms);
  }

  /** Through the year 9999, file names sort in time order. */
  lemma SlugOrderIsTimeOrder(a: nat, b: nat)
    requires a < YEAR_10000 && b < YEAR_10000
    ensures IsStamp(StampOf(a)) && IsStamp(StampOf(b))
    ensures Before(Slug(StampOf(a)), Slug(StampOf(b))) <==> a / 60_000 < b / 60_000
  {
    StampMarks(a);
    StampMarks(b);
    YearBefore10000(a);
    YearBefore10000(b);
    SlugsOfMinutes(a, StampOf(a), b, StampOf(b));
  }

  /** Among the slugs of all instants before a bound, text order is time order. */
  ghost predicate SortsBefore(bound: nat) {
    forall a: nat, b: nat | a < bound && b < bound ::
      var s, t := StampOf(a), StampOf(b);
      IsStamp(s) && IsStamp(t) && (Before(Slug(s), Slug(t)) <==> a / 60_000 < b / 60_000)
  }

  /** The year 10000 is exactly where sorting stops: its first slug sorts before the
      last one of the year 9999. */
  lemma SortsExactlyTo10000(bound: nat)
    ensures SortsBefore(bound) <==> bound <= YEAR_10000
  {
    if bound <= YEAR_10000 {
      forall a: nat, b: nat | a < bound && b < bound
        ensures var s, t := StampOf(a), StampOf(b);
          IsStamp(s) && IsStamp(t) && (Before(Slug(s), Slug(t)) <==> a / 60_000 < b / 60_000)
      {
        SlugOrderIsTimeOrder(a, b);
      }
    } else {
      var a := EndOf9999();
      var b := StartOf10000();
      assert a / 60_000 < 4_223_371_680 == b / 60_000;
      IsStampOf(a);
      IsStampOf(b);
      SmallerLeading(StampOf(a), StampOf(b));
    }
  }

  lemma EndOf9999() returns (a: nat)
    ensures a < YEAR_10000 && StampOf(a).date.year == 9999
  {
    a := YEAR_10000 - 1;
    YearsAround10000(a);
  }

  lemma StartOf10000() returns (b: nat)
    ensures b == YEAR_10000 && StampOf(b).date.year == 10_000
  {
    b := YEAR_10000;
    YearsAround10000(b);
  }

  lemma YearsAround10000(ms: nat)
    ensures ms == YEAR_10000 - 1 ==> StampOf(ms).date.year == 9999
    ensures ms == YEAR_10000 ==> StampOf(ms).date.year == 10_000
  {
    var day := ms / 1000 / 86_400;
    assert StampOf(ms).date == CivilFromDays(day);
    if ms == YEAR_10000 - 1 {
      assert day == 2_932_896;
      LastDayOf9999();
    } else if ms == YEAR_10000 {
      assert day == 2_932_897;
      FirstDayOf10000();
    }
  }

  lemma SmallerLeading(s: Stamp, t: Stamp)
    requires IsStamp(s) && IsStamp(t) && s.date.year == 9999 && t.date.year == 10_000
    ensures Before(Slug(t), Slug(s))
  {
    FirstDigit(s.date.year);
    FirstDigit(t.date.year);
    assert Leading(9999) == 9 && Leading(10_000) == 1;
    assert Slug(s)[0] == '9' && Slug(t)[0] == '1';
  }

  /** The leading digit of a number's text. */
  function Leading(n: nat): nat { if n < 10 then n else Leading(n / 10) }

  lemma {:induction false} FirstDigit(n: nat)
    ensures Leading(n) < 10 && Decimal(n)[0] == Digit(Leading(n))
    ensures n >= 1000 ==> |Decimal(n)| >= 4 && Pad(n, 4) == Decimal(n)
  {
    if n >= 10 { FirstDigit(n / 10); }
    if n >= 1000 { assert |Decimal(n)| >= 4; assert "" + Decimal(n) == Decimal(n); }
  }

  lemma SlugOrder(s: Stamp, t: Stamp)
    requires IsStamp(s) && IsStamp(t) && s.date.year <= 9999 && t.date.year <= 9999
    ensures Before(Slug(s), Slug(t)) <==> DateBefore(s.date, t.date) || (s.date == t.date && ClockBefore(s, t))
  {
    TailOrder(s, t);
    var y, y' := Pad(s.date.year, 4), Pad(t.date.year, 4);
    PadValue(s.date.year, 4);
    PadValue(t.date.year, 4);
    NumeralOrder(y, y');
    BeforeConcat(y, y', Tail(s), Tail(t));
  }

  predicate FitsU32(x: int) {
    0 <= x < 0x1_0000_0000
  }

  /** No intermediate value of the computation leaves the 64-bit range, and the day and
      the month keep their values when cast to 32 unsigned bits. */
  lemma NoOverflow(ms: nat)
    requires ms < U64_END
    ensures var z := ms / 1000 / 86_400 + 719_468;
      var doe := DayOfEra(z);
      var yoe := YearOfEra(doe);
      var doy := DayOfYear(doe);
      && FitsI64(ms / 1000) && FitsI64(z) && FitsI64(Era(z) * 146_097) && FitsI64(Era(z) * 400)
      && 0 <= doe < 146_097 && 0 <= yoe < 400 && 0 <= doy < 366
      && FitsI64(365 * yoe + yoe / 4 - yoe / 100) && FitsI64(yoe + Era(z) * 400)
      && MonthFits(doy) && FitsI64(StampOf(ms).date.year)
  {
    var z := ms / 1000 / 86_400 + 719_468;
    var e, doe := EraSplit(z);
    YearOfEraExact(doe);
  }

  /** The values of the month arithmetic, and the two casts. */
  predicate MonthFits(doy: int) {
    var mp := TruncDiv(5 * doy + 2, 153);
    && FitsI64(5 * doy + 2) && FitsI64(153 * mp + 2)
    && FitsU32(doy - TruncDiv(153 * mp + 2, 5) + 1)
    && FitsU32(if mp < 10 then mp + 3 else mp - 9)
  }
}
