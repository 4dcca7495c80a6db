/** The date in an export's timestamp slug: civil-from-days arithmetic over the proleptic
    Gregorian calendar (section 3.2.1 of ISO 8601:2004), against counting days one by
    one. */
module Calendar {

  datatype Date = Date(year: int, month: int, day: int)

  predicate IsLeap(y: int) {
    y % 4 == 0 && (y % 100 != 0 || y % 400 == 0)
  }

  function DaysInMonth(y: int, m: int): int {
    if m == 2 then if IsLeap(y) then 29 else 28
    else if m == 4 || m == 6 || m == 9 || m == 11 then 30
    else 31
  }

  predicate IsDate(d: Date) {
    1 <= d.month <= 12 && 1 <= d.day <= DaysInMonth(d.year, d.month)
  }

  function NextDay(d: Date): Date {
    if d.day < DaysInMonth(d.year, d.month) then Date(d.year, d.month, d.day + 1)
    else if d.month < 12 then Date(d.year, d.month + 1, 1)
    else Date(d.year + 1, 1, 1)
  }

  const EPOCH: Date := Date(1970, 1, 1)

  /** The date reached by counting n days from the epoch. */
  function DayAfterEpoch(n: nat): Date {
    if n == 0 then EPOCH else NextDay(DayAfterEpoch(n - 1))
  }

  // ----- the arithmetic -----

  /** Division rounding toward zero. */
  function TruncDiv(a: int, b: int): int
    requires b > 0
  {
    if a >= 0 then a / b else -(-a / b)
  }

  function Era(z: int): int { TruncDiv(if z >= 0 then z else z - 146_096, 146_097) }

  function DayOfEra(z: int): int { z - Era(z) * 146_097 }

  function YearOfEra(doe: int): int {
    TruncDiv(doe - TruncDiv(doe, 1460) + TruncDiv(doe, 36_524) - TruncDiv(doe, 146_096), 365)
  }

  function DayOfYear(doe: int): int {
    var yoe := YearOfEra(doe);
    doe - (365 * yoe + TruncDiv(yoe, 4) - TruncDiv(yoe, 100))
  }

  /** The date of a day of a year that starts in March. */
  function FromMarch(y: int, doy: int): Date {
    var mp := TruncDiv(5 * doy + 2, 153);
    var m := if mp < 10 then mp + 3 else mp - 9;
    Date(if m <= 2 then y + 1 else y, m, doy - TruncDiv(153 * mp + 2, 5) + 1)
  }

  function CivilFromDays(days: int): Date {
    var z := days + 719_468;
    var doe := DayOfEra(z);
    FromMarch(YearOfEra(doe) + Era(z) * 400, DayOfYear(doe))
  }

  // ----- years that start in March -----

  /** The days before the March-based year y. */
  function YearStart(y: nat): nat { 365 * y + y / 4 - y / 100 + y / 400 }

  function YearLength(y: nat): nat { if IsLeap(y + 1) then 366 else 365 }

  lemma YearStartSteps(y: nat)
    ensures YearStart(y + 1) == YearStart(y) + YearLength(y)
  {
    Quotients(y, 4);
    Quotients(y, 100);
    Quotients(y, 400);
    Multiples(y + 1);
  }

  lemma Multiples(y: nat)
    ensures y % 400 == 0 ==> y % 100 == 0
    ensures y % 100 == 0 ==> y % 4 == 0
  {
    if y % 400 == 0 { Divides(y, 100, 4 * (y / 400), 0); }
    if y % 100 == 0 { Divides(y, 4, 25 * (y / 100), 0); }
  }

  lemma Quotients(y: nat, n: nat)
    requires n > 0
    ensures (y + 1) / n == y / n + if (y + 1) % n == 0 then 1 else 0
  {
    var q, r := y / n, y % n;
    if r + 1 < n {
      Divides(y + 1, n, q, r + 1);
    } else {
      assert y + 1 == n * (q + 1) by { assert n * (q + 1) == n * q + n; }
      Divides(y + 1, n, q + 1, 0);
    }
  }

  lemma Divides(a: nat, n: int, q: int, r: nat)
    requires n > 0 && a == n * q + r && r < n
    ensures a / n == q && a % n == r
  {
    var q', r' := a / n, a % n;
    assert a == n * q' + r';
    assert n * (q - q') == r' - r;
    assert q - q' >= 1 ==> n * (q - q') >= n;
    assert q - q' <= -1 ==> n * (q - q') <= -n;
  }

  lemma {:induction false} YearStartGrows(a: nat, b: nat)
    requires a < b
    ensures YearStart(a) + YearLength(a) <= YearStart(b)
    decreases b - a
  {
    YearStartSteps(a);
    if a + 1 < b { YearStartGrows(a + 1, b); }
  }

  /** A day of a century c that is not the last day of the era, in the four-year block
      q of that century, s days into the block. */
  predicate InBlock(doe: nat, c: nat, q: nat, s: nat) {
    doe == 36_524 * c + 1461 * q + s && c < 4 && q < 25 && s < 1461 && (q == 24 ==> s < 1460)
  }

  function YearOfBlock(s: nat): nat { if s >= 1095 then 3 else s / 365 }

  lemma BlockQuotients(doe: nat, c: nat, q: nat, s: nat)
    requires InBlock(doe, c, q, s)
    ensures doe / 36_524 == c && doe / 146_096 == 0
    ensures doe / 1460 == 25 * c + q + if 24 * c + q + s >= 1460 then 1 else 0
  {
    Divides(doe, 36_524, c, 1461 * q + s);
    var t := 24 * c + q + s;
    if t >= 1460 {
      Divides(doe, 1460, 25 * c + q + 1, t - 1460);
    } else {
      Divides(doe, 1460, 25 * c + q, t);
    }
  }

  lemma BlockYear(doe: nat, c: nat, q: nat, s: nat)
    requires InBlock(doe, c, q, s)
    ensures YearOfEra(doe) == 100 * c + 4 * q + YearOfBlock(s)
  {
    BlockQuotients(doe, c, q, s);
    var x := s - if 24 * c + q + s >= 1460 then 1 else 0;
    var j := YearOfBlock(s);
    assert 0 <= x - 365 * j < 365;
    Divides(365 * (100 * c + 4 * q) + x, 365, 100 * c + 4 * q + j, x - 365 * j);
  }

  lemma BlockStart(c: nat, q: nat, j: nat)
    requires c < 4 && q < 25 && j < 4
    ensures YearStart(100 * c + 4 * q + j) == 36_524 * c + 1461 * q + 365 * j
    ensures (100 * c + 4 * q + j) / 4 == 25 * c + q && (100 * c + 4 * q + j) / 100 == c
    ensures j == 3 && q < 24 ==> IsLeap(100 * c + 4 * q + j + 1)
  {
    var y := 100 * c + 4 * q + j;
    Divides(y, 4, 25 * c + q, j);
    Divides(y, 100, c, 4 * q + j);
    if j == 3 && q < 24 { Divides(y + 1, 100, c, 4 * q + 4); }
  }

  /** Within an era, the year and the day of the year of every day: centuries of 36524
      days, then four-year blocks of 1461. */
  lemma YearOfEraExact(doe: nat)
    requires doe < 146_097
    ensures var y, d := YearOfEra(doe), DayOfYear(doe);
      0 <= y < 400 && YearStart(y) + d == doe && 0 <= d < YearLength(y)
  {
    if doe == 146_096 {
    } else {
      var c, r := doe / 36_524, doe % 36_524;
      var q, s := r / 1461, r % 1461;
      BlockYear(doe, c, q, s);
      BlockStart(c, q, YearOfBlock(s));
    }
  }

  lemma EraShift(y: nat, e: nat)
    ensures YearStart(y + 400 * e) == YearStart(y) + 146_097 * e
    ensures YearLength(y + 400 * e) == YearLength(y)
  {
    var z := y + 400 * e;
    Divides(z, 4, y / 4 + 100 * e, y % 4);
    Divides(z, 100, y / 100 + 4 * e, y % 100);
    Divides(z, 400, y / 400 + e, y % 400);
    Divides(z + 1, 4, (y + 1) / 4 + 100 * e, (y + 1) % 4);
    Divides(z + 1, 100, (y + 1) / 100 + 4 * e, (y + 1) % 100);
    Divides(z + 1, 400, (y + 1) / 400 + e, (y + 1) % 400);
  }

  lemma EraSplit(z: nat) returns (e: nat, doe: nat)
    ensures e == Era(z) && doe == DayOfEra(z) && doe < 146_097 && z == 146_097 * e + doe
  {
    e, doe := z / 146_097, z % 146_097;
  }

  lemma EraExact(z: nat) returns (y: nat, d: nat)
    ensures y == YearOfEra(DayOfEra(z)) + Era(z) * 400 && d == DayOfYear(DayOfEra(z))
    ensures YearStart(y) + d == z && d < YearLength(y)
  {
    var e, doe := EraSplit(z);
    YearOfEraExact(doe);
    var y0 := YearOfEra(doe);
    y, d := y0 + 400 * e, DayOfYear(doe);
    EraShift(y0, e);
  }

  /** A day lies in exactly one year, at one place. */
  lemma YearUnique(y: nat, d: nat, y': nat, d': nat)
    requires d < YearLength(y) && d' < YearLength(y') && YearStart(y) + d == YearStart(y') + d'
    ensures y == y' && d == d'
  {
    if y < y' {
      YearStartGrows(y, y');
    } else if y' < y {
      YearStartGrows(y', y);
    }
  }

  /** The days of a March-based year before its month m, and that month's number. */
  function MonthStart(m: nat): nat { (153 * m + 2) / 5 }

  function MonthNumber(m: nat): int { if m < 10 then m + 3 else m - 9 }

  function YearOfMonth(y: int, m: nat): int { if m < 10 then y else y + 1 }

  lemma MonthLength(y: nat, m: nat)
    requires m <= 11
    ensures DaysInMonth(YearOfMonth(y, m), MonthNumber(m)) ==
      if m == 11 then YearLength(y) - 337 else MonthStart(m + 1) - MonthStart(m)
  {}

  /** Day k of month m, counting both from nought. */
  lemma FromMarchAt(y: nat, m: nat, k: nat)
    requires m <= 11 && k < MonthStart(m + 1) - MonthStart(m)
    ensures FromMarch(y, MonthStart(m) + k) == Date(YearOfMonth(y, m), MonthNumber(m), k + 1)
  {
    assert TruncDiv(5 * (MonthStart(m) + k) + 2, 153) == m;
  }

  lemma MonthOf(doy: nat) returns (m: nat, k: nat)
    requires doy < 366
    ensures m <= 11 && k < MonthStart(m + 1) - MonthStart(m) && doy == MonthStart(m) + k
  {
    m := (5 * doy + 2) / 153;
    k := doy - MonthStart(m);
  }

  lemma NextInMonth(y: nat, m: nat, k: nat, doy: nat)
    requires m <= 11 && k + 1 < MonthStart(m + 1) - MonthStart(m) && doy == MonthStart(m) + k
    requires m == 11 ==> doy + 1 < YearLength(y)
    ensures NextDay(FromMarch(y, doy)) == FromMarch(y, doy + 1)
  {
    MonthLength(y, m);
    FromMarchAt(y, m, k);
    FromMarchAt(y, m, k + 1);
  }

  lemma NextMonth(y: nat, m: nat, doy: nat)
    requires m < 11 && doy + 1 == MonthStart(m + 1)
    ensures NextDay(FromMarch(y, doy)) == FromMarch(y, doy + 1)
  {
    MonthLength(y, m);
    FromMarchAt(y, m, MonthStart(m + 1) - MonthStart(m) - 1);
    FromMarchAt(y, m + 1, 0);
  }

  lemma NextYear(y: nat)
    ensures NextDay(FromMarch(y, YearLength(y) - 1)) == FromMarch(y + 1, 0)
  {
    MonthLength(y, 11);
    FromMarchAt(y, 11, YearLength(y) - 338);
    FromMarchAt(y + 1, 0, 0);
  }

  lemma FromMarchIsDate(y: nat, doy: nat)
    requires doy < YearLength(y)
    ensures IsDate(FromMarch(y, doy))
  {
    var m, k := MonthOf(doy);
    FromMarchAt(y, m, k);
    MonthLength(y, m);
  }

  lemma NextInYear(y: nat, doy: nat)
    requires doy + 1 < YearLength(y)
    ensures NextDay(FromMarch(y, doy)) == FromMarch(y, doy + 1)
  {
    var m, k := MonthOf(doy);
    if k + 1 < MonthStart(m + 1) - MonthStart(m) {
      NextInMonth(y, m, k, doy);
    } else {
      NotLastMonth(m, k);
      NextMonth(y, m, doy);
    }
  }

  lemma NotLastMonth(m: nat, k: nat)
    requires m <= 11 && k + 1 == MonthStart(m + 1) - MonthStart(m) && MonthStart(m) + k < 365
    ensures m < 11 && MonthStart(m) + k == MonthStart(m + 1) - 1
  {}

  /** The day before a day that is not the first. */
  lemma DayBefore(y: nat, d: nat) returns (y': nat, d': nat)
    requires d < YearLength(y) && YearStart(y) + d > 0
    ensures d' < YearLength(y') && YearStart(y') + d' + 1 == YearStart(y) + d
    ensures FromMarch(y, d) == NextDay(FromMarch(y', d'))
  {
    if d > 0 {
      y', d' := y, d - 1;
      NextInYear(y', d');
    } else {
      assert YearStart(0) == 0;
      y' := y - 1;
      d' := YearLength(y') - 1;
      YearStartSteps(y');
      NextYear(y');
    }
  }

  lemma EpochInMarchYear()
    ensures YearStart(1969) + 306 == 719_468 && 306 < YearLength(1969) && FromMarch(1969, 306) == EPOCH
  {}

  /** Counting n days arrives in the year and at the day that hold day n. */
  lemma {:induction false} CountingArrives(n: nat, y: nat, d: nat)
    requires YearStart(y) + d == n + 719_468 && d < YearLength(y)
    ensures DayAfterEpoch(n) == FromMarch(y, d)
    decreases n
  {
    if n == 0 {
      EpochInMarchYear();
      YearUnique(y, d, 1969, 306);
    } else {
      var y', d' := DayBefore(y, d);
      CountingArrives(n - 1, y', d');
    }
  }

  /** The computed date of every day is the valid date counting reaches. */
  lemma CivilIsCounting(n: nat)
    ensures CivilFromDays(n) == DayAfterEpoch(n) && IsDate(DayAfterEpoch(n))
  {
    var y, d := EraExact(n + 719_468);
    assert CivilFromDays(n) == FromMarch(y, d);
    CountingArrives(n, y, d);
    FromMarchIsDate(y, d);
  }
}
