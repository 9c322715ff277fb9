/** The two closed-form date functions, `unix_days_from_civil` (src/football.rs) and
    `civil_from_unix_days` (src/home_bootstrap.rs), against an independent reference: the
    proleptic Gregorian calendar walked one day at a time. */
module Calendar {
  import opened Text
  import opened Decimal

  datatype Date = Date(year: int, month: int, day: int)

  // ---------------------------------------------------------------------------
  // Reference calendar
  // ---------------------------------------------------------------------------

  predicate IsLeapYear(y: int) {
    y % 4 == 0 && (y % 100 != 0 || y % 400 == 0)
  }

  function DaysInMonth(y: int, m: int): int
    requires 1 <= m <= 12
  {
    if m == 2 then (if IsLeapYear(y) then 29 else 28)
    else if m == 4 || m == 6 || m == 9 || m == 11 then 30
    else 31
  }

  predicate ValidDate(d: Date) {
    1 <= d.month <= 12 && 1 <= d.day <= DaysInMonth(d.year, d.month)
  }

  /** The day after `d`. */
  function NextDate(d: Date): Date
    requires ValidDate(d)
  {
    if d.day < DaysInMonth(d.year, d.month) then Date(d.year, d.month, d.day + 1)
    else if d.month < 12 then Date(d.year, d.month + 1, 1)
    else Date(d.year + 1, 1, 1)
  }

  /** 0000-03-01, the day on which the closed forms start counting. */
  const EPOCH := Date(0, 3, 1)
  const EPOCH_OFFSET := 719_468
  const DAYS_PER_ERA := 146_097

  /** The date reached by walking `n` days from 0000-03-01. */
  function Walk(n: nat): (d: Date)
    ensures ValidDate(d)
  {
    if n == 0 then EPOCH else NextDate(Walk(n - 1))
  }

  predicate Before(a: Date, b: Date) {
    a.year < b.year || (a.year == b.year && (a.month < b.month || (a.month == b.month && a.day < b.day)))
  }

  // ---------------------------------------------------------------------------
  // The code under study
  // ---------------------------------------------------------------------------

  /** Division as Rust's `/` on signed integers: it rounds toward zero. */
  function TruncDiv(a: int, b: int): int
    requires b > 0
  {
    if a >= 0 then a / b else -((-a) / b)
  }

  function UnixDaysFromCivil(d: Date): int {
    var y := if d.month <= 2 then d.year - 1 else d.year;
    var era := TruncDiv(if y >= 0 then y else y - 399, 400);
    var yoe := y - era * 400;
    var doy := TruncDiv(153 * (if d.month > 2 then d.month - 3 else d.month + 9) + 2, 5) + d.day - 1;
    var doe := yoe * 365 + TruncDiv(yoe, 4) - TruncDiv(yoe, 100) + doy;
    era * 146_097 + doe - 719_468
  }

  /** The `as i32` cast on the year. */
  function WrapI32(x: int): int {
    (x + 0x8000_0000) % 0x1_0000_0000 - 0x8000_0000
  }

  function YearOfEra(dayOfEra: int): int {
    (dayOfEra - TruncDiv(dayOfEra, 1_460) + TruncDiv(dayOfEra, 36_524) - TruncDiv(dayOfEra, 146_096)) / 365
  }

  function CivilFromUnixDays(daysSinceUnixEpoch: int): Date {
    var days := daysSinceUnixEpoch + 719_468;
    var era := (if days >= 0 then days else days - 146_096) / 146_097;
    var dayOfEra := days - era * 146_097;
    var yearOfEra := YearOfEra(dayOfEra);
    var year := yearOfEra + era * 400;
    var dayOfYear := dayOfEra - (365 * yearOfEra + TruncDiv(yearOfEra, 4) - TruncDiv(yearOfEra, 100));
    var monthPrime := (5 * dayOfYear + 2) / 153;
    var day := dayOfYear - (153 * monthPrime + 2) / 5 + 1;
    var month := monthPrime + if monthPrime < 10 then 3 else -9;
    Date(WrapI32(if month <= 2 then year + 1 else year), month, day)
  }

  /** Days that a millisecond clock in an i64 can name: for these the cast to i32 loses nothing. */
  predicate InClockRange(daysSinceUnixEpoch: int) {
    -106_751_991_168 <= daysSinceUnixEpoch <= 106_751_991_167
  }

  // ---------------------------------------------------------------------------
  // Years that start in March
  // ---------------------------------------------------------------------------

  /** Days from 0000-03-01 to March 1st of year `y`. */
  function DaysBeforeYear(y: int): int {
    365 * y + y / 4 - y / 100 + y / 400
  }

  /** Days in the year that runs from March of `y` to February of `y + 1`. */
  function MarchYearLength(y: int): int {
    if IsLeapYear(y + 1) then 366 else 365
  }

  lemma DaysBeforeNextYear(y: int)
    ensures DaysBeforeYear(y + 1) == DaysBeforeYear(y) + MarchYearLength(y)
  {
    QuotientStep(y, 4);
    QuotientStep(y, 100);
    QuotientStep(y, 400);
    LeapByDivisors(y + 1);
  }

  lemma QuotientStep(y: int, k: int)
    requires k == 4 || k == 100 || k == 400
    ensures (y + 1) / k == y / k + if (y + 1) % k == 0 then 1 else 0
  {
  }

  lemma MultipleOf4(n: int)
    ensures (4 * n) % 4 == 0
  {
  }

  lemma MultipleOf100(n: int)
    ensures (100 * n) % 100 == 0
  {
  }

  lemma LeapByDivisors(y: int)
    ensures y % 400 == 0 ==> y % 100 == 0
    ensures y % 100 == 0 ==> y % 4 == 0
  {
    MultipleOf100(4 * (y / 400));
    MultipleOf4(25 * (y / 100));
  }

  function MarchYear(d: Date): int {
    if d.month <= 2 then d.year - 1 else d.year
  }

  function MarchMonth(d: Date): int {
    if d.month > 2 then d.month - 3 else d.month + 9
  }

  function DayOfMarchYear(d: Date): int {
    (153 * MarchMonth(d) + 2) / 5 + d.day - 1
  }

  lemma SplitYear(y: int)
    ensures var e, r := y / 400, y % 400;
            y / 4 == 100 * e + r / 4 && y / 100 == 4 * e + r / 100
  {
    var e, r := y / 400, y % 400;
    assert y == 4 * (100 * e) + r;
    assert y == 100 * (4 * e) + r;
  }

  /** The era arithmetic of `unix_days_from_civil`, including its truncating division on negative
      years, is a plain count of days. */
  lemma UnixDaysClosedForm(d: Date)
    requires 1 <= d.month <= 12
    ensures UnixDaysFromCivil(d) == DaysBeforeYear(MarchYear(d)) + DayOfMarchYear(d) - EPOCH_OFFSET
  {
    var y := MarchYear(d);
    EraIsFloor(y);
    SplitYear(y);
  }

  lemma EraIsFloor(y: int)
    ensures TruncDiv(if y >= 0 then y else y - 399, 400) == y / 400
  {
  }

  /** Within a valid date the day of the March year stays inside that year. */
  lemma DayOfMarchYearBounds(d: Date)
    requires ValidDate(d)
    ensures 0 <= DayOfMarchYear(d) < MarchYearLength(MarchYear(d))
    ensures (5 * DayOfMarchYear(d) + 2) / 153 == MarchMonth(d)
  {
    assert MarchMonth(d) == 0 || MarchMonth(d) == 1 || MarchMonth(d) == 2 || MarchMonth(d) == 3
        || MarchMonth(d) == 4 || MarchMonth(d) == 5 || MarchMonth(d) == 6 || MarchMonth(d) == 7
        || MarchMonth(d) == 8 || MarchMonth(d) == 9 || MarchMonth(d) == 10 || MarchMonth(d) == 11;
  }

  // ---------------------------------------------------------------------------
  // `unix_days_from_civil` counts the days of the calendar, for every year
  // ---------------------------------------------------------------------------

  /** One step of the calendar is one day more, in every year, negative ones included; with the
      fixed point at 1970-01-01 this determines the function on all valid dates. */
  lemma UnixDaysCountsCalendarDays(d: Date)
    requires ValidDate(d)
    ensures UnixDaysFromCivil(NextDate(d)) == UnixDaysFromCivil(d) + 1
    ensures UnixDaysFromCivil(Date(1970, 1, 1)) == 0
  {
    UnixDaysClosedForm(d);
    UnixDaysClosedForm(NextDate(d));
    DayNumberStep(d);
    EpochIsDayZero();
  }

  lemma EpochIsDayZero()
    ensures UnixDaysFromCivil(Date(1970, 1, 1)) == 0
  {
  }

  function DayNumber(d: Date): int {
    DaysBeforeYear(MarchYear(d)) + DayOfMarchYear(d)
  }

  lemma DayNumberStep(d: Date)
    requires ValidDate(d)
    ensures DayNumber(NextDate(d)) == DayNumber(d) + 1
  {
    if d.day == DaysInMonth(d.year, d.month) {
      if d.month == 2 {
        DaysBeforeNextYear(d.year - 1);
        assert DayOfMarchYear(d) == 336 + d.day;
        assert DayOfMarchYear(NextDate(d)) == 0;
      } else {
        assert MarchYear(NextDate(d)) == MarchYear(d);
        MonthStep(d);
      }
    }
  }

  lemma MonthStep(d: Date)
    requires ValidDate(d) && d.month != 2 && d.day == DaysInMonth(d.year, d.month)
    ensures DayOfMarchYear(NextDate(d)) == DayOfMarchYear(d) + 1
  {
  }

  lemma {:induction false} UnixDaysOfWalk(n: nat)
    ensures UnixDaysFromCivil(Walk(n)) == n - EPOCH_OFFSET
  {
    if n > 0 {
      UnixDaysOfWalk(n - 1);
      UnixDaysCountsCalendarDays(Walk(n - 1));
    }
  }

  lemma {:induction false} WalkNeverBeforeEpoch(n: nat)
    ensures MarchYear(Walk(n)) >= 0
  {
    if n > 0 { WalkNeverBeforeEpoch(n - 1); }
  }

  // ---------------------------------------------------------------------------
  // `civil_from_unix_days` inverts it
  // ---------------------------------------------------------------------------

  /** The 1460/36524/146096 corrections recover the year of the era; `c`, `q`, `s` are its
      centuries, four-year cycles and odd years. */
  lemma YearOfEraRecovered(c: int, q: int, s: int, doy: int)
    requires 0 <= c <= 3 && 0 <= q <= 24 && 0 <= s <= 3
    requires 0 <= doy <= 365
    requires doy == 365 ==> s == 3 && (q == 24 ==> c == 3)
    ensures YearOfEra(36_524 * c + 1_461 * q + 365 * s + doy) == 100 * c + 4 * q + s
  {
    var doe := 36_524 * c + 1_461 * q + 365 * s + doy;
    var borrow := if 24 * c + q + 365 * s + doy >= 1_460 then 1 else 0;
    assert doe / 1_460 == 25 * c + q + borrow by {
      assert doe == 1_460 * (25 * c + q) + (24 * c + q + 365 * s + doy);
    }
    var last := doe == 146_096;
    assert doe / 36_524 == c + if last then 1 else 0 by {
      assert doe == 36_524 * c + (1_461 * q + 365 * s + doy);
    }
    assert doe / 146_096 == if last then 1 else 0;
    assert doe - doe / 1_460 + doe / 36_524 - doe / 146_096
        == 365 * (100 * c + 4 * q + s) + (doy - borrow);
    assert 0 <= doy - borrow < 365;
  }

  /** Day counts of consecutive years, read within one era. */
  lemma EraDecomposition(y: int)
    ensures var e, r := y / 400, y % 400;
            var c, q, s := r / 100, r % 100 / 4, r % 4;
            r == 100 * c + 4 * q + s &&
            DaysBeforeYear(y) == DAYS_PER_ERA * e + 36_524 * c + 1_461 * q + 365 * s &&
            (IsLeapYear(y + 1) <==> s == 3 && (q == 24 ==> c == 3))
  {
    SplitYear(y);
    var e, r := y / 400, y % 400;
    var c, q, s := r / 100, r % 100 / 4, r % 4;
    assert r % 100 == 4 * q + r % 100 % 4;
    assert r % 100 % 4 == s by { assert r == 4 * (25 * c) + r % 100; }
    assert r / 4 == 25 * c + q by { assert r == 4 * (25 * c + q) + s; }
    LeapWithinEra(e, c, q, s);
  }

  lemma Shift4(m: int, r: int)
    ensures (4 * m + r) % 4 == r % 4
  {
  }

  lemma Shift100(m: int, r: int)
    ensures (100 * m + r) % 100 == r % 100
  {
  }

  lemma Shift400(m: int, r: int)
    ensures (400 * m + r) % 400 == r % 400
  {
  }

  lemma LeapResidues(c: int, q: int, s: int)
    requires 0 <= c <= 3 && 0 <= q <= 24 && 0 <= s <= 3
    ensures (s + 1) % 4 == 0 <==> s == 3
    ensures (4 * q + s + 1) % 100 == 0 <==> s == 3 && q == 24
    ensures (100 * c + 4 * q + s + 1) % 400 == 0 <==> s == 3 && q == 24 && c == 3
  {
  }

  lemma LeapWithinEra(e: int, c: int, q: int, s: int)
    requires 0 <= c <= 3 && 0 <= q <= 24 && 0 <= s <= 3
    ensures IsLeapYear(400 * e + 100 * c + 4 * q + s + 1) <==> s == 3 && (q == 24 ==> c == 3)
  {
    Shift4(100 * e + 25 * c + q, s + 1);
    Shift100(4 * e + c, 4 * q + s + 1);
    Shift400(e, 100 * c + 4 * q + s + 1);
    LeapResidues(c, q, s);
  }

  /** The last lines of the conversion: month and day from the day of the March year. */
  function FromMarch(year: int, dayOfYear: int): Date {
    var monthPrime := (5 * dayOfYear + 2) / 153;
    var month := monthPrime + if monthPrime < 10 then 3 else -9;
    Date(WrapI32(if month <= 2 then year + 1 else year), month, dayOfYear - (153 * monthPrime + 2) / 5 + 1)
  }

  lemma CivilOfDayNumber(y: int, doy: int)
    requires y >= 0 && 0 <= doy < MarchYearLength(y)
    ensures CivilFromUnixDays(DaysBeforeYear(y) + doy - EPOCH_OFFSET) == FromMarch(y, doy)
  {
    EraDecomposition(y);
    var e, r := y / 400, y % 400;
    var c, q, s := r / 100, r % 100 / 4, r % 4;
    YearOfEraRecovered(c, q, s, doy);
    var doe := 36_524 * c + 1_461 * q + 365 * s + doy;
    assert DaysBeforeYear(y) + doy == DAYS_PER_ERA * e + doe && 0 <= doe < DAYS_PER_ERA;
    CivilWithinEra(e, doe, r, doy);
  }

  lemma CivilWithinEra(e: int, doe: int, r: int, doy: int)
    requires e >= 0 && 0 <= doe < DAYS_PER_ERA && YearOfEra(doe) == r >= 0
    requires doe == 365 * r + r / 4 - r / 100 + doy
    ensures CivilFromUnixDays(DAYS_PER_ERA * e + doe - EPOCH_OFFSET) == FromMarch(r + e * 400, doy)
  {
    hide YearOfEra;
    EraQuotient(e, doe);
  }

  lemma FromMarchOfDate(d: Date)
    requires ValidDate(d) && -0x8000_0000 <= d.year < 0x8000_0000
    ensures FromMarch(MarchYear(d), DayOfMarchYear(d)) == d
  {
    DayOfMarchYearBounds(d);
    assert WrapI32(d.year) == d.year;
  }

  lemma YearFitsI32(d: Date)
    requires ValidDate(d) && MarchYear(d) >= 0 && InClockRange(DayNumber(d) - EPOCH_OFFSET)
    ensures 0 <= d.year < 0x8000_0000
  {
    DayOfMarchYearBounds(d);
    var y := MarchYear(d);
    assert y / 4 - y / 100 + y / 400 >= 0;
    assert 365 * y <= DayNumber(d);
  }

  /** Every valid date from 0000-03-01 on survives the trip through its day number. */
  lemma CivilInvertsUnixDays(d: Date)
    requires ValidDate(d) && MarchYear(d) >= 0
    requires InClockRange(UnixDaysFromCivil(d))
    ensures CivilFromUnixDays(UnixDaysFromCivil(d)) == d
  {
    UnixDaysClosedForm(d);
    DayOfMarchYearBounds(d);
    YearFitsI32(d);
    FromMarchOfDate(d);
    CivilOfDayNumber(MarchYear(d), DayOfMarchYear(d));
  }

  /** The closed form is the calendar: `civil_from_unix_days` yields the date reached by walking
      day by day from 0000-03-01. */
  lemma CivilRefinesWalk(n: nat)
    requires InClockRange(n - EPOCH_OFFSET)
    ensures CivilFromUnixDays(n - EPOCH_OFFSET) == Walk(n)
  {
    UnixDaysOfWalk(n);
    WalkNeverBeforeEpoch(n);
    CivilInvertsUnixDays(Walk(n));
  }

  // ---------------------------------------------------------------------------
  // Exactly where the two functions are inverse
  // ---------------------------------------------------------------------------

  lemma UnixOfFromMarch(y: int, doy: int)
    requires 0 <= doy <= 366 && -0x7fff_ffff <= y < 0x7fff_ffff
    ensures UnixDaysFromCivil(FromMarch(y, doy)) == DaysBeforeYear(y) + doy - EPOCH_OFFSET
  {
    var d := FromMarch(y, doy);
    assert 0 <= (5 * doy + 2) / 153 <= 11;
    assert MarchMonth(d) == (5 * doy + 2) / 153 && MarchYear(d) == y;
    UnixDaysClosedForm(d);
  }

  /** Any day of an era is a year of the era and a day of that year. */
  lemma DecomposeDayOfEra(j: int) returns (c: int, q: int, s: int, t: int)
    requires 0 <= j < DAYS_PER_ERA
    ensures 0 <= c <= 3 && 0 <= q <= 24 && 0 <= s <= 3 && 0 <= t <= 365
    ensures t == 365 ==> s == 3 && (q == 24 ==> c == 3)
    ensures j == 36_524 * c + 1_461 * q + 365 * s + t
  {
    c := if j == 146_096 then 3 else j / 36_524;
    var j1 := j - 36_524 * c;
    q := j1 / 1_461;
    var j2 := j1 - 1_461 * q;
    s := if j2 == 1_460 then 3 else j2 / 365;
    t := j2 - 365 * s;
  }

  /** Before 0000-03-01 the era division of `civil_from_unix_days` lands one era too low, except on
      the last day of an era; the year still comes out right, the day one too late. */
  lemma YearOfEraOneEraLow(c: int, q: int, s: int, t: int)
    requires 0 <= c <= 3 && 0 <= q <= 24 && 0 <= s <= 3 && 0 <= t <= 365
    requires t == 365 ==> s == 3 && q != 24
    ensures YearOfEra(DAYS_PER_ERA + 36_524 * c + 1_461 * q + 365 * s + t) == 400 + 100 * c + 4 * q + s
  {
    var j := 36_524 * c + 1_461 * q + 365 * s + t;
    var doe := DAYS_PER_ERA + j;
    var borrow := if 24 * c + q + 365 * s + t + 97 >= 1_460 then 1 else 0;
    assert doe / 1_460 == 100 + 25 * c + q + borrow by {
      assert doe == 1_460 * (100 + 25 * c + q) + (24 * c + q + 365 * s + t + 97);
    }
    var carry := if 1_461 * q + 365 * s + t + 1 >= 36_524 then 1 else 0;
    assert doe / 36_524 == 4 + c + carry by {
      assert doe == 36_524 * (4 + c) + (1_461 * q + 365 * s + t + 1);
    }
    var last := if j == 146_095 then 1 else 0;
    assert doe / 146_096 == 1 + last;
    assert doe - doe / 1_460 + doe / 36_524 - doe / 146_096
        == 365 * (400 + 100 * c + 4 * q + s) + (t - borrow + carry - last);
    assert 0 <= t - borrow + carry - last < 365;
  }

  lemma CivilBeforeEpoch(k: int, j: int) returns (y: int, t: int)
    requires k < 0 && 0 <= j < DAYS_PER_ERA
    ensures 0 <= t <= 365 && DaysBeforeYear(y) + t == DAYS_PER_ERA * k + j
    ensures 400 * k <= y < 400 * k + 400
    ensures CivilFromUnixDays(DAYS_PER_ERA * k + j - EPOCH_OFFSET) == FromMarch(y, if j == 146_096 then t else t + 1)
  {
    var c, q, s;
    c, q, s, t := DecomposeDayOfEra(j);
    var r := 100 * c + 4 * q + s;
    y := r + 400 * k;
    ComposeYear(k, c, q, s);
    EraDecomposition(y);
    if j == 146_096 {
      EraQuotient(k, 0);
      YearOfEraRecovered(c, q, s, t);
      CivilFromEra(k, j, r, t);
    } else {
      CivilOneEraLow(k, c, q, s, t);
    }
  }

  lemma CivilOneEraLow(k: int, c: int, q: int, s: int, t: int)
    requires k < 0 && 0 <= c <= 3 && 0 <= q <= 24 && 0 <= s <= 3 && 0 <= t <= 365
    requires t == 365 ==> s == 3 && q != 24
    ensures var j := 36_524 * c + 1_461 * q + 365 * s + t;
            CivilFromUnixDays(DAYS_PER_ERA * k + j - EPOCH_OFFSET) == FromMarch(100 * c + 4 * q + s + 400 * k, t + 1)
  {
    hide YearOfEra, CivilFromUnixDays, FromMarch;
    var j := 36_524 * c + 1_461 * q + 365 * s + t;
    var r := 100 * c + 4 * q + s;
    YearOfEraOneEraLow(c, q, s, t);
    ComposeYear(0, c, q, s);
    var doe, low := DAYS_PER_ERA + j, k - 1;
    assert DAYS_PER_ERA * low + doe == DAYS_PER_ERA * k + j;
    EraQuotient(low, j + 1);
    assert DAYS_PER_ERA * low + doe - 146_096 == 146_097 * low + (j + 1);
    assert (400 + r) / 4 == 100 + 25 * c + q && (400 + r) / 100 == 4 + c;
    CivilFromEra(low, doe, 400 + r, t + 1);
    assert 400 + r + low * 400 == r + 400 * k;
  }

  lemma ComposeYear(k: int, c: int, q: int, s: int)
    requires 0 <= c <= 3 && 0 <= q <= 24 && 0 <= s <= 3
    ensures var y := 100 * c + 4 * q + s + 400 * k; var r := y % 400;
            y / 400 == k && r == 100 * c + 4 * q + s && r / 100 == c && r % 100 / 4 == q && r % 4 == s
            && r / 4 == 25 * c + q
  {
    var r := 100 * c + 4 * q + s;
    assert (r + 400 * k) / 400 == k && (r + 400 * k) % 400 == r;
    assert r == 4 * (25 * c + q) + s;
  }

  lemma EraQuotient(k: int, i: int)
    requires 0 <= i < 146_097
    ensures (146_097 * k + i) / 146_097 == k
  {
  }

  lemma CivilFromEra(e: int, doe: int, r: int, doy: int)
    requires DAYS_PER_ERA * e + doe < 0
    requires (DAYS_PER_ERA * e + doe - 146_096) / 146_097 == e
    requires doe >= 0 && YearOfEra(doe) == r >= 0 && doe == 365 * r + r / 4 - r / 100 + doy
    ensures CivilFromUnixDays(DAYS_PER_ERA * e + doe - EPOCH_OFFSET) == FromMarch(r + e * 400, doy)
  {
    hide YearOfEra;
  }

  /** A day before 0000-03-01 that is not the last day of a 400-year era. */
  predicate LandsOneEraLow(daysSinceUnixEpoch: int) {
    daysSinceUnixEpoch < -EPOCH_OFFSET && (daysSinceUnixEpoch + EPOCH_OFFSET) % DAYS_PER_ERA != 146_096
  }

  /** The comment in the source calls the two functions inverse. For every day an i64 millisecond
      clock can name, they are exactly on the days where the era division does not land low; on
      the others the trip is off by one day. */
  lemma InverseExactly(n: int)
    requires InClockRange(n)
    ensures UnixDaysFromCivil(CivilFromUnixDays(n)) == n <==> !LandsOneEraLow(n)
    ensures LandsOneEraLow(n) ==> UnixDaysFromCivil(CivilFromUnixDays(n)) == n + 1
  {
    hide CivilFromUnixDays, UnixDaysFromCivil, FromMarch, DaysBeforeYear;
    if n >= -EPOCH_OFFSET {
      CivilRefinesWalk(n + EPOCH_OFFSET);
      UnixDaysOfWalk(n + EPOCH_OFFSET);
    } else {
      var k, j := (n + EPOCH_OFFSET) / DAYS_PER_ERA, (n + EPOCH_OFFSET) % DAYS_PER_ERA;
      var y, t := CivilBeforeEpoch(k, j);
      UnixOfFromMarch(y, if j == 146_096 then t else t + 1);
    }
  }

  // ---------------------------------------------------------------------------
  // Formatted dates
  // ---------------------------------------------------------------------------

  /** `{year:04}-{month:02}-{day:02}` */
  function FormatDate(d: Date): string {
    Padded(d.year, 4) + "-" + Padded(d.month, 2) + "-" + Padded(d.day, 2)
  }

  function UtcDateFromUnixDays(days: int): string { FormatDate(CivilFromUnixDays(days)) }

  /** Ten characters, dashes at 4 and 7, ASCII digits elsewhere. A string of ten bytes that passes
      the character test is ASCII, so counting characters is counting bytes here. */
  predicate LooksLikeDate(s: string) {
    |s| == 10 && forall i | 0 <= i < 10 :: if i == 4 || i == 7 then s[i] == '-' else IsAsciiDigit(s[i])
  }

  predicate IsReleasedTmdbDate(date: string, today: string) {
    var date := Trim(date);
    LooksLikeDate(date) && LexLe(date, today)
  }

  lemma FormattedDateParts(d: Date)
    requires ValidDate(d) && 0 <= d.year <= 9999
    ensures LooksLikeDate(FormatDate(d)) && Trim(FormatDate(d)) == FormatDate(d)
    ensures |Padded(d.year, 4)| == 4 && |Padded(d.month, 2)| == 2 && |Padded(d.day, 2)| == 2
  {
    PaddedDigits(d.year, 4);
    PaddedDigits(d.month, 2);
    PaddedDigits(d.day, 2);
    var s := FormatDate(d);
    var y, m, dd := Padded(d.year, 4), Padded(d.month, 2), Padded(d.day, 2);
    assert s[..4] == y && s[4] == '-' && s[5..7] == m && s[7] == '-' && s[8..] == dd;
    forall i | 0 <= i < 10 && i != 4 && i != 7 ensures IsAsciiDigit(s[i]) {
      assert s[i] == if i < 4 then y[i] else if i < 7 then m[i - 5] else dd[i - 8];
    }
    TrimmedIsFixed(s);
  }

  lemma DashedCompare(ya: string, yb: string, ma: string, mb: string, da: string, db: string)
    requires |ya| == |yb| && |ma| == |mb|
    ensures LexLe(ya + "-" + ma + "-" + da, yb + "-" + mb + "-" + db)
       <==> if ya != yb then LexLe(ya, yb) else if ma != mb then LexLe(ma, mb) else LexLe(da, db)
  {
    var ra, rb := "-" + ma + "-" + da, "-" + mb + "-" + db;
    assert ya + "-" + ma + "-" + da == ya + ra && yb + "-" + mb + "-" + db == yb + rb;
    LexByPrefix(ya, yb, ra, rb);
    assert ra == "-" + ma + ("-" + da) && rb == "-" + mb + ("-" + db);
    LexByPrefix("-" + ma, "-" + mb, "-" + da, "-" + db);
    LexByPrefix("-", "-", ma, mb);
    LexByPrefix("-", "-", da, db);
    assert "-" + ma == "-" + mb ==> ("-" + ma)[1..] == ("-" + mb)[1..];
    assert ("-" + ma)[1..] == ma && ("-" + mb)[1..] == mb;
  }

  lemma PartsCompare(m: nat, n: nat, width: nat)
    requires (width == 2 && m < 100 && n < 100) || (width == 4 && m < 10_000 && n < 10_000)
    ensures |Padded(m, width)| == |Padded(n, width)|
    ensures LexLe(Padded(m, width), Padded(n, width)) <==> m <= n
    ensures Padded(m, width) == Padded(n, width) <==> m == n
  {
    PaddedDigits(m, width);
    PaddedDigits(n, width);
    LexIsNumeric(Padded(m, width), Padded(n, width));
  }

  /** As text, formatted dates are ordered like the dates. */
  lemma FormattedDatesCompare(a: Date, b: Date)
    requires ValidDate(a) && 0 <= a.year <= 9999
    requires ValidDate(b) && 0 <= b.year <= 9999
    ensures LexLe(FormatDate(a), FormatDate(b)) <==> !Before(b, a)
  {
    PartsCompare(a.year, b.year, 4);
    PartsCompare(a.month, b.month, 2);
    PartsCompare(a.day, b.day, 2);
    DashedCompare(Padded(a.year, 4), Padded(b.year, 4), Padded(a.month, 2), Padded(b.month, 2),
                  Padded(a.day, 2), Padded(b.day, 2));
  }

  lemma {:induction false} WalkMonotone(a: nat, b: nat)
    requires a < b
    ensures Before(Walk(a), Walk(b))
    decreases b
  {
    if a < b - 1 { WalkMonotone(a, b - 1); }
  }

  /** The day numbers whose dates print with four-digit years, from 0000-03-01 to 9999-12-31. */
  const FIRST_PRINTABLE_DAY := -719_468
  const LAST_PRINTABLE_DAY := 2_932_896

  lemma PrintableYear(n: int)
    requires FIRST_PRINTABLE_DAY <= n <= LAST_PRINTABLE_DAY
    ensures var d := CivilFromUnixDays(n);
            ValidDate(d) && 0 <= d.year <= 9999 && d == Walk(n + EPOCH_OFFSET)
  {
    CivilRefinesWalk(n + EPOCH_OFFSET);
    WalkNeverBeforeEpoch(n + EPOCH_OFFSET);
    var last := Date(9999, 12, 31);
    UnixDaysOfWalk(n + EPOCH_OFFSET);
    UnixDaysClosedForm(Walk(n + EPOCH_OFFSET));
    DayOfMarchYearBounds(Walk(n + EPOCH_OFFSET));
    if Walk(n + EPOCH_OFFSET).year >= 10_000 {
      DaysBeforeYearMonotone(if Walk(n + EPOCH_OFFSET).month <= 2 then 9_999 else 10_000,
          MarchYear(Walk(n + EPOCH_OFFSET)));
      assert false;
    }
  }

  lemma DaysBeforeYearMonotone(a: int, b: int)
    requires a <= b
    ensures DaysBeforeYear(a) <= DaysBeforeYear(b)
    decreases b - a
  {
    if a < b {
      DaysBeforeYearMonotone(a, b - 1);
      DaysBeforeNextYear(b - 1);
    }
  }

  lemma WalkedDatesCompare(a: nat, b: nat)
    requires Walk(a).year <= 9999 && Walk(b).year <= 9999
    ensures IsReleasedTmdbDate(FormatDate(Walk(a)), FormatDate(Walk(b))) <==> a <= b
  {
    WalkNeverBeforeEpoch(a);
    WalkNeverBeforeEpoch(b);
    FormattedDateParts(Walk(a));
    FormattedDatesCompare(Walk(a), Walk(b));
    if a < b { WalkMonotone(a, b); }
    if b < a { WalkMonotone(b, a); }
  }

  /** The release filter on formatted days is the order of the days. */
  lemma ReleasedIsDayOrder(a: int, today: int)
    requires FIRST_PRINTABLE_DAY <= a <= LAST_PRINTABLE_DAY
    requires FIRST_PRINTABLE_DAY <= today <= LAST_PRINTABLE_DAY
    ensures IsReleasedTmdbDate(UtcDateFromUnixDays(a), UtcDateFromUnixDays(today)) <==> a <= today
  {
    PrintableYear(a);
    PrintableYear(today);
    WalkedDatesCompare(a + EPOCH_OFFSET, today + EPOCH_OFFSET);
  }

  lemma DatePieces(s: string) returns (y: string, m: string, d: string)
    requires LooksLikeDate(s)
    ensures s == y + "-" + m + "-" + d && |y| == 4 && |m| == 2 && |d| == 2 && y == s[..4] && m == s[5..7] && d == s[8..]
    ensures AllDigits(y) && AllDigits(m) && AllDigits(d)
  {
    y, m, d := s[..4], s[5..7], s[8..];
    assert s[4] == '-' && s[7] == '-';
    forall c | c in y ensures IsAsciiDigit(c) { var i :| 0 <= i < 4 && y[i] == c; assert s[i] == c; }
    forall c | c in m ensures IsAsciiDigit(c) { var i :| 0 <= i < 2 && m[i] == c; assert s[i + 5] == c; }
    forall c | c in d ensures IsAsciiDigit(c) { var i :| 0 <= i < 2 && d[i] == c; assert s[i + 8] == c; }
  }

  /** YYYY-MM-DD */
  predicate WrittenAs(text: string, y: string, m: string, d: string) {
    text == y + "-" + m + "-" + d && |y| == 4 && |m| == 2 && |d| == 2 && AllDigits(y) && AllDigits(m) && AllDigits(d)
  }

  /** Not later than a date, by the numbers of year, month and day. */
  predicate NoLater(year: nat, month: nat, day: nat, d: Date) {
    year < d.year || (year == d.year && (month < d.month || (month == d.month && day <= d.day)))
  }

  lemma TextNoLater(y: string, m: string, dd: string, d: Date)
    requires AllDigits(y) && AllDigits(m) && AllDigits(dd) && |y| == 4 && |m| == 2 && |dd| == 2
    requires ValidDate(d) && 0 <= d.year <= 9999
    ensures LexLe(y + "-" + m + "-" + dd, FormatDate(d))
       <==> NoLater(DigitsValue(y), DigitsValue(m), DigitsValue(dd), d)
  {
    hide LexLe, DigitsValue, Padded;
    PaddedDigits(d.year, 4);
    PaddedDigits(d.month, 2);
    PaddedDigits(d.day, 2);
    LexIsNumeric(y, Padded(d.year, 4));
    LexIsNumeric(m, Padded(d.month, 2));
    LexIsNumeric(dd, Padded(d.day, 2));
    DashedCompare(y, Padded(d.year, 4), m, Padded(d.month, 2), dd, Padded(d.day, 2));
  }

  /** Of any release date, whatever text it is: it counts as released exactly if, without outer blanks, it is
      written YYYY-MM-DD and its numbers, day of a calendar or not, are no later than today's. */
  lemma ReleasedExactly(text: string, today: int)
    requires FIRST_PRINTABLE_DAY <= today <= LAST_PRINTABLE_DAY
    ensures IsReleasedTmdbDate(text, UtcDateFromUnixDays(today))
       <==> exists y, m, d :: WrittenAs(Trim(text), y, m, d)
                              && NoLater(DigitsValue(y), DigitsValue(m), DigitsValue(d), CivilFromUnixDays(today))
  {
    hide LexLe, DigitsValue, Trim, CivilFromUnixDays;
    PrintableYear(today);
    var date := CivilFromUnixDays(today);
    var t := Trim(text);
    if LooksLikeDate(t) {
      var y, m, d := DatePieces(t);
      TextNoLater(y, m, d, date);
      assert WrittenAs(t, y, m, d);
    }
    if y, m, d :| WrittenAs(t, y, m, d) && NoLater(DigitsValue(y), DigitsValue(m), DigitsValue(d), date) {
      DigitsLookLikeDate(y, m, d);
      TextNoLater(y, m, d, date);
    }
  }

  lemma DigitsLookLikeDate(y: string, m: string, d: string)
    requires AllDigits(y) && AllDigits(m) && AllDigits(d) && |y| == 4 && |m| == 2 && |d| == 2
    ensures LooksLikeDate(y + "-" + m + "-" + d)
  {
    var s := y + "-" + m + "-" + d;
    forall i | 0 <= i < 10 ensures if i == 4 || i == 7 then s[i] == '-' else IsAsciiDigit(s[i]) {
      if i < 4 { assert s[i] == y[i]; }
      else if 5 <= i < 7 { assert s[i] == m[i - 5]; }
      else if i >= 8 { assert s[i] == d[i - 8]; }
    }
  }

  /** What a formatted day says: its year in four digits, its month and its day in two. */
  lemma FormattedDaySays(n: int) returns (y: string, m: string, d: string)
    requires FIRST_PRINTABLE_DAY <= n <= LAST_PRINTABLE_DAY
    ensures WrittenAs(UtcDateFromUnixDays(n), y, m, d)
    ensures var date := CivilFromUnixDays(n);
            DigitsValue(y) == date.year && DigitsValue(m) == date.month && DigitsValue(d) == date.day
  {
    hide DigitsValue, CivilFromUnixDays, Padded;
    PrintableYear(n);
    var date := CivilFromUnixDays(n);
    y, m, d := Padded(date.year, 4), Padded(date.month, 2), Padded(date.day, 2);
    PaddedDigits(date.year, 4);
    PaddedDigits(date.month, 2);
    PaddedDigits(date.day, 2);
  }

  // ---------------------------------------------------------------------------
  // Past 9999-12-31
  // ---------------------------------------------------------------------------

  /** The number that the first four digits of a year make. */
  function LeadingYear(y: nat): (r: nat)
    ensures r < 10_000
  {
    if y < 10_000 then y else LeadingYear(y / 10)
  }

  lemma {:induction false} LeadingDigits(y: nat)
    requires y >= 10_000
    ensures |NatToString(y)| >= 5 && NatToString(y)[..4] == Padded(LeadingYear(y), 4)
  {
    var shorter := NatToString(y / 10);
    assert NatToString(y) == shorter + [DigitChar(y % 10)];
    if y / 10 >= 10_000 {
      LeadingDigits(y / 10);
    } else {
      DigitCount(y / 10);
    }
    assert NatToString(y)[..4] == shorter[..4];
  }

  /** A date that prints a five-digit year never looks like a date. */
  lemma LongYearIsNoDate(d: Date)
    requires ValidDate(d) && d.year >= 10_000
    ensures Padded(d.year, 4) == NatToString(d.year) && !LooksLikeDate(Trim(FormatDate(d)))
  {
    LeadingDigits(d.year);
    PaddedDigits(d.month, 2);
    PaddedDigits(d.day, 2);
    var s := FormatDate(d);
    var y, dd := NatToString(d.year), Padded(d.day, 2);
    assert s[0] == y[0] && y[0] in y && s[|s| - 1] == dd[1] && dd[1] in dd;
    TrimmedIsFixed(s);
  }

  lemma LexDashBelowDigit(s: string, t: string)
    requires s != "" && t != "" && s[0] == '-' && IsAsciiDigit(t[0])
    ensures LexLe(s, t)
  {
  }

  lemma SplitText(s: string, a: string, b: string, c: string, d: string)
    requires |s| >= 4
    ensures s + a + b + c + d == s[..4] + (s[4..] + a + b + c + d)
  {
    assert s == s[..4] + s[4..];
  }

  lemma LongText(d: Date) returns (rest: string)
    requires ValidDate(d) && d.year >= 10_000
    ensures FormatDate(d) == Padded(LeadingYear(d.year), 4) + rest && rest != "" && IsAsciiDigit(rest[0])
  {
    hide NatToString, LeadingYear, Padded, LooksLikeDate, ValidDate;
    LeadingDigits(d.year);
    LongYearIsNoDate(d);
    var digits := NatToString(d.year);
    rest := digits[4..] + "-" + Padded(d.month, 2) + "-" + Padded(d.day, 2);
    SplitText(digits, "-", Padded(d.month, 2), "-", Padded(d.day, 2));
    assert digits[4] in digits && rest[0] == digits[4];
  }

  lemma ShortText(d: Date) returns (rest: string)
    ensures FormatDate(d) == Padded(d.year, 4) + rest && rest != "" && rest[0] == '-'
  {
    hide Padded;
    rest := "-" + Padded(d.month, 2) + "-" + Padded(d.day, 2);
  }

  /** Against a five-digit year, a four-digit year is compared with its first four digits. */
  lemma ComparedWithLongYear(a: Date, b: Date)
    requires ValidDate(a) && 0 <= a.year <= 9999 && ValidDate(b) && b.year >= 10_000
    ensures LexLe(FormatDate(a), FormatDate(b)) <==> a.year <= LeadingYear(b.year)
  {
    hide Padded, FormatDate, LeadingYear, LexLe;
    var ra := ShortText(a);
    var rb := LongText(b);
    PartsCompare(a.year, LeadingYear(b.year), 4);
    LexDashBelowDigit(ra, rb);
    LexByPrefix(Padded(a.year, 4), Padded(LeadingYear(b.year), 4), ra, rb);
  }

  lemma LastDays()
    ensures CivilFromUnixDays(LAST_PRINTABLE_DAY) == Date(9999, 12, 31)
    ensures CivilFromUnixDays(LAST_PRINTABLE_DAY + 1) == Date(10_000, 1, 1)
  {
    var last, next := Date(9999, 12, 31), Date(10_000, 1, 1);
    assert UnixDaysFromCivil(last) == LAST_PRINTABLE_DAY && UnixDaysFromCivil(next) == LAST_PRINTABLE_DAY + 1;
    hide CivilFromUnixDays;
    CivilInvertsUnixDays(last);
    CivilInvertsUnixDays(next);
  }

  lemma LongYear(n: int)
    requires LAST_PRINTABLE_DAY < n && InClockRange(n)
    ensures ValidDate(CivilFromUnixDays(n)) && CivilFromUnixDays(n).year >= 10_000
  {
    hide CivilFromUnixDays, UnixDaysFromCivil;
    LastDays();
    CivilRefinesWalk(LAST_PRINTABLE_DAY + EPOCH_OFFSET);
    CivilRefinesWalk(n + EPOCH_OFFSET);
    WalkMonotone(LAST_PRINTABLE_DAY + EPOCH_OFFSET, n + EPOCH_OFFSET);
  }

  /** Once a day past 9999-12-31 is involved, the filter refuses every such day, and compares an earlier
      day with the first four digits of today's year. So it is right exactly when a day past the end is
      still to come, or an earlier day's year is at most those digits. */
  lemma PastLastPrintableDayExactly(a: int, today: int)
    requires FIRST_PRINTABLE_DAY <= a && InClockRange(a) && FIRST_PRINTABLE_DAY <= today && InClockRange(today)
    requires LAST_PRINTABLE_DAY < a || LAST_PRINTABLE_DAY < today
    ensures (IsReleasedTmdbDate(UtcDateFromUnixDays(a), UtcDateFromUnixDays(today)) <==> a <= today)
       <==> if a > LAST_PRINTABLE_DAY then a > today
            else CivilFromUnixDays(a).year <= LeadingYear(YearOf(today))
  {
    hide CivilFromUnixDays, LooksLikeDate, LexLe;
    if a > LAST_PRINTABLE_DAY {
      LongYear(a);
      LongYearIsNoDate(CivilFromUnixDays(a));
    } else {
      LongYear(today);
      PrintableYear(a);
      FormattedDateParts(CivilFromUnixDays(a));
      ComparedWithLongYear(CivilFromUnixDays(a), CivilFromUnixDays(today));
    }
  }

  function YearOf(n: int): nat
    requires FIRST_PRINTABLE_DAY <= n && InClockRange(n)
  {
    YearIsNat(n);
    CivilFromUnixDays(n).year
  }

  lemma YearIsNat(n: int)
    requires FIRST_PRINTABLE_DAY <= n && InClockRange(n)
    ensures CivilFromUnixDays(n).year >= 0
  {
    if n <= LAST_PRINTABLE_DAY { PrintableYear(n); } else { LongYear(n); }
  }

  /** On 10000-01-01 it drops everything released after the year 1000. */
  lemma FirstLongYearFails(a: int)
    requires FIRST_PRINTABLE_DAY <= a <= LAST_PRINTABLE_DAY && CivilFromUnixDays(a).year > 1000
    ensures !IsReleasedTmdbDate(UtcDateFromUnixDays(a), UtcDateFromUnixDays(LAST_PRINTABLE_DAY + 1))
  {
    hide LooksLikeDate, LexLe, CivilFromUnixDays;
    LastDays();
    assert LeadingYear(10_000) == LeadingYear(1_000) == 1_000;
    PastLastPrintableDayExactly(a, LAST_PRINTABLE_DAY + 1);
  }
}
