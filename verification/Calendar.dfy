/** Calendar arithmetic and RFC 3339 printing.  The prober compares printed instants, never
    numbers, so its schedule is right only if the printed order is the order of time. */
module Calendar {
  import opened Text

  datatype Date = Date(year: int, month: int, day: int)

  // The proleptic Gregorian calendar, stated without the algorithm

  predicate IsLeap(y: int) {
    y % 4 == 0 && (y % 100 != 0 || y % 400 == 0)
  }

  function DaysInMonth(y: int, m: int): int {
    if m == 2 then (if IsLeap(y) then 29 else 28)
    else if m == 4 || m == 6 || m == 9 || m == 11 then 30
    else 31
  }

  predicate ValidDate(d: Date) {
    1 <= d.month <= 12 && 1 <= d.day <= DaysInMonth(d.year, d.month)
  }

  function NextDay(d: Date): Date {
    if d.day < DaysInMonth(d.year, d.month) then Date(d.year, d.month, d.day + 1)
    else if d.month < 12 then Date(d.year, d.month + 1, 1)
    else Date(d.year + 1, 1, 1)
  }

  predicate Earlier(a: Date, b: Date) {
    a.year < b.year
    || (a.year == b.year && (a.month < b.month || (a.month == b.month && a.day < b.day)))
  }

  /** Days from 1970-01-01 to 1 January of year `y`. */
  function YearStart(y: int): int {
    365 * (y - 1) + (y - 1) / 4 - (y - 1) / 100 + (y - 1) / 400 - 719_162
  }

  function MonthStart(y: int, m: int): int
    requires 1 <= m <= 12
  {
    [0, 31, 59, 90, 120, 151, 181, 212, 243, 273, 304, 334][m - 1]
    + if m > 2 && IsLeap(y) then 1 else 0
  }

  /** The day count: 1970-01-01 is day 0. */
  function DayNumber(d: Date): int
    requires ValidDate(d)
  {
    YearStart(d.year) + MonthStart(d.year, d.month) + d.day - 1
  }

  lemma YearLength(y: int)
    ensures YearStart(y + 1) == YearStart(y) + if IsLeap(y) then 366 else 365
  {
    assert y / 4 == (y - 1) / 4 + if y % 4 == 0 then 1 else 0;
    assert y / 100 == (y - 1) / 100 + if y % 100 == 0 then 1 else 0;
    assert y / 400 == (y - 1) / 400 + if y % 400 == 0 then 1 else 0;
  }

  lemma {:induction false} YearsApart(a: int, b: int)
    requires a <= b
    ensures YearStart(a) + 365 * (b - a) <= YearStart(b)
    decreases b - a
  {
    if a < b {
      YearsApart(a, b - 1);
      YearLength(b - 1);
    }
  }

  lemma WithinYear(d: Date)
    requires ValidDate(d)
    ensures YearStart(d.year) <= DayNumber(d) < YearStart(d.year + 1)
  {
    YearLength(d.year);
  }

  /** The day count orders valid dates as the calendar does. */
  lemma DayNumberMonotone(a: Date, b: Date)
    requires ValidDate(a) && ValidDate(b)
    ensures Earlier(a, b) <==> DayNumber(a) < DayNumber(b)
    ensures a == b <==> DayNumber(a) == DayNumber(b)
  {
    hide DayNumber, YearStart, DaysInMonth;
    WithinYear(a);
    WithinYear(b);
    if a.year < b.year {
      YearsApart(a.year + 1, b.year);
    } else if b.year < a.year {
      YearsApart(b.year + 1, a.year);
    } else {
      OrderWithinYear(a, b);
    }
  }

  lemma OrderWithinYear(a: Date, b: Date)
    requires ValidDate(a) && ValidDate(b) && a.year == b.year
    ensures Earlier(a, b) <==> DayNumber(a) < DayNumber(b)
    ensures a == b <==> DayNumber(a) == DayNumber(b)
  {
    hide YearStart;
  }

  lemma NextDayCounts(d: Date)
    requires ValidDate(d)
    ensures ValidDate(NextDay(d)) && DayNumber(NextDay(d)) == DayNumber(d) + 1
  {
    YearLength(d.year);
  }

  // The algorithm

  /** Division that rounds toward zero. */
  function TruncDiv(a: int, b: int): int
    requires b > 0
  {
    if a >= 0 then a / b else -((-a) / b)
  }

  function Era(z: int): int {
    if z >= 0 then TruncDiv(z, 146_097) else TruncDiv(z - 146_096, 146_097)
  }

  function YearOfEra(doe: int): int {
    (doe - doe / 1460 + doe / 36_524 - doe / 146_096) / 365
  }

  function DayOfYear(doe: int, yoe: int): int {
    doe - (365 * yoe + yoe / 4 - yoe / 100)
  }

  function DaysToYmd(days: int): Date {
    var z := days + 719_468;
    var era := Era(z);
    FromEraDay(era, z - era * 146_097)
  }

  function FromEraDay(era: int, doe: int): Date {
    var yoe := YearOfEra(doe);
    var y := yoe + era * 400;
    FromMarch(y, DayOfYear(doe, yoe))
  }

  function MonthFromMarch(doy: int): int {
    (5 * doy + 2) / 153
  }

  /** The date `doy` days after 1 March of year `y`. */
  function FromMarch(y: int, doy: int): Date {
    var mp := MonthFromMarch(doy);
    var d := doy - (153 * mp + 2) / 5 + 1;
    var m := if mp < 10 then mp + 3 else mp - 9;
    Date(if m <= 2 then y + 1 else y, m, d)
  }

  /** The two truncating branches together divide by rounding down. */
  lemma EraRoundsDown(z: int)
    ensures Era(z) * 146_097 <= z <= Era(z) * 146_097 + 146_096
  {
  }

  /** A day of the era, split into century, four-year block, year of the block and day; each
      last century and last year may be a day longer. */
  ghost predicate EraSplit(doe: int, c: int, q: int, t: int, u: int) {
    && 0 <= c <= 3 && 0 <= q <= 24 && 0 <= t <= 3 && 0 <= u <= 365
    && doe == 36_524 * c + 1461 * q + 365 * t + u
    && (u == 365 ==> t == 3)
    && 1461 * q + 365 * t + u <= 36_523 + if c == 3 then 1 else 0
  }

  lemma SplitEra(doe: int) returns (c: int, q: int, t: int, u: int)
    requires 0 <= doe <= 146_096
    ensures EraSplit(doe, c, q, t, u)
  {
    c := if doe == 146_096 then 3 else doe / 36_524;
    var r := doe - 36_524 * c;
    q := r / 1461;
    var s := r - 1461 * q;
    t := if s == 1460 then 3 else s / 365;
    u := s - 365 * t;
  }

  /** The correction terms cancel the leap days before the year. */
  lemma YearOfEraIs(doe: int, c: int, q: int, t: int, u: int)
    requires EraSplit(doe, c, q, t, u)
    ensures YearOfEra(doe) == 100 * c + 4 * q + t
  {
    var y := 100 * c + 4 * q + t;
    var slack := 24 * c + q + 365 * t + u;
    assert doe == 1460 * (25 * c + q) + slack;
    assert doe / 1460 == 25 * c + q + if slack >= 1460 then 1 else 0;
    assert doe / 36_524 == c + if doe == 146_096 then 1 else 0;
    assert doe / 146_096 == if doe == 146_096 then 1 else 0;
    var n := doe - doe / 1460 + doe / 36_524 - doe / 146_096;
    assert n == 365 * y + u - if slack >= 1460 then 1 else 0;
    assert 365 * y <= n < 365 * (y + 1);
  }

  /** The year of the era, counted from 1 March, brackets every day of it. */
  lemma YearOfEraBrackets(doe: int)
    requires 0 <= doe <= 146_096
    ensures var y := YearOfEra(doe);
      0 <= y <= 399
      && 365 * y + y / 4 - y / 100 <= doe
      && doe < 365 * (y + 1) + (y + 1) / 4 - (y + 1) / 100 + (y + 1) / 400
  {
    hide YearOfEra;
    var c, q, t, u := SplitEra(doe);
    YearOfEraIs(doe, c, q, t, u);
    LeapDays(c, q, t);
  }

  /** The leap days before a year of the era, and before the next one. */
  lemma LeapDays(c: int, q: int, t: int)
    requires 0 <= c <= 3 && 0 <= q <= 24 && 0 <= t <= 3
    ensures var y := 100 * c + 4 * q + t;
      && y / 4 == 25 * c + q && y / 100 == c
      && (y + 1) / 4 == 25 * c + q + (if t == 3 then 1 else 0)
      && (y + 1) / 100 == c + (if q == 24 && t == 3 then 1 else 0)
      && (y + 1) / 400 == if y == 399 then 1 else 0
  {
  }

  /** A day counted from 1 March of year `y` falls on the month and day the code computes. */
  lemma MarchBasedDay(y: int, doy: int)
    requires 0 <= doy < 365 + if IsLeap(y + 1) then 1 else 0
    ensures 0 <= MonthFromMarch(doy) <= 11
    ensures ValidDate(FromMarch(y, doy))
    ensures DayNumber(FromMarch(y, doy)) == YearStart(y + 1) - 306 + doy
  {
    hide MonthFromMarch;
    YearLength(y);
    MarchMonths(doy);
  }

  /** The month formula against the table of months counted from March. */
  lemma MarchMonths(doy: int)
    requires 0 <= doy <= 365
    ensures var mp, starts := MonthFromMarch(doy), [0, 31, 61, 92, 122, 153, 184, 214, 245, 275, 306, 337, 366];
      && 0 <= mp <= 11 && (153 * mp + 2) / 5 == starts[mp]
      && starts[mp] <= doy < starts[mp + 1]
  {
    var mp := MonthFromMarch(doy);
    assert 153 * mp <= 5 * doy + 2 < 153 * mp + 153;
  }

  /** What holds inside the computation: none of the unsigned subtractions goes below zero. */
  ghost predicate IntermediateRanges(days: int) {
    var z := days + 719_468;
    var doe := z - Era(z) * 146_097;
    var yoe := YearOfEra(doe);
    var doy := DayOfYear(doe, yoe);
    && 0 <= doe <= 146_096
    && 0 <= doe - doe / 1460 && 0 <= doe - doe / 1460 + doe / 36_524 - doe / 146_096
    && 0 <= yoe <= 399
    && 0 <= doy <= 365
    && 0 <= MonthFromMarch(doy) <= 11
  }

  /** A year of era `era` starts where the era's own leap rules put it. */
  lemma YearStartInEra(era: int, yoe: int)
    requires 0 <= yoe <= 400
    ensures YearStart(yoe + era * 400 + 1)
      == 146_097 * era + 365 * yoe + yoe / 4 - yoe / 100 + yoe / 400 - 719_162
  {
    var y := yoe + era * 400;
    assert y / 4 == yoe / 4 + 100 * era;
    assert y / 100 == yoe / 100 + 4 * era;
    assert y / 400 == yoe / 400 + era;
  }

  lemma DayOfYearRange(era: int, doe: int)
    requires 0 <= doe <= 146_096
    ensures var yoe := YearOfEra(doe);
      var y := yoe + era * 400;
      && 0 <= yoe <= 399
      && 0 <= DayOfYear(doe, yoe) < 365 + (if IsLeap(y + 1) then 1 else 0)
      && YearStart(y + 1) - 306 + DayOfYear(doe, yoe) == era * 146_097 + doe - 719_468
  {
    YearOfEraBrackets(doe);
    var yoe := YearOfEra(doe);
    YearStartInEra(era, yoe);
    YearStartInEra(era, yoe + 1);
    YearLength(yoe + era * 400 + 1);
  }

  lemma EraDayRoundTrip(era: int, doe: int)
    requires 0 <= doe <= 146_096
    ensures ValidDate(FromEraDay(era, doe))
    ensures DayNumber(FromEraDay(era, doe)) == era * 146_097 + doe - 719_468
  {
    hide YearOfEra, DayOfYear, FromMarch, DayNumber, YearStart, IsLeap, ValidDate;
    var yoe := YearOfEra(doe);
    var doy := DayOfYear(doe, yoe);
    DayOfYearRange(era, doe);
    MarchBasedDay(yoe + era * 400, doy);
  }

  /** Converting a day number and counting back gives the same day, for every day number. */
  lemma CivilRoundTrip(days: int)
    ensures ValidDate(DaysToYmd(days))
    ensures DayNumber(DaysToYmd(days)) == days
  {
    hide Era, FromEraDay, DayNumber, ValidDate;
    var z := days + 719_468;
    EraRoundsDown(z);
    EraDayRoundTrip(Era(z), z - Era(z) * 146_097);
  }

  lemma RangesHold(days: int)
    ensures IntermediateRanges(days)
  {
    hide YearOfEra, DayOfYear, MonthFromMarch, FromMarch, Era, YearStart, DayNumber, ValidDate, IsLeap;
    var z := days + 719_468;
    EraRoundsDown(z);
    var doe := z - Era(z) * 146_097;
    DayOfYearRange(Era(z), doe);
    var yoe := YearOfEra(doe);
    MarchBasedDay(yoe + Era(z) * 400, DayOfYear(doe, yoe));
  }

  /** ... and the other way round, for every date of the calendar. */
  lemma DayRoundTrip(d: Date)
    requires ValidDate(d)
    ensures DaysToYmd(DayNumber(d)) == d
  {
    hide DaysToYmd, DayNumber, ValidDate, Earlier;
    CivilRoundTrip(DayNumber(d));
    DayNumberMonotone(d, DaysToYmd(DayNumber(d)));
  }

  lemma EpochIsDayZero()
    ensures DaysToYmd(0) == Date(1970, 1, 1)
  {
    hide DaysToYmd;
    assert DayNumber(Date(1970, 1, 1)) == 0;
    DayRoundTrip(Date(1970, 1, 1));
  }

  /** Each day number is printed as the calendar's successor of the day before. */
  lemma FollowsTheCalendar(days: int)
    ensures DaysToYmd(days + 1) == NextDay(DaysToYmd(days))
  {
    hide DaysToYmd, DayNumber, ValidDate, NextDay;
    CivilRoundTrip(days);
    NextDayCounts(DaysToYmd(days));
    DayRoundTrip(NextDay(DaysToYmd(days)));
  }

  // Printing

  function Zeros(k: nat): string {
    seq(k, _ => '0')
  }

  /** `{n:0width}` of an unsigned number. */
  function Padded(n: nat, width: nat): string {
    var s := Decimal(n);
    if |s| < width then Zeros(width - |s|) + s else s
  }

  /** `{n:0width}` of a signed number: the sign counts toward the width. */
  function PaddedSigned(n: int, width: nat): string
    requires width > 0
  {
    if n < 0 then "-" + Padded(-n, width - 1) else Padded(n, width)
  }

  datatype Instant = Instant(date: Date, hour: nat, minute: nat, second: nat)

  function At(unixSecs: int): Instant {
    Instant(DaysToYmd(unixSecs / 86_400), (unixSecs / 3600) % 24, (unixSecs / 60) % 60, unixSecs % 60)
  }

  function Print(t: Instant): string
    requires ValidDate(t.date)
  {
    PaddedSigned(t.date.year, 4) + "-" + Padded(t.date.month, 2) + "-" + Padded(t.date.day, 2)
    + "T" + Padded(t.hour, 2) + ":" + Padded(t.minute, 2) + ":" + Padded(t.second, 2) + "Z"
  }

  function Rfc3339At(unixSecs: int): string {
    CivilRoundTrip(unixSecs / 86_400);
    Print(At(unixSecs))
  }

  function Pow10(k: nat): nat {
    if k == 0 then 1 else 10 * Pow10(k - 1)
  }

  lemma {:induction false} DecimalWidth(n: nat, k: nat)
    requires k > 0 && n < Pow10(k)
    ensures |Decimal(n)| <= k
  {
    if n >= 10 {
      DecimalWidth(n / 10, k - 1);
    }
  }

  /** Padding peels one digit off the back. */
  lemma PaddedStep(n: nat, width: nat)
    requires width >= 2
    ensures Padded(n, width) == Padded(n / 10, width - 1) + [DigitChar(n % 10)]
  {
  }

  lemma TensThenUnits(a: nat, b: nat)
    ensures a < b <==> a / 10 < b / 10 || (a / 10 == b / 10 && a % 10 < b % 10)
  {
  }

  lemma TenthFits(n: nat, width: nat)
    requires width > 1 && n < Pow10(width)
    ensures n / 10 < Pow10(width - 1)
  {
  }

  lemma OneDigitOrder(a: nat, b: nat)
    requires a < 10 && b < 10
    ensures |Padded(a, 1)| == |Padded(b, 1)| == 1
    ensures Less(Padded(a, 1), Padded(b, 1)) <==> a < b
    ensures Padded(a, 1) == Padded(b, 1) <==> a == b
  {
    assert Padded(a, 1) == [DigitChar(a)] && Padded(b, 1) == [DigitChar(b)];
  }

  /** Numbers of at most `width` digits print to strings of one length, in their own order. */
  lemma {:induction false} PaddedOrder(a: nat, b: nat, width: nat)
    requires width > 0 && a < Pow10(width) && b < Pow10(width)
    ensures |Padded(a, width)| == |Padded(b, width)| == width
    ensures Less(Padded(a, width), Padded(b, width)) <==> a < b
    ensures Padded(a, width) == Padded(b, width) <==> a == b
  {
    if width == 1 {
      assert Pow10(1) == 10;
      OneDigitOrder(a, b);
    } else {
      hide Padded, Less, Decimal, DigitChar, Pow10;
      TenthFits(a, width);
      TenthFits(b, width);
      TensThenUnits(a, b);
      PaddedStep(a, width);
      PaddedStep(b, width);
      PaddedOrder(a / 10, b / 10, width - 1);
      DigitsOrder(Padded(a / 10, width - 1), Padded(b / 10, width - 1), a % 10, b % 10);
    }
  }

  lemma DigitsOrder(a: string, b: string, x: nat, y: nat)
    requires |a| == |b| && x < 10 && y < 10
    ensures Less(a + [DigitChar(x)], b + [DigitChar(y)]) <==> Less(a, b) || (a == b && x < y)
    ensures a + [DigitChar(x)] == b + [DigitChar(y)] <==> a == b && x == y
  {
    var c, d := [DigitChar(x)], [DigitChar(y)];
    LessConcat(a, b, c, d);
    assert (a + c)[..|a|] == a && (b + d)[..|b|] == b;
    assert (a + c)[|a|] == c[0] && (b + d)[|b|] == d[0];
  }

  // Instants

  ghost predicate ValidInstant(t: Instant) {
    && ValidDate(t.date)
    && 0 <= t.date.year <= 9999
    && t.hour < 24 && t.minute < 60 && t.second < 60
  }

  ghost predicate InstantEarlier(a: Instant, b: Instant) {
    || Earlier(a.date, b.date)
    || (a.date == b.date
        && (a.hour < b.hour
            || (a.hour == b.hour
                && (a.minute < b.minute || (a.minute == b.minute && a.second < b.second)))))
  }

  /** Seconds of the Unix clock covered by years 0000 to 9999, the range of RFC 3339. */
  ghost predicate InRange(unixSecs: int) {
    YearStart(0) * 86_400 <= unixSecs < YearStart(10_000) * 86_400
  }

  lemma AtInRange(unixSecs: int)
    requires InRange(unixSecs)
    ensures ValidInstant(At(unixSecs))
  {
    var days := unixSecs / 86_400;
    CivilRoundTrip(days);
    var d := DaysToYmd(days);
    WithinYear(d);
    if d.year < 0 {
      YearsApart(d.year + 1, 0);
    } else if d.year > 9999 {
      YearsApart(10_000, d.year);
    }
  }

  lemma ClockOrder(s: int, t: int)
    ensures var h := (x: int) => (x / 3600) % 24;
      var m := (x: int) => (x / 60) % 60;
      s < t <==> (s / 86_400 < t / 86_400
        || (s / 86_400 == t / 86_400
            && (h(s) < h(t) || (h(s) == h(t)
                && (m(s) < m(t) || (m(s) == m(t) && s % 60 < t % 60))))))
  {
    ClockParts(s);
    ClockParts(t);
  }

  lemma ClockParts(s: int)
    ensures s == s / 86_400 * 86_400 + (s / 3600) % 24 * 3600 + (s / 60) % 60 * 60 + s % 60
  {
    assert s / 3600 == (s / 60) / 60;
    assert s / 86_400 == (s / 3600) / 24;
  }

  lemma AtOrder(s: int, t: int)
    ensures s < t <==> InstantEarlier(At(s), At(t))
  {
    hide DaysToYmd, DayNumber, ValidDate, Earlier;
    CivilRoundTrip(s / 86_400);
    CivilRoundTrip(t / 86_400);
    DayNumberMonotone(DaysToYmd(s / 86_400), DaysToYmd(t / 86_400));
    ClockOrder(s, t);
  }

  /** Appending a separator and a two-digit field refines the order by that field. */
  lemma FieldOrder(a: string, b: string, sep: string, x: nat, y: nat)
    requires |a| == |b| && x < 100 && y < 100
    ensures |a + sep + Padded(x, 2)| == |b + sep + Padded(y, 2)|
    ensures Less(a + sep + Padded(x, 2), b + sep + Padded(y, 2)) <==> Less(a, b) || (a == b && x < y)
    ensures a + sep + Padded(x, 2) == b + sep + Padded(y, 2) <==> a == b && x == y
  {
    assert Pow10(2) == 100 by { assert Pow10(1) == 10; }
    PaddedOrder(x, y, 2);
    LessConcat(a, b, sep, sep);
    LessIrreflexive(sep);
    LessConcat(a + sep, b + sep, Padded(x, 2), Padded(y, 2));
    assert (a + sep)[..|a|] == a && (b + sep)[..|a|] == b;
    var p, q := a + sep + Padded(x, 2), b + sep + Padded(y, 2);
    assert p[..|a + sep|] == a + sep && p[|a + sep|..] == Padded(x, 2);
    assert q[..|b + sep|] == b + sep && q[|b + sep|..] == Padded(y, 2);
  }

  function DatePart(d: Date): string
    requires 0 <= d.year && 0 <= d.month && 0 <= d.day
  {
    Padded(d.year, 4) + "-" + Padded(d.month, 2) + "-" + Padded(d.day, 2)
  }

  lemma DatePartOrder(a: Date, b: Date)
    requires ValidDate(a) && ValidDate(b) && 0 <= a.year <= 9999 && 0 <= b.year <= 9999
    ensures |DatePart(a)| == |DatePart(b)|
    ensures Less(DatePart(a), DatePart(b)) <==> Earlier(a, b)
    ensures DatePart(a) == DatePart(b) <==> a == b
  {
    assert Pow10(4) == 10_000 by { assert Pow10(2) == 100 by { assert Pow10(1) == 10; } }
    PaddedOrder(a.year, b.year, 4);
    FieldOrder(Padded(a.year, 4), Padded(b.year, 4), "-", a.month, b.month);
    FieldOrder(Padded(a.year, 4) + "-" + Padded(a.month, 2),
               Padded(b.year, 4) + "-" + Padded(b.month, 2), "-", a.day, b.day);
  }

  lemma PrintOrder(a: Instant, b: Instant)
    requires ValidInstant(a) && ValidInstant(b)
    ensures Less(Print(a), Print(b)) <==> InstantEarlier(a, b)
    ensures Print(a) == Print(b) <==> a == b
  {
    DatePartOrder(a.date, b.date);
    var a1, b1 := DatePart(a.date), DatePart(b.date);
    FieldOrder(a1, b1, "T", a.hour, b.hour);
    var a2, b2 := a1 + "T" + Padded(a.hour, 2), b1 + "T" + Padded(b.hour, 2);
    FieldOrder(a2, b2, ":", a.minute, b.minute);
    var a3, b3 := a2 + ":" + Padded(a.minute, 2), b2 + ":" + Padded(b.minute, 2);
    FieldOrder(a3, b3, ":", a.second, b.second);
    var a4, b4 := a3 + ":" + Padded(a.second, 2), b3 + ":" + Padded(b.second, 2);
    LessConcat(a4, b4, "Z", "Z");
    LessIrreflexive("Z");
    assert Print(a) == a4 + "Z" && Print(b) == b4 + "Z";
    assert Print(a)[..|a4|] == a4 && Print(b)[..|b4|] == b4;
  }

  /** Printed instants compare as strings exactly as the instants compare in time. */
  lemma PrintedOrderIsTimeOrder(s: int, t: int)
    requires InRange(s) && InRange(t)
    ensures Less(Rfc3339At(s), Rfc3339At(t)) <==> s < t
    ensures AtMost(Rfc3339At(s), Rfc3339At(t)) <==> s <= t
    ensures Rfc3339At(s) == Rfc3339At(t) <==> s == t
  {
    hide At, Print, ValidInstant, InRange, InstantEarlier, DaysToYmd, DayNumber, Less;
    AtInRange(s);
    AtInRange(t);
    AtOrder(s, t);
    AtOrder(t, s);
    PrintOrder(At(s), At(t));
    LessIrreflexive(Rfc3339At(s));
    assert At(s) == At(t) ==> s == t by {
      ClockParts(s);
      ClockParts(t);
      CivilRoundTrip(s / 86_400);
      CivilRoundTrip(t / 86_400);
    }
  }

  lemma FirstCharacter(d: Date, t: Instant)
    requires ValidDate(d) && d.year >= 0 && t.date == d
    ensures |Padded(d.year, 4)| > 0 && |Print(t)| > 0 && Print(t)[0] == Padded(d.year, 4)[0]
  {
  }

  lemma YearDigits()
    ensures Padded(10_000, 4) == ['1', '0', '0', '0', '0']
    ensures Padded(9999, 4) == ['9', '9', '9', '9']
  {
    assert Decimal(1) == ['1'] && Decimal(10) == ['1', '0'] && Decimal(100) == ['1', '0', '0'];
    assert Decimal(1000) == ['1', '0', '0', '0'];
    assert Decimal(9) == ['9'] && Decimal(99) == ['9', '9'] && Decimal(999) == ['9', '9', '9'];
  }

  const YEAR_TEN_THOUSAND := YearStart(10_000) * 86_400

  lemma LeadingDigit(unixSecs: int)
    ensures var y := DaysToYmd(unixSecs / 86_400).year;
      y >= 0 ==> Padded(y, 4) != [] && Rfc3339At(unixSecs) != [] && Rfc3339At(unixSecs)[0] == Padded(y, 4)[0]
  {
    hide DaysToYmd, ValidDate;
    CivilRoundTrip(unixSecs / 86_400);
    if DaysToYmd(unixSecs / 86_400).year >= 0 {
      FirstCharacter(DaysToYmd(unixSecs / 86_400), At(unixSecs));
    }
  }

  /** The first second of year 10000 prints a string that sorts before the last one of 9999. */
  lemma YearTenThousandSortsFirst(s: int, y: int)
    requires y == 10_000 && s == YearStart(y) * 86_400
    ensures Less(Rfc3339At(s), Rfc3339At(s - 1))
  {
    var days := YearStart(y);
    assert s / 86_400 == days && (s - 1) / 86_400 == days - 1 by { MidnightTurn(days); }
    YearTurn(y, days);
    YearDigits();
    LeadingDigit(s);
    LeadingDigit(s - 1);
  }

  lemma MidnightTurn(days: int)
    ensures days * 86_400 / 86_400 == days && (days * 86_400 - 1) / 86_400 == days - 1
  {
  }

  lemma YearTurn(y: int, days: int)
    requires days == YearStart(y)
    ensures DaysToYmd(days) == Date(y, 1, 1) && DaysToYmd(days - 1) == Date(y - 1, 12, 31)
  {
    hide DaysToYmd;
    YearLength(y - 1);
    assert DayNumber(Date(y, 1, 1)) == days && DayNumber(Date(y - 1, 12, 31)) == days - 1;
    DayRoundTrip(Date(y, 1, 1));
    DayRoundTrip(Date(y - 1, 12, 31));
  }

  /** From year 0 on, string order is time order up to `limit` exactly when `limit` lies
      before year 10000. */
  lemma OrderHoldsUntilYearTenThousand(limit: int)
    requires YearStart(0) * 86_400 <= limit
    ensures limit < YEAR_TEN_THOUSAND <==>
      (forall s, t | YearStart(0) * 86_400 <= s < t <= limit :: Less(Rfc3339At(s), Rfc3339At(t)))
  {
    if limit < YEAR_TEN_THOUSAND {
      forall s, t | YearStart(0) * 86_400 <= s < t <= limit
        ensures Less(Rfc3339At(s), Rfc3339At(t))
      {
        PrintedOrderIsTimeOrder(s, t);
      }
    } else {
      var s := YEAR_TEN_THOUSAND;
      YearTenThousandSortsFirst(s, 10_000);
      LessAsymmetric(Rfc3339At(s), Rfc3339At(s - 1));
      YearsApart(0, 9999);
      YearLength(9999);
    }
  }

  // Reading back

  predicate AllDigits(s: string) {
    forall c :: c in s ==> IsDigit(c)
  }

  lemma {:induction false} ZerosDoNotCount(k: nat, s: string)
    requires AllDigits(s)
    ensures AllDigits(Zeros(k) + s) && DigitsValue(Zeros(k) + s) == DigitsValue(s)
  {
    var t := Zeros(k) + s;
    if s != "" {
      ZerosDoNotCount(k, s[..|s| - 1]);
      assert t[..|t| - 1] == Zeros(k) + s[..|s| - 1];
    } else if k > 0 {
      assert t[..|t| - 1] == Zeros(k - 1) + "";
      ZerosDoNotCount(k - 1, s);
    }
  }

  lemma {:induction false} NoLeadingZero(n: nat)
    ensures Decimal(n) != "" && (n > 0 ==> Decimal(n)[0] != '0')
  {
    if n >= 10 {
      NoLeadingZero(n / 10);
    }
  }

  /** A padded number reads back, and is padded no further than to its width. */
  lemma PaddedReads(n: nat, width: nat)
    ensures var s := Padded(n, width);
      && s != "" && AllDigits(s) && DigitsValue(s) == n
      && |s| >= width && (|s| == width || n == 0 || s[0] != '0')
  {
    DecimalRoundTrip(n);
    NoLeadingZero(n);
    ZerosDoNotCount(if |Decimal(n)| < width then width - |Decimal(n)| else 0, Decimal(n));
  }

  lemma TwoDigits(n: nat)
    requires n < 100
    ensures |Padded(n, 2)| == 2 && AllDigits(Padded(n, 2)) && DigitsValue(Padded(n, 2)) == n
  {
    assert Pow10(2) == 100 by { assert Pow10(1) == 10; }
    PaddedReads(n, 2);
    DecimalWidth(n, 2);
  }

  /** The characters of `t` from `from` on are a separator and two digits that spell `n`. */
  ghost predicate FieldAt(t: string, from: nat, sep: char, n: int) {
    && from + 3 <= |t| && t[from] == sep && AllDigits(t[from + 1..from + 3])
    && DigitsValue(t[from + 1..from + 3]) == n
  }

  /** A year: at least four characters, a minus sign for years before 0 among them, and no zero
      in front beyond those. */
  ghost predicate SpellsYear(t: string, y: int) {
    && |t| >= 4 && (y < 0 ==> t[0] == '-')
    && var digits := if y < 0 then t[1..] else t;
    && AllDigits(digits) && (|t| == 4 || digits[0] != '0')
    && DigitsValue(digits) == if y < 0 then -y else y
  }

  lemma YearReads(y: int)
    ensures SpellsYear(PaddedSigned(y, 4), y)
    ensures 0 <= y <= 9999 ==> |PaddedSigned(y, 4)| == 4
  {
    assert Pow10(4) == 10_000 by { assert Pow10(2) == 100 by { assert Pow10(1) == 10; } }
    if y < 0 {
      PaddedReads(-y, 3);
      assert PaddedSigned(y, 4)[1..] == Padded(-y, 3);
    } else {
      PaddedReads(y, 4);
      if y <= 9999 {
        DecimalWidth(y, 4);
      }
    }
  }

  lemma FieldReads(before: string, sep: char, n: nat, after: string)
    requires n < 100
    ensures FieldAt(before + ([sep] + Padded(n, 2) + after), |before|, sep, n)
  {
    hide Padded;
    TwoDigits(n);
    var t := before + ([sep] + Padded(n, 2) + after);
    assert t[|before| + 1..|before| + 3] == Padded(n, 2);
  }

  /** An instant's text spells its year, month, day, hour, minute and second in their places. */
  lemma PrintReads(t: Instant)
    requires ValidDate(t.date) && t.hour < 24 && t.minute < 60 && t.second < 60
    ensures var text := Print(t);
      var k := |text| - 16;
      && |text| >= 20 && SpellsYear(text[..k], t.date.year) && (0 <= t.date.year <= 9999 ==> k == 4)
      && FieldAt(text, k, '-', t.date.month) && FieldAt(text, k + 3, '-', t.date.day)
      && FieldAt(text, k + 6, 'T', t.hour) && FieldAt(text, k + 9, ':', t.minute)
      && FieldAt(text, k + 12, ':', t.second) && text[k + 15] == 'Z'
  {
    hide Padded, PaddedSigned, FieldAt, SpellsYear, AllDigits, IsLeap, DigitsValue;
    YearReads(t.date.year);
    TwoDigits(t.date.month);
    TwoDigits(t.date.day);
    TwoDigits(t.hour);
    TwoDigits(t.minute);
    TwoDigits(t.second);
    var year, z := PaddedSigned(t.date.year, 4), "Z";
    var second := [':'] + Padded(t.second, 2) + z;
    var minute := [':'] + Padded(t.minute, 2) + second;
    var hour := ['T'] + Padded(t.hour, 2) + minute;
    var day := ['-'] + Padded(t.date.day, 2) + hour;
    var month := ['-'] + Padded(t.date.month, 2) + day;
    var text := Print(t);
    assert text == year + month;
    var k := |year|;
    assert |text| == k + 16 && text[..k] == year;
    FieldReads(year, '-', t.date.month, day);
    FieldFollows(text, year, '-', t.date.month, '-', t.date.day, hour);
    FieldFollows(text, text[..k + 3], '-', t.date.day, 'T', t.hour, minute);
    FieldFollows(text, text[..k + 6], 'T', t.hour, ':', t.minute, second);
    FieldFollows(text, text[..k + 9], ':', t.minute, ':', t.second, z);
  }

  lemma FieldFollows(text: string, before: string, sep1: char, n: nat, sep2: char, m: nat, after: string)
    requires n < 100 && m < 100
    requires text == before + ([sep1] + Padded(n, 2) + ([sep2] + Padded(m, 2) + after))
    ensures FieldAt(text, |before| + 3, sep2, m)
    ensures text == text[..|before| + 3] + ([sep2] + Padded(m, 2) + after)
  {
    hide Padded, FieldAt, AllDigits, DigitsValue;
    TwoDigits(n);
    var head, tail := before + ([sep1] + Padded(n, 2)), [sep2] + Padded(m, 2) + after;
    assert text == head + tail && |head| == |before| + 3;
    FieldReads(head, sep2, m, after);
  }

  /** Every instant's text reads back as the instant: its fields name a date of the calendar and a
      time of day, and count up to the very second that was printed. */
  lemma Rfc3339ReadsBack(unixSecs: int) returns (d: Date, hour: nat, minute: nat, second: nat)
    ensures var t := Rfc3339At(unixSecs);
      var k := |t| - 16;
      && |t| >= 20 && SpellsYear(t[..k], d.year) && (InRange(unixSecs) ==> k == 4)
      && FieldAt(t, k, '-', d.month) && FieldAt(t, k + 3, '-', d.day)
      && FieldAt(t, k + 6, 'T', hour) && FieldAt(t, k + 9, ':', minute) && FieldAt(t, k + 12, ':', second)
      && t[k + 15] == 'Z'
    ensures ValidDate(d) && hour < 24 && minute < 60 && second < 60
    ensures DayNumber(d) * 86_400 + hour * 3600 + minute * 60 + second == unixSecs
  {
    hide Print, SpellsYear, FieldAt, DaysToYmd, DayNumber, ValidDate, InRange;
    var at := At(unixSecs);
    d, hour, minute, second := at.date, at.hour, at.minute, at.second;
    CivilRoundTrip(unixSecs / 86_400);
    ClockParts(unixSecs);
    PrintReads(at);
    if InRange(unixSecs) {
      AtInRange(unixSecs);
    }
  }
}
