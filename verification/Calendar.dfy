/** Calendar dates from day counts: the closed form of the trace log and the counting loops of the
    migration stamps, against one day-number reference. Day 0 is 1970-01-01. */
module Calendar {
  import opened Decimal

  datatype Date = Date(year: int, month: int, day: int)

  predicate IsLeap(y: int) {
    y % 4 == 0 && (y % 100 != 0 || y % 400 == 0)
  }

  function YearLen(y: int): nat {
    if IsLeap(y) then 366 else 365
  }

  function MonthLen(y: int, m: int): nat {
    if m == 2 then (if IsLeap(y) then 29 else 28)
    else if m == 4 || m == 6 || m == 9 || m == 11 then 30
    else 31
  }

  predicate ValidDate(d: Date) {
    d.year >= 1970 && 1 <= d.month <= 12 && 1 <= d.day <= MonthLen(d.year, d.month)
  }

  /** Days of the year before month `m`. */
  function BeforeMonth(y: int, m: int): nat
    requires 1 <= m <= 13
  {
    if m == 1 then 0 else BeforeMonth(y, m - 1) + MonthLen(y, m - 1)
  }

  /** Days from 1970 to the start of year `y`. */
  function BeforeYear(y: int): nat
    requires y >= 1970
  {
    if y == 1970 then 0 else BeforeYear(y - 1) + YearLen(y - 1)
  }

  /** Days from 1970-01-01 to a date. */
  function DayNumber(d: Date): nat
    requires ValidDate(d)
  {
    BeforeYear(d.year) + BeforeMonth(d.year, d.month) + d.day - 1
  }

  // ---- dates and day numbers are in the same order -----------------------------------------------------------------

  predicate EarlierDate(a: Date, b: Date) {
    a.year < b.year || (a.year == b.year && (a.month < b.month || (a.month == b.month && a.day < b.day)))
  }

  lemma {:induction false} MonthsAddUp(y: int, m: int)
    requires 1 <= m <= 13
    ensures BeforeMonth(y, m) <= YearLen(y)
    ensures m <= 12 ==> BeforeMonth(y, m) + MonthLen(y, m) <= YearLen(y)
  {
    var l := MonthLen(y, 2);
    assert BeforeMonth(y, 2) == 31 && BeforeMonth(y, 3) == 31 + l && BeforeMonth(y, 4) == 62 + l;
    assert BeforeMonth(y, 5) == 92 + l && BeforeMonth(y, 6) == 123 + l && BeforeMonth(y, 7) == 153 + l;
    assert BeforeMonth(y, 8) == 184 + l && BeforeMonth(y, 9) == 215 + l && BeforeMonth(y, 10) == 245 + l;
    assert BeforeMonth(y, 11) == 276 + l && BeforeMonth(y, 12) == 306 + l && BeforeMonth(y, 13) == 337 + l;
  }

  lemma {:induction false} LaterMonthsStartLater(y: int, m: int, n: int)
    requires 1 <= m < n <= 13
    ensures BeforeMonth(y, m) + MonthLen(y, m) <= BeforeMonth(y, n)
    decreases n
  {
    if m < n - 1 {
      LaterMonthsStartLater(y, m, n - 1);
    }
  }

  lemma {:induction false} LaterYearsStartLater(y: int, z: int)
    requires 1970 <= y < z
    ensures BeforeYear(y) + YearLen(y) <= BeforeYear(z)
    decreases z
  {
    if y < z - 1 {
      LaterYearsStartLater(y, z - 1);
    }
  }

  /** The day number is strictly increasing in date order. */
  lemma {:induction false} DayNumberIncreases(a: Date, b: Date)
    requires ValidDate(a) && ValidDate(b) && EarlierDate(a, b)
    ensures DayNumber(a) < DayNumber(b)
  {
    if a.year < b.year {
      MonthsAddUp(a.year, a.month);
      LaterYearsStartLater(a.year, b.year);
    } else if a.month < b.month {
      LaterMonthsStartLater(a.year, a.month, b.month);
    }
  }

  lemma {:induction false} DayNumberDetermines(a: Date, b: Date)
    requires ValidDate(a) && ValidDate(b) && DayNumber(a) == DayNumber(b)
    ensures a == b
  {
    if EarlierDate(a, b) {
      DayNumberIncreases(a, b);
    } else if EarlierDate(b, a) {
      DayNumberIncreases(b, a);
    }
  }

  // ---- the closed form -------------------------------------------------------------------------------------------------

  const EPOCH_SHIFT := 719_468
  const ERA_DAYS := 146_097

  /** The year of an era of 400 years that starts on 1 March, from the day of the era. */
  function YearOfEra(doe: nat): nat {
    (doe - doe / 1_460 + doe / 36_524 - doe / 146_096) / 365
  }

  /** The day of that year. */
  function DayOfYear(doe: nat, yoe: nat): int {
    doe - (365 * yoe + yoe / 4 - yoe / 100)
  }

  /** Month and day from the day of a year that starts on 1 March. */
  function MonthPart(doy: nat): nat {
    (5 * doy + 2) / 153
  }

  /** The date of a day of a year that starts on 1 March. */
  function FromMarchYear(y: int, doy: nat): Date {
    var mp := MonthPart(doy);
    var d := doy - (153 * mp + 2) / 5 + 1;
    var m := if mp < 10 then mp + 3 else mp - 9;
    Date(if m <= 2 then y + 1 else y, m, d)
  }

  /** The day of its era a day belongs to. */
  function DayOfEra(days: nat): (doe: nat)
    ensures doe < ERA_DAYS
  {
    var z := days + EPOCH_SHIFT;
    z - z / ERA_DAYS * ERA_DAYS
  }

  function CivilFromDays(days: nat): Date {
    var era := (days + EPOCH_SHIFT) / ERA_DAYS;
    var doe := DayOfEra(days);
    var yoe := YearOfEra(doe);
    var doy := DayOfYear(doe, yoe);
    assert doy >= 0 by { YearOfEraIsRight(doe); }
    FromMarchYear(yoe + era * 400, doy)
  }

  /** Where a day of the era lies: century, four years, year, day. */
  datatype EraParts = EraParts(century: nat, quad: nat, year: nat, day: nat)

  predicate PartsOk(p: EraParts) {
    && p.century <= 3 && p.quad <= 24 && p.year <= 3
    && (p.day <= 364 || (p.day == 365 && p.year == 3 && (p.quad < 24 || p.century == 3)))
  }

  function PartsDay(p: EraParts): nat {
    36_524 * p.century + 1_461 * p.quad + 365 * p.year + p.day
  }

  function PartsYear(p: EraParts): nat {
    100 * p.century + 4 * p.quad + p.year
  }

  function Limited(a: nat, b: nat): nat {
    if a <= b then a else b
  }

  function PartsOf(doe: nat): EraParts {
    var c := Limited(doe / 36_524, 3);
    var doc := doe - 36_524 * c;
    var q := doc / 1_461;
    var doq := doc - 1_461 * q;
    var y := Limited(doq / 365, 3);
    EraParts(c, q, y, doq - 365 * y)
  }

  lemma {:induction false} PartsOfDay(doe: nat)
    requires doe < ERA_DAYS
    ensures PartsOk(PartsOf(doe)) && PartsDay(PartsOf(doe)) == doe
  {
  }

  /** The formula gives the year, whatever the day. */
  lemma {:induction false} YearFormula(p: EraParts)
    requires PartsOk(p)
    ensures YearOfEra(PartsDay(p)) == PartsYear(p)
  {
    var doe := PartsDay(p);
    var k := 25 * p.century + p.quad;
    var rest := 24 * p.century + p.quad + 365 * p.year + p.day;
    assert doe == 1_460 * k + rest;
    assert doe / 1_460 == k + (if rest >= 1_460 then 1 else 0);
    assert doe / 36_524 == p.century || (doe == 146_096 && doe / 36_524 == 4);
  }

  lemma {:induction false} YearOfEraIsRight(doe: nat)
    requires doe < ERA_DAYS
    ensures var p := PartsOf(doe);
            && PartsOk(p) && YearOfEra(doe) == PartsYear(p) && DayOfYear(doe, YearOfEra(doe)) == p.day
  {
    var p := PartsOf(doe);
    PartsOfDay(doe);
    YearFormula(p);
    var yoe := PartsYear(p);
    assert yoe / 100 == p.century && yoe / 4 == 25 * p.century + p.quad;
  }

  /** Days from 1 March to the start of the month numbered `mp` from March. */
  function MarchMonthStart(mp: nat): nat {
    (153 * mp + 2) / 5
  }

  lemma {:induction false} MonthPartIsRight(doy: nat)
    requires doy <= 365
    ensures var mp := MonthPart(doy);
            && mp <= 11 && MarchMonthStart(mp) <= doy
            && (doy < MarchMonthStart(mp + 1) || mp == 11)
  {
  }

  /** The starts of the months in both countings. */
  lemma {:induction false} MonthStartsMatch(y: int, mp: nat)
    requires mp <= 11
    ensures mp < 10 ==> BeforeMonth(y, mp + 3) == MarchMonthStart(mp) + 59 + (if IsLeap(y) then 1 else 0)
    ensures mp < 10 ==> MonthLen(y, mp + 3) == MarchMonthStart(mp + 1) - MarchMonthStart(mp)
    ensures mp >= 10 ==> BeforeMonth(y, mp - 9) == MarchMonthStart(mp) - 306
    ensures mp == 10 ==> MonthLen(y, 1) == MarchMonthStart(11) - MarchMonthStart(10)
  {
    var l := MonthLen(y, 2);
    assert BeforeMonth(y, 2) == 31 && BeforeMonth(y, 3) == 31 + l && BeforeMonth(y, 4) == 62 + l;
    assert BeforeMonth(y, 5) == 92 + l && BeforeMonth(y, 6) == 123 + l && BeforeMonth(y, 7) == 153 + l;
    assert BeforeMonth(y, 8) == 184 + l && BeforeMonth(y, 9) == 215 + l && BeforeMonth(y, 10) == 245 + l;
    assert BeforeMonth(y, 11) == 276 + l && BeforeMonth(y, 12) == 306 + l;
  }

  /** Leap years up to `y`. */
  function Leaps(y: int): int {
    y / 4 - y / 100 + y / 400
  }

  lemma {:induction false} Div4Step(y: int)
    ensures y / 4 == (y - 1) / 4 + (if y % 4 == 0 then 1 else 0)
  {
  }

  lemma {:induction false} Div100Step(y: int)
    ensures y / 100 == (y - 1) / 100 + (if y % 100 == 0 then 1 else 0)
  {
  }

  lemma {:induction false} Div400Step(y: int)
    ensures y / 400 == (y - 1) / 400 + (if y % 400 == 0 then 1 else 0)
  {
  }

  lemma {:induction false} LeapsStep(y: int)
    ensures Leaps(y) == Leaps(y - 1) + (if IsLeap(y) then 1 else 0)
  {
    Div4Step(y);
    Div100Step(y);
    Div400Step(y);
    MultiplesNest(y);
  }

  lemma {:induction false} MultiplesNest(y: int)
    ensures y % 100 == 0 ==> y % 4 == 0
    ensures y % 400 == 0 ==> y % 100 == 0
  {
  }

  lemma {:induction false} BeforeYearClosed(y: int)
    requires y >= 1970
    ensures BeforeYear(y) == 365 * (y - 1) + Leaps(y - 1) - 719_162
  {
    if y > 1970 {
      BeforeYearClosed(y - 1);
      LeapsStep(y - 1);
    }
  }

  lemma {:induction false} EraDivisions(era: nat, yoe: nat)
    requires yoe <= 399
    ensures (400 * era + yoe) / 4 == 100 * era + yoe / 4
    ensures (400 * era + yoe) / 100 == 4 * era + yoe / 100
    ensures (400 * era + yoe) / 400 == era
  {
  }

  lemma {:induction false} Era4(era: nat, n: nat)
    ensures (400 * era + n) % 4 == n % 4
  {
  }

  lemma {:induction false} Era100(era: nat, n: nat)
    ensures (400 * era + n) % 100 == n % 100
  {
  }

  lemma {:induction false} Era400(era: nat, n: nat)
    ensures (400 * era + n) % 400 == n % 400
  {
  }

  lemma {:induction false} EraLeap(era: nat, n: nat)
    ensures IsLeap(400 * era + n) <==> IsLeap(n)
  {
    Era4(era, n);
    Era100(era, n);
    Era400(era, n);
  }

  /** The year count of the eras: 400 years are 146097 days. */
  lemma {:induction false} EraYears(era: nat, yoe: nat)
    requires yoe <= 399
    ensures var y := 400 * era + yoe;
            365 * y + Leaps(y) == era * ERA_DAYS + 365 * yoe + yoe / 4 - yoe / 100
    ensures IsLeap(400 * era + yoe + 1) <==> IsLeap(yoe + 1)
  {
    EraDivisions(era, yoe);
    EraLeap(era, yoe + 1);
  }

  /** From a March-based year and day to a date: the step from the era to the calendar. */
  lemma {:induction false} MarchYearDate(days: nat, y: int, doy: nat)
    requires doy <= 364 || (doy == 365 && IsLeap(y + 1))
    requires days + EPOCH_SHIFT == 365 * y + Leaps(y) + doy
    requires y >= 1970 || (y == 1969 && doy >= 306)
    ensures ValidDate(FromMarchYear(y, doy)) && DayNumber(FromMarchYear(y, doy)) == days
  {
    var mp := MonthPart(doy);
    MonthPartIsRight(doy);
    MonthStartsMatch(if mp < 10 then y else y + 1, mp);
    if mp < 10 {
      assert y >= 1970;
      BeforeYearClosed(y);
      LeapsStep(y);
    } else {
      BeforeYearClosed(y + 1);
    }
  }

  /** Eras, years of the era and days of the year make up the days. */
  lemma {:induction false} MarchDays(era: nat, doe: nat, p: EraParts, yoe: nat)
    requires PartsOk(p) && yoe == PartsYear(p) <= 399 && DayOfYear(doe, yoe) == p.day
    ensures var y := yoe + era * 400;
            && era * ERA_DAYS + doe == 365 * y + Leaps(y) + p.day
            && p.day <= 365 && (p.day == 365 ==> IsLeap(y + 1))
  {
    EraYears(era, yoe);
    LeapDayYear(p);
  }

  lemma {:induction false} CivilParts(days: nat) returns (y: int, doy: nat)
    ensures doy <= 365 && (doy == 365 ==> IsLeap(y + 1))
    ensures days + EPOCH_SHIFT == 365 * y + Leaps(y) + doy
    ensures CivilFromDays(days) == FromMarchYear(y, doy)
  {
    var era, doe := (days + EPOCH_SHIFT) / ERA_DAYS, DayOfEra(days);
    YearOfEraIsRight(doe);
    var p, yoe := PartsOf(doe), YearOfEra(doe);
    MarchDays(era, doe, p, yoe);
    y, doy := yoe + era * 400, p.day;
  }

  /** The closed form gives the date whose day number is `days`. */
  lemma {:induction false} CivilFromDaysIsRight(days: nat)
    ensures ValidDate(CivilFromDays(days)) && DayNumber(CivilFromDays(days)) == days
  {
    var y, doy := CivilParts(days);
    FirstYears(days, y, doy);
    MarchYearDate(days, y, doy);
  }

  lemma {:induction false} LeapDayYear(p: EraParts)
    requires PartsOk(p)
    ensures p.day == 365 ==> IsLeap(PartsYear(p) + 1)
  {
  }

  lemma {:induction false} FirstYears(days: nat, y: int, doy: nat)
    requires doy <= 365 && days + EPOCH_SHIFT == 365 * y + Leaps(y) + doy
    ensures y >= 1970 || (y == 1969 && doy >= 306)
  {
  }

  // ---- the counting loops ----------------------------------------------------------------------------------------------

  method DaysToYmd(count: nat) returns (year: int, month: int, day: int)
    ensures Date(year, month, day) == CivilFromDays(count)
  {
    var days: nat := count;
    year := 1970;
    while true
      invariant year >= 1970 && BeforeYear(year) + days == count
      decreases days
    {
      var yd := if IsLeap(year) then 366 else 365;
      if days < yd {
        break;
      }
      days := days - yd;
      year := year + 1;
    }
    var leap := IsLeap(year);
    var months := [31, if leap then 29 else 28, 31, 30, 31, 30, 31, 31, 30, 31, 30, 31];
    month := 1;
    MonthsAddUp(year, 13);
    while month <= 12
      invariant 1 <= month <= 13 && BeforeMonth(year, month) + BeforeYear(year) + days == count
      invariant BeforeMonth(year, month) + days < YearLen(year)
    {
      if days < months[month - 1] {
        break;
      }
      days := days - months[month - 1];
      month := month + 1;
    }
    day := days + 1;
    YearEndsAt(year);
    CivilFromDaysIsRight(count);
    DayNumberDetermines(Date(year, month, day), CivilFromDays(count));
  }

  lemma {:induction false} YearEndsAt(y: int)
    ensures BeforeMonth(y, 13) == YearLen(y)
  {
    MonthStartsMatch(y, 9);
    assert BeforeMonth(y, 13) == BeforeMonth(y, 12) + 31;
  }

  /** Later days have later dates. */
  lemma {:induction false} CivilIncreases(a: nat, b: nat)
    requires a < b
    ensures EarlierDate(CivilFromDays(a), CivilFromDays(b))
  {
    CivilFromDaysIsRight(a);
    CivilFromDaysIsRight(b);
    if EarlierDate(CivilFromDays(b), CivilFromDays(a)) {
      DayNumberIncreases(CivilFromDays(b), CivilFromDays(a));
    }
  }

  // ---- time stamps -----------------------------------------------------------------------------------------------------

  function DateText(d: Date): string
    requires d.year >= 0 && d.month >= 0 && d.day >= 0
  {
    Padded(d.year, 4) + "-" + Padded(d.month, 2) + "-" + Padded(d.day, 2)
  }

  function ClockText(h: nat, m: nat, s: nat): string {
    Padded(h, 2) + ":" + Padded(m, 2) + ":" + Padded(s, 2)
  }

  /** The clock of a second, from the seconds of its day. */
  function ClockOf(secs: nat): string {
    var tod := secs % 86_400;
    ClockText(tod / 3600, tod % 3600 / 60, tod % 60)
  }

  /** The digits at a place of a text, as a number. */
  function TwoAt(text: string, i: nat): nat
    requires i + 2 <= |text| && IsDigit(text[i]) && IsDigit(text[i + 1])
  {
    10 * DigitValue(text[i]) + DigitValue(text[i + 1])
  }

  /** Four digits, two and two with `-` between them are the date of the day. */
  predicate DateIs(t: string, days: nat) {
    && |t| == 10 && t[4] == '-' && t[7] == '-' && (forall i :: 0 <= i < 10 && i !in {4, 7} ==> IsDigit(t[i]))
    && var date := Date(100 * TwoAt(t, 0) + TwoAt(t, 2), TwoAt(t, 5), TwoAt(t, 8));
       ValidDate(date) && DayNumber(date) == days
  }

  /** Two digits, two and two with `:` between them are the clock of the second of the day. */
  predicate ClockIs(t: string, tod: nat) {
    && |t| == 8 && t[2] == ':' && t[5] == ':' && (forall i :: 0 <= i < 8 && i !in {2, 5} ==> IsDigit(t[i]))
    && 3600 * TwoAt(t, 0) + 60 * TwoAt(t, 3) + TwoAt(t, 6) == tod && TwoAt(t, 3) < 60 && TwoAt(t, 6) < 60
  }

  /** The text starts with the date and, behind one character, the clock of a second. */
  predicate Stamps(text: string, secs: nat) {
    |text| >= 19 && DateIs(text[..10], secs / 86_400) && ClockIs(text[11..19], secs % 86_400)
  }

  lemma {:induction false} TwoReads(n: nat)
    requires n < 100
    ensures var t := Padded(n, 2); |t| == 2 && IsDigit(t[0]) && IsDigit(t[1]) && TwoAt(t, 0) == n
  {
    TwoDigits(n);
  }

  lemma {:induction false} FourParts(n: nat)
    ensures n == 1000 * (n / 1000) + 100 * (n / 100 % 10) + 10 * (n / 10 % 10) + n % 10
  {
    assert n / 100 == n / 10 / 10 && n / 1000 == n / 100 / 10;
  }

  lemma {:induction false} FourReads(n: nat)
    requires n < 10000
    ensures var t := Padded(n, 4);
            |t| == 4 && (forall i :: 0 <= i < 4 ==> IsDigit(t[i])) && 100 * TwoAt(t, 0) + TwoAt(t, 2) == n
  {
    FourDigits(n);
    FourParts(n);
    var t, a, b, c, d := Padded(n, 4), n / 1000, n / 100 % 10, n / 10 % 10, n % 10;
    assert t == [DigitChar(a), DigitChar(b), DigitChar(c), DigitChar(d)];
    assert TwoAt(t, 0) == 10 * a + b && TwoAt(t, 2) == 10 * c + d;
  }

  lemma {:induction false} DateReads(d: Date)
    requires ValidDate(d) && d.year < 10000
    ensures DateIs(DateText(d), DayNumber(d))
  {
    var t, y, m, n := DateText(d), Padded(d.year, 4), Padded(d.month, 2), Padded(d.day, 2);
    FourReads(d.year);
    TwoReads(d.month);
    TwoReads(d.day);
    assert t == y + "-" + m + "-" + n;
    assert TwoAt(t, 0) == TwoAt(y, 0) && TwoAt(t, 2) == TwoAt(y, 2) && TwoAt(t, 5) == TwoAt(m, 0) && TwoAt(t, 8) == TwoAt(n, 0);
  }

  lemma {:induction false} ClockDigits(h: nat, m: nat, s: nat)
    requires h < 100 && m < 60 && s < 60
    ensures ClockIs(ClockText(h, m, s), 3600 * h + 60 * m + s)
  {
    TwoReads(h);
    TwoReads(m);
    TwoReads(s);
    var t := ClockText(h, m, s);
    assert TwoAt(t, 0) == h && TwoAt(t, 3) == m && TwoAt(t, 6) == s;
  }

  lemma {:induction false} ClockReads(tod: nat)
    requires tod < 86_400
    ensures ClockIs(ClockText(tod / 3600, tod % 3600 / 60, tod % 60), tod)
  {
    assert tod == 3600 * (tod / 3600) + 60 * (tod % 3600 / 60) + tod % 60;
    ClockDigits(tod / 3600, tod % 3600 / 60, tod % 60);
  }

  lemma {:induction false} StampReads(secs: nat, date: string, clock: string, sep: char, rest: string)
    requires ValidDate(CivilFromDays(secs / 86_400)) && CivilFromDays(secs / 86_400).year < 10000
    requires date == DateText(CivilFromDays(secs / 86_400)) && clock == ClockOf(secs)
    ensures Stamps(date + [sep] + clock + rest, secs)
  {
    CivilFromDaysIsRight(secs / 86_400);
    DateReads(CivilFromDays(secs / 86_400));
    ClockReads(secs % 86_400);
    var text := date + [sep] + clock + rest;
    assert text[..10] == date && text[11..19] == clock;
  }

  /** The stamp of a trace line. Up to the year 9999 its digits, read back, are the second it was made of. */
  method IsoStamp(secs: nat, ms: nat) returns (text: string)
    ensures ValidDate(CivilFromDays(secs / 86_400))
    ensures text == DateText(CivilFromDays(secs / 86_400)) + "T"
                    + ClockOf(secs) + "." + Padded(ms, 3) + "Z"
    ensures CivilFromDays(secs / 86_400).year < 10000 ==> Stamps(text, secs)
  {
    var days, tod := secs / 86_400, secs % 86_400;
    var hh, mm, ss := tod / 3600, tod % 3600 / 60, tod % 60;
    CivilFromDaysIsRight(days);
    text := DateText(CivilFromDays(days)) + "T" + ClockText(hh, mm, ss) + "." + Padded(ms, 3) + "Z";
    if CivilFromDays(days).year < 10000 {
      StampReads(secs, DateText(CivilFromDays(days)), ClockOf(secs), 'T', "." + Padded(ms, 3) + "Z");
      assert text == DateText(CivilFromDays(days)) + "T" + ClockOf(secs) + ("." + Padded(ms, 3) + "Z");
    }
  }

  /** The stamp of a migration: for the same second the same date and the same clock. */
  method EpochToIso(secs: nat) returns (text: string)
    ensures ValidDate(CivilFromDays(secs / 86_400))
    ensures text == DateText(CivilFromDays(secs / 86_400)) + " "
                    + ClockOf(secs) + " UTC"
    ensures CivilFromDays(secs / 86_400).year < 10000 ==> Stamps(text, secs)
  {
    var s, m, h, days := secs % 60, secs / 60 % 60, secs / 3600 % 24, secs / 86_400;
    CivilFromDaysIsRight(days);
    ClockFieldsAgree(secs);
    var year, month, day := DaysToYmd(days);
    text := DateText(Date(year, month, day)) + " " + ClockText(h, m, s) + " UTC";
    if year < 10000 {
      StampReads(secs, DateText(CivilFromDays(days)), ClockOf(secs), ' ', " UTC");
    }
  }

  /** Hours and minutes taken from the seconds of the day or from all seconds are the same, and give
      the seconds of the day back. */
  lemma {:induction false} ClockFieldsAgree(secs: nat)
    ensures secs % 86_400 / 3600 == secs / 3600 % 24
    ensures secs % 86_400 % 3600 / 60 == secs / 60 % 60
    ensures secs % 86_400 % 60 == secs % 60
    ensures secs % 86_400 == 3600 * (secs / 3600 % 24) + 60 * (secs / 60 % 60) + secs % 60
  {
    var d, tod := secs / 86_400, secs % 86_400;
    var h, rest := tod / 3600, tod % 3600;
    var m, s := rest / 60, rest % 60;
    assert secs == 86_400 * d + 3600 * h + 60 * m + s;
    assert secs / 3600 == 24 * d + h;
    assert secs / 60 == 60 * (24 * d + h) + m;
  }
}
