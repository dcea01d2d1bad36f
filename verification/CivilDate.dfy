/** Postgres dates and timestamps as proleptic Gregorian dates (month lengths of section 5.7 and the leap
    rule of Appendix C of RFC 3339, extended to every year). */
module CivilDate {
  datatype Civil = Civil(year: int, month: int, day: int)

  // ----- the plain calendar -----

  predicate IsLeap(year: int) {
    year % 4 == 0 && (year % 100 != 0 || year % 400 == 0)
  }

  function YearLength(year: int): int {
    if IsLeap(year) then 366 else 365
  }

  function MonthLength(year: int, month: int): int {
    if month == 2 then (if IsLeap(year) then 29 else 28)
    else if month == 4 || month == 6 || month == 9 || month == 11 then 30
    else 31
  }

  predicate ValidDate(c: Civil) {
    1 <= c.month <= 12 && 1 <= c.day <= MonthLength(c.year, c.month)
  }

  function NextDay(c: Civil): Civil {
    if c.day < MonthLength(c.year, c.month) then Civil(c.year, c.month, c.day + 1)
    else if c.month < 12 then Civil(c.year, c.month + 1, 1)
    else Civil(c.year + 1, 1, 1)
  }

  /** Days from 1970-01-01 to the first of January: year lengths added up, forwards or backwards. */
  function YearStart(year: int): int
    decreases if year < 1970 then 1970 - year else year - 1970
  {
    if year == 1970 then 0
    else if year > 1970 then YearStart(year - 1) + YearLength(year - 1)
    else YearStart(year + 1) - YearLength(year)
  }

  function MonthStart(year: int, month: int): int
    decreases month
  {
    if month <= 1 then 0 else MonthStart(year, month - 1) + MonthLength(year, month - 1)
  }

  /** The plain count of days from 1970-01-01. */
  function DayCount(c: Civil): int {
    YearStart(c.year) + MonthStart(c.year, c.month) + c.day - 1
  }

  lemma NextDayCounts(c: Civil)
    requires ValidDate(c)
    ensures ValidDate(NextDay(c)) && DayCount(NextDay(c)) == DayCount(c) + 1
  {
    MonthStarts(c.year);
    assert MonthStart(c.year + 1, 1) == 0;
    YearStep(c.year);
  }

  lemma YearStep(year: int)
    ensures YearStart(year + 1) == YearStart(year) + YearLength(year)
  {
  }

  lemma MonthStarts(year: int)
    ensures MonthStart(year, 1) == 0 && MonthStart(year, 2) == 31
    ensures var f := if IsLeap(year) then 60 else 59;
            MonthStart(year, 3) == f && MonthStart(year, 4) == f + 31 && MonthStart(year, 5) == f + 61 &&
            MonthStart(year, 6) == f + 92 && MonthStart(year, 7) == f + 122 && MonthStart(year, 8) == f + 153 &&
            MonthStart(year, 9) == f + 184 && MonthStart(year, 10) == f + 214 && MonthStart(year, 11) == f + 245 &&
            MonthStart(year, 12) == f + 275
    ensures MonthStart(year, 13) == YearLength(year)
  {
    assert MonthStart(year, 4) == MonthStart(year, 3) + 31;
    assert MonthStart(year, 7) == MonthStart(year, 6) + 30;
    assert MonthStart(year, 10) == MonthStart(year, 9) + 30;
  }

  lemma {:induction false} YearStartClosed(year: int)
    ensures YearStart(year) == 365 * (year - 1970) + (year - 1) / 4 - (year - 1) / 100 + (year - 1) / 400 - 477
    decreases if year < 1970 then 1970 - year else year - 1970
  {
    if year > 1970 {
      YearStartClosed(year - 1);
      LeapStep(year - 1);
    } else if year < 1970 {
      YearStartClosed(year + 1);
      LeapStep(year);
    }
  }

  lemma Divides4(y: int)
    ensures y / 4 == (y - 1) / 4 + if y % 4 == 0 then 1 else 0
  {
  }

  lemma Divides100(y: int)
    ensures y / 100 == (y - 1) / 100 + if y % 100 == 0 then 1 else 0
  {
  }

  lemma Divides400(y: int)
    ensures y / 400 == (y - 1) / 400 + if y % 400 == 0 then 1 else 0
  {
  }

  lemma FourOfHundred(p: int)
    ensures (100 * p) % 4 == 0
  {
    assert 100 * p == 4 * (25 * p);
  }

  lemma HundredOfFourHundred(q: int)
    ensures (400 * q) % 100 == 0
  {
    assert 400 * q == 100 * (4 * q);
  }

  lemma Multiples(y: int)
    ensures y % 400 == 0 ==> y % 100 == 0
    ensures y % 100 == 0 ==> y % 4 == 0
  {
    HundredOfFourHundred(y / 400);
    FourOfHundred(y / 100);
  }

  /** The quotients go up together exactly in leap years. */
  lemma LeapStep(year: int)
    ensures year / 4 - year / 100 + year / 400 ==
            (year - 1) / 4 - (year - 1) / 100 + (year - 1) / 400 + if IsLeap(year) then 1 else 0
  {
    Divides4(year);
    Divides100(year);
    Divides400(year);
    Multiples(year);
  }

  // ----- days to civil -----

  function YearOfEra(doe: int): int {
    (doe - doe / 1_460 + doe / 36_524 - doe / 146_096) / 365
  }

  /** Days of the era before its March year `yoe`. */
  function EraYearStart(yoe: int): int {
    365 * yoe + yoe / 4 - yoe / 100
  }

  function FromDayOfYear(marchYear: int, doy: int): Civil {
    var mp := (5 * doy + 2) / 153;
    var day := doy - (153 * mp + 2) / 5 + 1;
    var month := if mp < 10 then mp + 3 else mp - 9;
    Civil(marchYear + if month <= 2 then 1 else 0, month, day)
  }

  function FromEra(era: int, doe: int): Civil {
    var yoe := YearOfEra(doe);
    FromDayOfYear(yoe + era * 400, doe - EraYearStart(yoe))
  }

  /** Howard Hinnant's days-to-civil, on unbounded integers. */
  function CivilFromDays(days: int): Civil {
    FromEra((days + 719_468) / 146_097, (days + 719_468) % 146_097)
  }

  /** A day of the era, in centuries, four-year cycles and days: the formula's year is the one it falls in. */
  lemma EraYearIn(c: int, q: int, s: int)
    requires 0 <= c <= 3 && 0 <= q <= 24 && 0 <= s <= 1_460
    requires q == 24 && s == 1_460 ==> c == 3
    ensures YearOfEra(36_524 * c + 1_461 * q + s) == 100 * c + 4 * q + (if s >= 1_095 then 3 else s / 365)
  {
    var doe := 36_524 * c + 1_461 * q + s;
    var late := if 24 * c + q + s >= 1_460 then 1 else 0;
    assert doe / 1_460 == 25 * c + q + late by {
      assert doe == 1_460 * (25 * c + q) + (24 * c + q + s);
    }
    var last := if c == 3 && q == 24 && s == 1_460 then 1 else 0;
    assert doe / 36_524 == c + last && doe / 146_096 == last;
    assert YearOfEra(doe) == (365 * (100 * c + 4 * q) + (s - late)) / 365;
  }

  lemma CycleEndsLeap(c: int, q: int)
    requires 0 <= c <= 3 && 0 <= q <= 24 && (q < 24 || c == 3)
    ensures IsLeap(100 * c + 4 * q + 4)
  {
    var y := 100 * c + 4 * q + 4;
    assert y == 4 * (25 * c + q + 1);
    if q < 24 {
      assert y % 100 == 4 * q + 4;
    } else {
      assert y == 400;
    }
  }

  /** Where a day of the era stands: its century, four-year cycle and day of the cycle. */
  lemma EraParts(doe: int) returns (c: int, q: int, s: int)
    requires 0 <= doe < 146_097
    ensures doe == 36_524 * c + 1_461 * q + s && 0 <= c <= 3 && 0 <= q <= 24 && 0 <= s <= 1_460
    ensures q == 24 && s == 1_460 ==> c == 3
  {
    c := if doe == 146_096 then 3 else doe / 36_524;
    var r := doe - 36_524 * c;
    q := r / 1_461;
    s := r - 1_461 * q;
  }

  lemma EraYear(doe: int)
    requires 0 <= doe < 146_097
    ensures 0 <= YearOfEra(doe) < 400 && 0 <= doe - EraYearStart(YearOfEra(doe)) < YearLength(YearOfEra(doe) + 1)
  {
    var c, q, s := EraParts(doe);
    EraYearIn(c, q, s);
    var t := if s >= 1_095 then 3 else s / 365;
    EraYearStartIn(c, q, t);
    if s == 1_460 {
      CycleEndsLeap(c, q);
    }
  }

  lemma EraYearStartIn(c: int, q: int, t: int)
    requires 0 <= c <= 3 && 0 <= q <= 24 && 0 <= t <= 3
    ensures EraYearStart(100 * c + 4 * q + t) == 36_524 * c + 1_461 * q + 365 * t
  {
    var y := 100 * c + 4 * q + t;
    assert y / 4 == 25 * c + q && y / 100 == c;
  }

  /** The month formula picks the month the day falls in: month starts in a March year are (153 m + 2) / 5. */
  lemma MonthFormula(doy: int)
    requires 0 <= doy <= 365
    ensures
      var mp := (5 * doy + 2) / 153;
      0 <= mp <= 11 && (153 * mp + 2) / 5 <= doy < (153 * (mp + 1) + 2) / 5
  {
  }

  /** Those starts agree with the month lengths added up from the first of March. */
  lemma MarchMonths(y: int, mp: int)
    requires 0 <= mp <= 11
    ensures mp < 10 ==> MonthStart(y, mp + 3) == MonthStart(y, 3) + (153 * mp + 2) / 5
    ensures mp < 10 ==> MonthLength(y, mp + 3) == (153 * (mp + 1) + 2) / 5 - (153 * mp + 2) / 5
    ensures mp == 10 ==> (153 * mp + 2) / 5 == 306
    ensures mp == 11 ==> (153 * mp + 2) / 5 == 337
  {
    MonthStarts(y);
  }

  /** A day of a March year is a valid date, that many days after the first of March. */
  lemma DayOfYear(marchYear: int, doy: int)
    requires 0 <= doy < YearLength(marchYear + 1)
    ensures
      var c := FromDayOfYear(marchYear, doy);
      ValidDate(c) && DayCount(c) == YearStart(marchYear) + MonthStart(marchYear, 3) + doy
  {
    var mp := (5 * doy + 2) / 153;
    MonthFormula(doy);
    MarchMonths(marchYear, mp);
    if mp >= 10 {
      MonthStarts(marchYear);
      MonthStarts(marchYear + 1);
      YearStep(marchYear);
      assert MonthStart(marchYear, 3) + 306 == YearLength(marchYear);
    }
  }

  lemma EraStart(era: int, yoe: int)
    requires 0 <= yoe < 400
    ensures
      var y := yoe + era * 400;
      YearStart(y) + MonthStart(y, 3) == era * 146_097 + EraYearStart(yoe) - 719_468
  {
    var y := yoe + era * 400;
    YearStartClosed(y);
    LeapStep(y);
    MonthStarts(y);
    assert y == 4 * (100 * era) + yoe && y == 100 * (4 * era) + yoe;
    assert y / 4 == 100 * era + yoe / 4 && y / 100 == 4 * era + yoe / 100 && y / 400 == era;
  }

  lemma InEra(era: int, doe: int)
    requires 0 <= doe < 146_097
    ensures
      var c := FromEra(era, doe);
      ValidDate(c) && DayCount(c) == era * 146_097 + doe - 719_468
  {
    var yoe := YearOfEra(doe);
    EraYear(doe);
    SameLeap(yoe + 1, era);
    assert yoe + 1 + era * 400 == yoe + era * 400 + 1;
    DayOfYear(yoe + era * 400, doe - EraYearStart(yoe));
    EraStart(era, yoe);
  }

  /** The conversion lands on a valid date, and the plain day count of that date is the day it came from. */
  lemma CountOfCivil(days: int)
    ensures ValidDate(CivilFromDays(days)) && DayCount(CivilFromDays(days)) == days
  {
    var z := days + 719_468;
    InEra(z / 146_097, z % 146_097);
    assert z == (z / 146_097) * 146_097 + z % 146_097;
  }

  lemma Shift4(y: int, q: int)
    ensures (y + 4 * q) % 4 == y % 4
  {
  }

  lemma Shift100(y: int, q: int)
    ensures (y + 100 * q) % 100 == y % 100
  {
  }

  lemma Shift400(y: int, q: int)
    ensures (y + 400 * q) % 400 == y % 400
  {
  }

  lemma SameLeap(y: int, era: int)
    ensures IsLeap(y + era * 400) <==> IsLeap(y)
  {
    Shift4(y, 100 * era);
    Shift100(y, 4 * era);
    Shift400(y, era);
  }

  // ----- the count is one to one -----

  lemma {:induction false} YearsApart(a: int, b: int)
    requires a <= b
    ensures YearStart(a) + 365 * (b - a) <= YearStart(b)
    decreases b - a
  {
    if a < b {
      YearsApart(a, b - 1);
      YearStep(b - 1);
    }
  }

  lemma WithinYear(c: Civil)
    requires ValidDate(c)
    ensures YearStart(c.year) <= DayCount(c) < YearStart(c.year + 1)
  {
    MonthStarts(c.year);
    YearStep(c.year);
    assert MonthStart(c.year, c.month + 1) <= YearLength(c.year);
  }

  lemma OneToOne(a: Civil, b: Civil)
    requires ValidDate(a) && ValidDate(b) && DayCount(a) == DayCount(b)
    ensures a == b
  {
    WithinYear(a);
    WithinYear(b);
    if a.year < b.year {
      YearsApart(a.year + 1, b.year);
    } else if b.year < a.year {
      YearsApart(b.year + 1, a.year);
    }
    MonthStarts(a.year);
    assert a.year == b.year;
  }

  /** The conversion inverts the plain day count. */
  lemma CivilOfCount(c: Civil)
    requires ValidDate(c)
    ensures CivilFromDays(DayCount(c)) == c
  {
    CountOfCivil(DayCount(c));
    OneToOne(CivilFromDays(DayCount(c)), c);
  }

  /** Day 0 is 1970-01-01. */
  lemma DayZero()
    ensures CivilFromDays(0) == Civil(1970, 1, 1)
  {
    CivilOfCount(Civil(1970, 1, 1));
  }

  /** The next day is always the next date, for every integer day. */
  lemma ConsecutiveDays(days: int)
    ensures CivilFromDays(days + 1) == NextDay(CivilFromDays(days))
  {
    CountOfCivil(days);
    NextDayCounts(CivilFromDays(days));
    CivilOfCount(NextDay(CivilFromDays(days)));
  }

  // ----- in 64-bit arithmetic -----

  newtype i64 = x: int | -0x8000_0000_0000_0000 <= x < 0x8000_0000_0000_0000
  newtype i32 = x: int | -0x8000_0000 <= x < 0x8000_0000

  const MAX_I64: i64 := 0x7FFF_FFFF_FFFF_FFFF
  const MIN_I64: i64 := -0x8000_0000_0000_0000
  const MAX_I32: i32 := 0x7FFF_FFFF
  const MIN_I32: i32 := -0x8000_0000

  const DAYS_FROM_UNIX_EPOCH_TO_2000: i64 := 10_957
  const MICROS_PER_DAY: i64 := 86_400_000_000

  datatype Date64 = Date64(year: i64, month: i64, day: i64)

  function Plain(d: Date64): Civil {
    Civil(d.year as int, d.month as int, d.day as int)
  }

  function YearOfEra64(doe: i64): (yoe: i64)
    requires 0 <= doe < 146_097
    ensures yoe as int == YearOfEra(doe as int) && 0 <= yoe < 400
  {
    EraYear(doe as int);
    (doe - doe / 1_460 + doe / 36_524 - doe / 146_096) / 365
  }

  function FromDayOfYear64(marchYear: i64, doy: i64): (r: Date64)
    requires 0 <= doy <= 365 && marchYear < MAX_I64
    ensures Plain(r) == FromDayOfYear(marchYear as int, doy as int)
  {
    var shiftedMonth := (5 * doy + 2) / 153;
    var day := doy - (153 * shiftedMonth + 2) / 5 + 1;
    var month := if shiftedMonth < 10 then shiftedMonth + 3 else shiftedMonth - 9;
    Date64(marchYear + if month <= 2 then 1 else 0, month, day)
  }

  function FromEra64(era: i64, dayOfEra: i64): (r: Date64)
    requires 0 <= dayOfEra < 146_097 && -0x1_0000_0000_0000 < era < 0x1_0000_0000_0000
    ensures Plain(r) == FromEra(era as int, dayOfEra as int)
  {
    EraYear(dayOfEra as int);
    var yearOfEra := YearOfEra64(dayOfEra);
    var dayOfYear := dayOfEra - (365 * yearOfEra + yearOfEra / 4 - yearOfEra / 100);
    FromDayOfYear64(yearOfEra + era * 400, dayOfYear)
  }

  /** `civil_date`. Every intermediate fits, for every day count the first addition does not carry past 64 bits. */
  function CivilDate(days: i64): (r: Date64)
    requires days as int + 719_468 < 0x8000_0000_0000_0000
    ensures ValidDate(Plain(r)) && DayCount(Plain(r)) == days as int
  {
    CountOfCivil(days as int);
    var z := days + 719_468;
    FromEra64(z / 146_097, z % 146_097)
  }

  datatype PgDate = Infinity | MinusInfinity | On(date: Date64)

  /** `date`: any 32-bit day count from 2000-01-01 except the two infinities is the date that many days on. */
  function Date(days: i32): (r: PgDate)
    ensures r.Infinity? <==> days == MAX_I32
    ensures r.MinusInfinity? <==> days == MIN_I32
    ensures r.On? ==> ValidDate(Plain(r.date)) && DayCount(Plain(r.date)) == days as int + DayCount(Civil(2000, 1, 1))
  {
    Epoch2000();
    if days == MAX_I32 then Infinity
    else if days == MIN_I32 then MinusInfinity
    else On(CivilDate(days as i64 + DAYS_FROM_UNIX_EPOCH_TO_2000))
  }

  lemma Epoch2000()
    ensures DayCount(Civil(2000, 1, 1)) == 10_957
  {
    YearStartClosed(2000);
  }

  datatype TimeOfDay = TimeOfDay(hour: i64, minute: i64, second: i64, fraction: i64)

  predicate ValidTime(t: TimeOfDay) {
    0 <= t.hour < 24 && 0 <= t.minute < 60 && 0 <= t.second < 60 && 0 <= t.fraction < 1_000_000
  }

  function MicrosOf(t: TimeOfDay): int {
    ((t.hour as int * 60 + t.minute as int) * 60 + t.second as int) * 1_000_000 + t.fraction as int
  }

  function TimeFields(micros: i64): (t: TimeOfDay)
    requires 0 <= micros < MICROS_PER_DAY
    ensures ValidTime(t) && MicrosOf(t) == micros as int
  {
    var seconds, fraction := micros / 1_000_000, micros % 1_000_000;
    assert micros == seconds * 1_000_000 + fraction;
    assert seconds / 60 / 60 == seconds / 3600;
    TimeOfDay(seconds / 3600, seconds / 60 % 60, seconds % 60, fraction)
  }

  datatype PgTimestamp = Forever | MinusForever | Moment(date: Date64, time: TimeOfDay)

  /** `timestamp`: date and time fields recombine to the exact microsecond count from 2000-01-01, for every
      64-bit count except the two infinities, negative ones included. */
  function Timestamp(micros: i64): (r: PgTimestamp)
    ensures r.Forever? <==> micros == MAX_I64
    ensures r.MinusForever? <==> micros == MIN_I64
    ensures r.Moment? ==>
              && ValidDate(Plain(r.date)) && ValidTime(r.time)
              && (DayCount(Plain(r.date)) - DayCount(Civil(2000, 1, 1))) * 86_400_000_000 + MicrosOf(r.time) == micros as int
  {
    Epoch2000();
    if micros == MAX_I64 then Forever
    else if micros == MIN_I64 then MinusForever
    else
      var days, ofDay := micros / MICROS_PER_DAY, micros % MICROS_PER_DAY;
      Moment(CivilDate(days + DAYS_FROM_UNIX_EPOCH_TO_2000), TimeFields(ofDay))
  }

  /** Two counts never read as the same date and time. */
  lemma TimestampsDistinct(a: i64, b: i64)
    requires Timestamp(a) == Timestamp(b)
    ensures a == b
  {
  }
}
