/**
 Time: the civil calendar behind the real-time clock. A year starts in March here, so that the
 leap day is its last day; eras are 400 years of 146097 days.
 */
module CivilDate {

  datatype Date = Date(year: int, month: int, day: int)

  /** Division that truncates toward zero. */
  function Quot(a: int, b: int): int
    requires b > 0
  {
    if a >= 0 then a / b else -((-a) / b)
  }

  predicate IsLeap(y: int) { (y % 4 == 0 && y % 100 != 0) || y % 400 == 0 }

  function DaysInMonth(y: int, month: int): int {
    if month == 2 then (if IsLeap(y) then 29 else 28)
    else if month == 4 || month == 6 || month == 9 || month == 11 then 30 else 31
  }

  predicate Valid(t: Date) { 1 <= t.month <= 12 && 1 <= t.day <= DaysInMonth(t.year, t.month) }

  // ---------------------------------------------------------------- the conversions

  function DaysFromCivil(t: Date): int {
    var y := t.year - if t.month <= 2 then 1 else 0;
    var era := Quot(if y >= 0 then y else y - 399, 400);
    var yoe := y - era * 400;
    var doy := Quot(153 * (t.month + if t.month > 2 then -3 else 9) + 2, 5) + t.day - 1;
    var doe := yoe * 365 + Quot(yoe, 4) - Quot(yoe, 100) + doy;
    era * 146097 + doe - 719468
  }

  function CivilFromDays(days: int): Date {
    var z := days + 719468;
    var era := Quot(if z >= 0 then z else z - 146096, 146097);
    var doe := z - era * 146097;
    var yoe := Quot(doe - Quot(doe, 1460) + Quot(doe, 36524) - Quot(doe, 146096), 365);
    var doy := doe - (365 * yoe + Quot(yoe, 4) - Quot(yoe, 100));
    var mp := Quot(5 * doy + 2, 153);
    var d := doy - Quot(153 * mp + 2, 5) + 1;
    var m := mp + if mp < 10 then 3 else -9;
    Date(yoe + era * 400 + (if m <= 2 then 1 else 0), m, d)
  }

  // ---------------------------------------------------------------- years of an era

  /** Days of the era before its year `y`. */
  function YearStart(y: nat): int { 365 * y + y / 4 - y / 100 }

  /** The year of the era ends with a leap day. */
  predicate LongYear(y: nat) { y % 4 == 3 && (y % 100 != 99 || y % 400 == 399) }

  function YearLength(y: nat): int { if LongYear(y) then 366 else 365 }

  function YearOfEra(doe: int): int {
    Quot(doe - Quot(doe, 1460) + Quot(doe, 36524) - Quot(doe, 146096), 365)
  }

  lemma YearStartNext(y: nat)
    requires y < 399
    ensures YearStart(y + 1) == YearStart(y) + YearLength(y)
  {
    var q, r := y / 4, y % 4;
    var c, s := y / 100, y % 100;
    assert y == 4 * q + r && y == 100 * c + s;
    assert (y + 1) / 4 == if r == 3 then q + 1 else q;
    assert (y + 1) / 100 == if s == 99 then c + 1 else c;
    assert s == 99 ==> y % 400 != 399;
  }

  /** A year is found from centuries, groups of four years and years. */
  lemma YearStartAt(c: nat, g: nat, t: nat)
    requires c <= 3 && g <= 24 && t <= 3
    ensures YearStart(100 * c + 4 * g + t) == 36524 * c + 1461 * g + 365 * t
    ensures LongYear(100 * c + 4 * g + t) <==> t == 3 && (g < 24 || c == 3)
  {
    var y := 100 * c + 4 * g + t;
    assert y / 4 == 25 * c + g && y % 4 == t;
    assert y / 100 == c && y % 100 == 4 * g + t;
  }

  /** Any day of the era: which century, group and year it lies in. */
  lemma Split(doe: nat) returns (c: nat, g: nat, t: nat, u: nat)
    requires doe < 146097
    ensures c <= 3 && g <= 24 && t <= 3 && doe == 36524 * c + 1461 * g + 365 * t + u
    ensures u < YearLength(100 * c + 4 * g + t)
  {
    c := if doe == 146096 then 3 else doe / 36524;
    var r := doe - 36524 * c;
    g := if r == 36524 then 24 else r / 1461;
    var s := r - 1461 * g;
    t := if s >= 1460 then 3 else s / 365;
    u := s - 365 * t;
    YearStartAt(c, g, t);
  }

  /** The year formula finds the year of every day. */
  lemma YearFound(c: nat, g: nat, t: nat, u: nat)
    requires c <= 3 && g <= 24 && t <= 3 && u < YearLength(100 * c + 4 * g + t)
    ensures var doe := 36524 * c + 1461 * g + 365 * t + u;
            0 <= doe < 146097 && YearOfEra(doe) == 100 * c + 4 * g + t
  {
    YearStartAt(c, g, t);
    var s := 365 * t + u;
    var doe := 36524 * c + 1461 * g + s;
    assert s <= 1460;
    var last := if doe == 146096 then 1 else 0;
    assert doe / 146096 == last && doe / 36524 == c + last;
    var e := if 24 * c + g + s >= 1460 then 1 else 0;
    assert doe == 1460 * (25 * c + g + e) + (24 * c + g + s - 1460 * e);
    assert doe / 1460 == 25 * c + g + e;
    var n := doe - doe / 1460 + doe / 36524 - doe / 146096;
    assert n == 365 * (100 * c + 4 * g + t) + (u - e);
    assert 0 <= u - e < 365;
  }

  // ---------------------------------------------------------------- months of a year

  /** Days of the year before month `mp`, counted from March. */
  function MonthStart(mp: nat): int { (153 * mp + 2) / 5 }

  function MonthLength(mp: nat, long: bool): int {
    if mp == 11 then (if long then 29 else 28)
    else if mp == 1 || mp == 3 || mp == 6 || mp == 8 then 30 else 31
  }

  lemma MonthStartIs(mp: nat)
    requires mp <= 11
    ensures MonthStart(mp) == [0, 31, 61, 92, 122, 153, 184, 214, 245, 275, 306, 337][mp]
  {
  }

  /** The month formula finds the month of every day. */
  lemma MonthFound(mp: nat, d: nat, long: bool)
    requires mp <= 11 && d < MonthLength(mp, long)
    ensures (5 * (MonthStart(mp) + d) + 2) / 153 == mp
    ensures MonthStart(mp) + d < if long then 366 else 365
  {
    MonthStartIs(mp);
    var k := 5 * MonthStart(mp) + 2 - 153 * mp;
    assert -2 <= k <= 4;
    assert 153 * mp <= 5 * (MonthStart(mp) + d) + 2 < 153 * mp + 153;
  }

  lemma MonthSplit(doy: nat, long: bool) returns (mp: nat, d: nat)
    requires doy < if long then 366 else 365
    ensures mp <= 11 && doy == MonthStart(mp) + d && d < MonthLength(mp, long)
  {
    mp := (5 * doy + 2) / 153;
    assert mp <= 11;
    MonthStartIs(mp);
    d := doy - MonthStart(mp);
  }

  // ---------------------------------------------------------------- whole dates

  /** A date by era, year of the era, month from March and day from zero. */
  datatype Parts = Parts(era: int, yoe: nat, mp: nat, d: nat)

  predicate Proper(p: Parts) { p.yoe < 400 && p.mp <= 11 && p.d < MonthLength(p.mp, LongYear(p.yoe)) }

  function MonthOf(mp: nat): int { if mp < 10 then mp + 3 else mp - 9 }

  function DateOf(p: Parts): Date {
    Date(400 * p.era + p.yoe + (if p.mp >= 10 then 1 else 0), MonthOf(p.mp), p.d + 1)
  }

  function DayOf(p: Parts): int { 146097 * p.era + YearStart(p.yoe) + MonthStart(p.mp) + p.d - 719468 }

  /** The source's era formulas round down. */
  lemma EraOfYear(y: int)
    ensures Quot(if y >= 0 then y else y - 399, 400) == y / 400
  {
  }

  lemma EraOfDay(z: int)
    ensures Quot(if z >= 0 then z else z - 146096, 146097) == z / 146097
  {
  }

  lemma EraIs(era: int, doe: nat)
    requires doe < 146097
    ensures (146097 * era + doe) / 146097 == era
  {
  }

  lemma YearRange(y: nat)
    requires y < 400
    ensures 0 <= YearStart(y) && YearStart(y) + YearLength(y) <= 146097
  {
    var c, r := y / 100, y % 100;
    var g, t := r / 4, r % 4;
    assert y == 100 * c + 4 * g + t;
    YearStartAt(c, g, t);
  }

  /** Dates to days, by parts. */
  lemma ToDays(p: Parts)
    requires Proper(p)
    ensures DaysFromCivil(DateOf(p)) == DayOf(p)
  {
    hide Quot;
    var t := DateOf(p);
    var y := t.year - if t.month <= 2 then 1 else 0;
    assert y == 400 * p.era + p.yoe;
    EraOfYear(y);
    assert y / 400 == p.era;
    QuotPos(p.yoe, 4);
    QuotPos(p.yoe, 100);
    QuotPos(153 * p.mp + 2, 5);
  }

  lemma QuotPos(a: nat, b: nat)
    requires b > 0
    ensures Quot(a, b) == a / b
  {
  }

  /** The conversion, given the value of each of its steps. */
  lemma CivilSteps(p: Parts, doe: int, doy: int)
    requires doe == YearStart(p.yoe) + doy && doy == MonthStart(p.mp) + p.d
    requires var z := 146097 * p.era + doe; Quot(if z >= 0 then z else z - 146096, 146097) == p.era
    requires Quot(doe - Quot(doe, 1460) + Quot(doe, 36524) - Quot(doe, 146096), 365) == p.yoe
    requires 365 * p.yoe + Quot(p.yoe, 4) - Quot(p.yoe, 100) == YearStart(p.yoe)
    requires Quot(5 * doy + 2, 153) == p.mp && Quot(153 * p.mp + 2, 5) == MonthStart(p.mp)
    requires p.mp <= 11
    ensures CivilFromDays(DayOf(p)) == DateOf(p)
  {
    hide Quot, YearStart, MonthStart;
  }

  /** Days to dates, by parts. */
  lemma FromDays(p: Parts)
    requires Proper(p)
    ensures CivilFromDays(DayOf(p)) == DateOf(p)
  {
    hide Quot, YearOfEra, LongYear, YearStart, MonthStart, MonthLength, CivilFromDays;
    MonthFound(p.mp, p.d, LongYear(p.yoe));
    MonthStartPos(p.mp);
    YearRange(p.yoe);
    var doy := MonthStart(p.mp) + p.d;
    var doe := YearStart(p.yoe) + doy;
    EraOfDay(146097 * p.era + doe);
    EraIs(p.era, doe);
    YearAt(p.yoe, doy);
    YearOfEraIs(doe);
    YearStartIs(p.yoe);
    QuotPos(5 * doy + 2, 153);
    CivilSteps(p, doe, doy);
  }

  lemma MonthStartPos(mp: nat)
    ensures MonthStart(mp) >= 0 && Quot(153 * mp + 2, 5) == MonthStart(mp)
  {
  }

  lemma YearStartIs(y: nat)
    ensures 365 * y + Quot(y, 4) - Quot(y, 100) == YearStart(y)
  {
  }

  lemma YearOfEraIs(doe: int)
    ensures YearOfEra(doe) == Quot(doe - Quot(doe, 1460) + Quot(doe, 36524) - Quot(doe, 146096), 365)
  {
  }

  lemma YearAt(y: nat, doy: nat)
    requires y < 400 && doy < YearLength(y)
    ensures YearOfEra(YearStart(y) + doy) == y
  {
    var c, r := y / 100, y % 100;
    var g, t := r / 4, r % 4;
    assert y == 100 * c + 4 * g + t;
    YearStartAt(c, g, t);
    YearFound(c, g, t, doy);
  }

  /** The parts of a month give its length, leap years included. */
  lemma PartsValid(p: Parts)
    requires p.yoe < 400 && p.mp <= 11
    ensures var t := DateOf(p); DaysInMonth(t.year, t.month) == MonthLength(p.mp, LongYear(p.yoe))
  {
    if p.mp == 11 {
      LeapIs(p.era, p.yoe);
    }
  }

  lemma LeapIs(era: int, yoe: nat)
    requires yoe < 400
    ensures IsLeap(400 * era + yoe + 1) <==> LongYear(yoe)
  {
    hide IsLeap, LongYear;
    Mod4(era, yoe + 1);
    Mod100(era, yoe + 1);
    Mod400(era, yoe + 1);
    LeapOf(400 * era + yoe + 1);
    LeapOf(yoe + 1);
    LongIs(yoe);
  }

  lemma Mod4(era: int, r: nat)
    ensures (400 * era + r) % 4 == r % 4
  {
    assert 400 * era + r == 4 * (100 * era + r / 4) + r % 4;
  }

  lemma Mod100(era: int, r: nat)
    ensures (400 * era + r) % 100 == r % 100
  {
    assert 400 * era + r == 100 * (4 * era + r / 100) + r % 100;
  }

  lemma Mod400(era: int, r: nat)
    ensures (400 * era + r) % 400 == r % 400
  {
    assert 400 * era + r == 400 * (era + r / 400) + r % 400;
  }

  lemma LeapOf(y: int)
    ensures IsLeap(y) <==> (y % 4 == 0 && y % 100 != 0) || y % 400 == 0
  {
  }

  lemma LongIs(yoe: nat)
    requires yoe < 400
    ensures LongYear(yoe) <==> IsLeap(yoe + 1)
  {
  }

  /** Every valid date has parts. */
  lemma PartsOf(t: Date) returns (p: Parts)
    requires Valid(t)
    ensures Proper(p) && DateOf(p) == t
  {
    var y := t.year - if t.month <= 2 then 1 else 0;
    var mp := if t.month > 2 then t.month - 3 else t.month + 9;
    p := Parts(y / 400, y % 400, mp, t.day - 1);
    assert y == 400 * (y / 400) + y % 400;
    PartsValid(p);
  }

  /** Every day has parts. */
  lemma PartsOfDay(days: int) returns (p: Parts)
    ensures Proper(p) && DayOf(p) == days
  {
    var z := days + 719468;
    var era, doe := z / 146097, z % 146097;
    assert z == 146097 * era + doe;
    var c, g, t, u := Split(doe);
    YearStartAt(c, g, t);
    var y := 100 * c + 4 * g + t;
    var mp, d := MonthSplit(u, LongYear(y));
    p := Parts(era, y, mp, d);
  }

  /** Day numbers and valid dates are in bijection. */
  lemma DaysRoundTrip(days: int)
    ensures Valid(CivilFromDays(days)) && DaysFromCivil(CivilFromDays(days)) == days
  {
    hide DaysFromCivil, CivilFromDays;
    var p := PartsOfDay(days);
    FromDays(p);
    ToDays(p);
    PartsValid(p);
  }

  lemma CivilRoundTrip(t: Date)
    requires Valid(t)
    ensures CivilFromDays(DaysFromCivil(t)) == t
  {
    hide DaysFromCivil, CivilFromDays;
    var p := PartsOf(t);
    ToDays(p);
    FromDays(p);
  }

  // ---------------------------------------------------------------- the calendar itself

  /** The day after, by the calendar's own rules. */
  function NextDate(t: Date): Date {
    if t.day < DaysInMonth(t.year, t.month) then t.(day := t.day + 1)
    else if t.month < 12 then Date(t.year, t.month + 1, 1)
    else Date(t.year + 1, 1, 1)
  }

  /** Counting days is counting from 1 January 1970, one for each next date. */
  lemma CountsDays(t: Date)
    requires Valid(t)
    ensures Valid(NextDate(t)) && DaysFromCivil(NextDate(t)) == DaysFromCivil(t) + 1
    ensures DaysFromCivil(Date(1970, 1, 1)) == 0
  {
    hide DaysFromCivil;
    var p := PartsOf(t);
    ToDays(p);
    PartsValid(p);
    var q := NextParts(p);
    NextPartsIs(p);
    ToDays(q);
    Epoch();
  }

  lemma Epoch()
    ensures DaysFromCivil(Date(1970, 1, 1)) == 0
  {
  }

  function NextParts(p: Parts): Parts {
    if p.d + 1 < MonthLength(p.mp, LongYear(p.yoe)) then p.(d := p.d + 1)
    else if p.mp < 11 then Parts(p.era, p.yoe, p.mp + 1, 0)
    else if p.yoe < 399 then Parts(p.era, p.yoe + 1, 0, 0)
    else Parts(p.era + 1, 0, 0, 0)
  }

  lemma NextPartsIs(p: Parts)
    requires Proper(p)
    ensures Proper(NextParts(p)) && DateOf(NextParts(p)) == NextDate(DateOf(p)) && DayOf(NextParts(p)) == DayOf(p) + 1
  {
    hide LongYear, YearStart, MonthStart, IsLeap;
    PartsValid(p);
    LastMonth(p.mp, LongYear(p.yoe));
    if p.yoe < 399 {
      YearStartNext(p.yoe);
    }
    YearEnds();
  }

  /** Each month starts where the one before it ends; the last ends the year. */
  lemma LastMonth(mp: nat, long: bool)
    requires mp <= 11
    ensures mp < 11 ==> MonthStart(mp + 1) == MonthStart(mp) + MonthLength(mp, long)
    ensures mp == 11 ==> MonthStart(mp) + MonthLength(mp, long) == if long then 366 else 365
    ensures MonthStart(0) == 0
  {
    MonthStartIs(mp);
    if mp < 11 {
      MonthStartIs(mp + 1);
    }
  }

  lemma YearEnds()
    ensures YearStart(0) == 0 && YearStart(399) + YearLength(399) == 146097
  {
  }

  // ---------------------------------------------------------------- day of the year

  const CUM_DAYS: seq<int> := [0, 31, 59, 90, 120, 151, 181, 212, 243, 273, 304, 334]

  function YDay(t: Date): int
    requires 1 <= t.month <= 12
  {
    CUM_DAYS[t.month - 1] + (t.day - 1) + if IsLeap(t.year) && t.month >= 3 then 1 else 0
  }

  function Previous(t: Date): Date {
    if t.day > 1 then t.(day := t.day - 1) else Date(t.year, t.month - 1, DaysInMonth(t.year, t.month - 1))
  }

  lemma PreviousIs(t: Date)
    requires Valid(t) && !(t.month == 1 && t.day == 1)
    ensures Valid(Previous(t)) && NextDate(Previous(t)) == t && YDay(Previous(t)) == YDay(t) - 1 && YDay(t) > 0
  {
    hide IsLeap;
  }

  /** The day of the year is the distance from 1 January. */
  lemma {:induction false} YDayIsDistance(t: Date)
    requires Valid(t)
    ensures 0 <= YDay(t) == DaysFromCivil(t) - DaysFromCivil(Date(t.year, 1, 1))
    decreases YDay(t)
  {
    hide DaysFromCivil, IsLeap;
    if !(t.month == 1 && t.day == 1) {
      var p := Previous(t);
      PreviousIs(t);
      CountsDays(p);
      YDayIsDistance(p);
    }
  }

  // ---------------------------------------------------------------- clock time

  /** The clock's broken-down time: months from zero, years from 1900. */
  datatype Rtc = Rtc(sec: int, min: int, hour: int, mday: int, mon: int, year: int, wday: int, yday: int)

  datatype Secs = Bad | Secs(value: int)

  predicate I32(n: int) { -0x8000_0000 <= n < 0x8000_0000 }

  predicate I64(n: int) { -0x8000_0000_0000_0000 <= n < 0x8000_0000_0000_0000 }

  function RtcFromUnix(secs: int): Rtc {
    var days, rest := secs / 86400, secs % 86400;
    var t := CivilFromDays(days);
    var yday := if 1 <= t.month <= 12 then YDay(t) else 0;
    Rtc(rest % 60, rest % 3600 / 60, rest / 3600, t.day, t.month - 1, t.year - 1900, (days + 4) % 7, yday)
  }

  function UnixFromRtc(r: Rtc): Secs {
    if !(0 <= r.sec <= 59 && 0 <= r.min <= 59 && 0 <= r.hour <= 23 && 0 <= r.mon <= 11) then Bad
    else if !I32(r.year + 1900) then Bad
    else if r.mday < 1 || r.mday > DaysInMonth(r.year + 1900, r.mon + 1) then Bad
    else
      var days := DaysFromCivil(Date(r.year + 1900, r.mon + 1, r.mday));
      var secs := days * 86400 + (r.hour * 3600 + r.min * 60 + r.sec);
      if !I64(days * 86400) || !I64(secs) then Bad else Secs(secs)
  }

  /** Days of the week follow each other, with Sunday as 0: the clock starts on a Thursday, and 1 January 2000 is a
      Saturday. */
  lemma WeekDays(secs: int)
    ensures RtcFromUnix(0).wday == 4 && RtcFromUnix(946684800).wday == 6
    ensures RtcFromUnix(946684800).year == 100 && RtcFromUnix(946684800).yday == 0
    ensures RtcFromUnix(secs + 86400).wday == if RtcFromUnix(secs).wday == 6 then 0 else RtcFromUnix(secs).wday + 1
    ensures RtcFromUnix(secs / 86400 * 86400).wday == RtcFromUnix(secs).wday
  {
    hide CivilFromDays, YDay;
    assert (secs + 86400) / 86400 == secs / 86400 + 1;
    assert secs / 86400 * 86400 / 86400 == secs / 86400;
    assert 946684800 / 86400 == 10957;
    Millennium();
  }

  lemma Millennium()
    ensures CivilFromDays(10957) == Date(2000, 1, 1) && YDay(Date(2000, 1, 1)) == 0
  {
  }

  // ---------------------------------------------------------------- which seconds fit

  function NewYear(year: int): int { DaysFromCivil(Date(year, 1, 1)) }

  lemma NextNewYear(year: int)
    ensures NewYear(year) < NewYear(year + 1)
    ensures forall t | Valid(t) && t.year == year :: NewYear(year) <= DaysFromCivil(t) < NewYear(year + 1)
  {
    hide DaysFromCivil, IsLeap;
    var last := Date(year, 12, 31);
    YDayIsDistance(last);
    CountsDays(last);
    forall t | Valid(t) && t.year == year ensures NewYear(year) <= DaysFromCivil(t) < NewYear(year + 1) {
      YDayIsDistance(t);
      assert YDay(t) <= YDay(last);
    }
  }

  lemma {:induction false} NewYearsGrow(a: int, b: int)
    requires a <= b
    ensures NewYear(a) <= NewYear(b)
    decreases b - a
  {
    hide NewYear;
    if a < b {
      NextNewYear(a);
      NewYearsGrow(a + 1, b);
    }
  }

  /** A date is in year `year` or later exactly when it does not come before that year's first day. */
  lemma YearFrom(days: int, year: int)
    ensures CivilFromDays(days).year >= year <==> days >= NewYear(year)
  {
    hide NewYear, CivilFromDays, DaysFromCivil;
    DaysRoundTrip(days);
    var y := CivilFromDays(days).year;
    NextNewYear(y);
    if y < year {
      NewYearsGrow(y + 1, year);
    } else {
      NewYearsGrow(year, y);
    }
  }

  /** 1 January -2147481748, whose year is the least whose distance from 1900 fits 32 bits. */
  const FIRST_SECOND: int := -67768040609740800

  /** 31 December 2147483647. */
  const LAST_SECOND: int := 67767976233532799

  lemma EndsOfTime()
    ensures NewYear(-2147481748) * 86400 == FIRST_SECOND
    ensures NewYear(2147483648) * 86400 == LAST_SECOND + 1
  {
    assert Quot(-2147482148, 400) == -5368705 && Quot(2147483647, 400) == 5368709;
    assert Quot(251, 4) == 62 && Quot(251, 100) == 2 && Quot(47, 4) == 11 && Quot(47, 100) == 0 && Quot(1532, 5) == 306;
    hide Quot;
    assert NewYear(-2147481748) == -784352321872;
    assert NewYear(2147483648) == 784351576777;
  }

  /** The year fits its fields exactly between the two ends. */
  lemma YearFits(secs: int)
    ensures var y := CivilFromDays(secs / 86400).year;
            I32(y) && I32(y - 1900) <==> FIRST_SECOND <= secs <= LAST_SECOND
  {
    hide NewYear, CivilFromDays;
    var days := secs / 86400;
    YearFrom(days, -2147481748);
    YearFrom(days, 2147483648);
    EndsOfTime();
  }

  lemma SecondsFit(secs: int)
    requires FIRST_SECOND <= secs <= LAST_SECOND
    ensures I64(secs) && I64(secs / 86400 * 86400)
  {
    assert secs - 86400 < secs / 86400 * 86400 <= secs;
  }

  /** Seconds to clock time and back is the identity for every second whose year fits its field. */
  lemma UnixRoundTrip(secs: int)
    requires FIRST_SECOND <= secs <= LAST_SECOND
    ensures UnixFromRtc(RtcFromUnix(secs)) == Secs(secs)
  {
    hide DaysFromCivil, CivilFromDays, YDay, I64, I32;
    YearFits(secs);
    SecondsFit(secs);
    var days, rest := secs / 86400, secs % 86400;
    DaysRoundTrip(days);
    TimeOfDay(rest);
    assert secs == days * 86400 + rest;
  }

  lemma TimeOfDay(rest: nat)
    requires rest < 86400
    ensures var h, m, s := rest / 3600, rest % 3600 / 60, rest % 60;
            0 <= h <= 23 && 0 <= m <= 59 && 0 <= s <= 59 && h * 3600 + m * 60 + s == rest
  {
    var q := rest % 3600;
    assert rest == 3600 * (rest / 3600) + q && q == 60 * (q / 60) + q % 60;
    TimeParts(rest / 3600, q / 60, q % 60);
  }

  /** Every accepted clock time survives the reverse trip, with its day of the year and week worked out. */
  lemma RtcRoundTrip(r: Rtc)
    requires UnixFromRtc(r).Secs?
    ensures var t := Date(r.year + 1900, r.mon + 1, r.mday);
            RtcFromUnix(UnixFromRtc(r).value) ==
            r.(yday := DaysFromCivil(t) - DaysFromCivil(Date(t.year, 1, 1)), wday := (DaysFromCivil(t) + 4) % 7)
  {
    hide DaysFromCivil, CivilFromDays, YDay, I64, I32;
    var t := Date(r.year + 1900, r.mon + 1, r.mday);
    var rest := r.hour * 3600 + r.min * 60 + r.sec;
    CivilRoundTrip(t);
    YDayIsDistance(t);
    DayAndRest(DaysFromCivil(t), rest);
    TimeParts(r.hour, r.min, r.sec);
  }

  lemma DayAndRest(days: int, rest: nat)
    requires rest < 86400
    ensures (days * 86400 + rest) / 86400 == days && (days * 86400 + rest) % 86400 == rest
  {
  }

  lemma TimeParts(h: nat, m: nat, s: nat)
    requires h < 24 && m < 60 && s < 60
    ensures var rest := h * 3600 + m * 60 + s;
            rest < 86400 && rest / 3600 == h && rest % 3600 / 60 == m && rest % 60 == s
  {
    var rest, q := h * 3600 + m * 60 + s, m * 60 + s;
    assert rest == 3600 * h + q && q < 3600;
    assert rest / 3600 == h && rest % 3600 == q;
    assert q / 60 == m && q % 60 == s;
    assert rest == 60 * (60 * h + m) + s;
  }
}
