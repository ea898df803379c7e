/**
 Days since the Unix epoch to proleptic Gregorian dates (RFC 3339 section 5.7 and Appendix C),
 and the fixed-width timestamps built from them.
 */
module CivilDate {

  datatype Date = Date(year: int, month: int, day: int)

  // ---- The calendar, stated without reference to the conversion ----

  predicate Leap(y: int) {
    y % 4 == 0 && (y % 100 != 0 || y % 400 == 0)
  }

  function DaysInMonth(y: int, m: int): int {
    if m == 2 then (if Leap(y) then 29 else 28)
    else if m == 4 || m == 6 || m == 9 || m == 11 then 30
    else 31
  }

  predicate Valid(c: Date) {
    1 <= c.month <= 12 && 1 <= c.day <= DaysInMonth(c.year, c.month)
  }

  function NextDay(c: Date): Date {
    if c.day < DaysInMonth(c.year, c.month) then Date(c.year, c.month, c.day + 1)
    else if c.month < 12 then Date(c.year, c.month + 1, 1)
    else Date(c.year + 1, 1, 1)
  }

  function DaysBeforeMonth(y: int, m: int): int
    requires 1 <= m <= 12
  {
    if m == 1 then 0 else DaysBeforeMonth(y, m - 1) + DaysInMonth(y, m - 1)
  }

  /** Days from 1 January of year 1 to 1 January of year `y`. */
  function DaysBeforeYear(y: int): int {
    365 * (y - 1) + (y - 1) / 4 - (y - 1) / 100 + (y - 1) / 400
  }

  /** The standard days-from-civil map. 1 January 1970 is day 0. */
  function DaysFromCivil(c: Date): int
    requires 1 <= c.month <= 12
  {
    DaysBeforeYear(c.year) + DaysBeforeMonth(c.year, c.month) + c.day - 1 - 719_162
  }

  // ---- The conversion ----

  /** Division of signed machine integers, which truncates toward zero. */
  function TruncDiv(a: int, b: int): int
    requires b > 0
  {
    if a >= 0 then a / b else -((-a) / b)
  }

  function YearOfEra(doe: int): int {
    (doe - doe / 1460 + doe / 36524 - doe / 146096) / 365
  }

  function CivilFromDays(z0: int): Date {
    var z := z0 + 719_468;
    var era := TruncDiv(if z >= 0 then z else z - 146_096, 146_097);
    var doe := z - era * 146_097;
    var yoe := YearOfEra(doe);
    var y := yoe + era * 400;
    var doy := doe - (365 * yoe + yoe / 4 - yoe / 100);
    var mp := (5 * doy + 2) / 153;
    var d := doy - (153 * mp + 2) / 5 + 1;
    var m := if mp < 10 then mp + 3 else mp - 9;
    Date(if m <= 2 then y + 1 else y, m, d)
  }

  lemma EraIsFloor(z: int)
    ensures TruncDiv(if z >= 0 then z else z - 146_096, 146_097) == z / 146_097
  {
    if z < 0 {
      var a := 146_096 - z;
      var q := a / 146_097;
      assert q * 146_097 <= a < q * 146_097 + 146_097;
      assert z / 146_097 == -q;
    }
  }

  /** A day of the 400-year era as centuries, four-year cycles, years and days, each floored. */
  datatype EraDay = EraDay(century: int, cycle: int, year: int, day: int)

  predicate InEra(e: EraDay) {
    && 0 <= e.century <= 3 && 0 <= e.cycle <= 24 && 0 <= e.year <= 3 && 0 <= e.day <= 365
    && (e.day == 365 ==> e.year == 3 && (e.cycle < 24 || e.century == 3))
  }

  function DayOfEra(e: EraDay): int {
    36524 * e.century + 1461 * e.cycle + 365 * e.year + e.day
  }

  lemma SplitEra(doe: int) returns (e: EraDay)
    requires 0 <= doe < 146_097
    ensures InEra(e) && DayOfEra(e) == doe
  {
    var c := if doe == 146_096 then 3 else doe / 36524;
    var r := doe - 36524 * c;
    var b := r / 1461;
    var q := r - 1461 * b;
    var a := if q == 1460 then 3 else q / 365;
    e := EraDay(c, b, a, q - 365 * a);
  }

  lemma YearOfEraExact(e: EraDay)
    requires InEra(e)
    ensures YearOfEra(DayOfEra(e)) == 100 * e.century + 4 * e.cycle + e.year
  {
    var doe := DayOfEra(e);
    var rest := 24 * e.century + e.cycle + 365 * e.year + e.day;
    assert doe == 1460 * (25 * e.century + e.cycle) + rest;
    var carry := if rest >= 1460 then 1 else 0;
    assert doe / 1460 == 25 * e.century + e.cycle + carry;
    assert doe / 36524 - doe / 146096 == e.century;
    assert doe - doe / 1460 + doe / 36524 - doe / 146096
        == 365 * (100 * e.century + 4 * e.cycle + e.year) + (e.day - carry);
  }

  lemma BeforeMonth(y: int, m: int)
    requires 1 <= m <= 12
    ensures DaysBeforeMonth(y, m) == [0, 31, 59, 90, 120, 151, 181, 212, 243, 273, 304, 334][m - 1]
                                     + (if m > 2 && Leap(y) then 1 else 0)
  {
    if m > 1 { BeforeMonth(y, m - 1); }
  }

  lemma By4(n: int, q: int, r: int)
    requires n == 4 * q + r && 0 <= r < 4
    ensures n / 4 == q && n % 4 == r
  {
  }

  lemma By100(n: int, q: int, r: int)
    requires n == 100 * q + r && 0 <= r < 100
    ensures n / 100 == q && n % 100 == r
  {
  }

  lemma By400(n: int, q: int, r: int)
    requires n == 400 * q + r && 0 <= r < 400
    ensures n / 400 == q && n % 400 == r
  {
  }

  /** How the three terms of the leap rule grow from one year to the next, and how they contain each other. */
  lemma LeapTerms(y: int)
    ensures y / 4 == (y - 1) / 4 + (if y % 4 == 0 then 1 else 0)
    ensures y / 100 == (y - 1) / 100 + (if y % 100 == 0 then 1 else 0)
    ensures y / 400 == (y - 1) / 400 + (if y % 400 == 0 then 1 else 0)
    ensures y % 400 == 0 ==> y % 100 == 0
    ensures y % 100 == 0 ==> y % 4 == 0
  {
    var a, b, c := y / 4, y / 100, y / 400;
    var p, q, r := y - 4 * a, y - 100 * b, y - 400 * c;
    By4(y, a, p);
    By100(y, b, q);
    By400(y, c, r);
    By4(y - 1, if p == 0 then a - 1 else a, if p == 0 then 3 else p - 1);
    By100(y - 1, if q == 0 then b - 1 else b, if q == 0 then 99 else q - 1);
    By400(y - 1, if r == 0 then c - 1 else c, if r == 0 then 399 else r - 1);
    if r == 0 { By100(y, 4 * c, 0); }
    if q == 0 { By4(y, 25 * b, 0); }
  }

  lemma YearStep(y: int)
    ensures DaysBeforeYear(y + 1) == DaysBeforeYear(y) + 365 + (if Leap(y) then 1 else 0)
  {
    LeapTerms(y);
  }

  /** The day on which the March-based month `mp` begins, and the length of that month at most. */
  const MARCH_START := [0, 31, 61, 92, 122, 153, 184, 214, 245, 275, 306, 337]

  lemma MarchMonth(day: int) returns (mp: int)
    requires 0 <= day <= 365
    ensures 0 <= mp <= 11 && mp == (5 * day + 2) / 153 && (153 * mp + 2) / 5 == MARCH_START[mp]
    ensures MARCH_START[mp] <= day && (mp < 11 ==> day < MARCH_START[mp + 1])
  {
    mp := (5 * day + 2) / 153;
  }

  /** Day `day` of the year that begins on 1 March of `march`, in month `mp` counted from March. */
  function MarchDate(march: int, day: int, mp: int): Date
    requires 0 <= mp <= 11
  {
    Date(if mp < 10 then march else march + 1, if mp < 10 then mp + 3 else mp - 9, day - MARCH_START[mp] + 1)
  }

  lemma LeapDays(e: EraDay)
    requires InEra(e)
    ensures var y := 100 * e.century + 4 * e.cycle + e.year; y / 4 == 25 * e.century + e.cycle && y / 100 == e.century
  {
  }

  lemma FromParts(z: int, era: int, e: EraDay, mp: int)
    requires var n := z + 719_468;
             n == 146_097 * era + DayOfEra(e) && era == TruncDiv(if n >= 0 then n else n - 146_096, 146_097)
    requires var y := 100 * e.century + 4 * e.cycle + e.year;
             YearOfEra(DayOfEra(e)) == y && y / 4 == 25 * e.century + e.cycle && y / 100 == e.century
    requires 0 <= mp <= 11 && mp == (5 * e.day + 2) / 153 && (153 * mp + 2) / 5 == MARCH_START[mp]
    ensures CivilFromDays(z) == MarchDate(400 * era + 100 * e.century + 4 * e.cycle + e.year, e.day, mp)
  {
    hide YearOfEra, TruncDiv;
    assert z + 719_468 - era * 146_097 == DayOfEra(e);
  }

  /** The conversion, in terms of the floored parts of the day. */
  lemma CivilParts(z: int) returns (era: int, e: EraDay, mp: int)
    ensures InEra(e) && z + 719_468 == 146_097 * era + DayOfEra(e)
    ensures 0 <= mp <= 11 && MARCH_START[mp] <= e.day && (mp < 11 ==> e.day < MARCH_START[mp + 1])
    ensures CivilFromDays(z) == MarchDate(400 * era + 100 * e.century + 4 * e.cycle + e.year, e.day, mp)
  {
    hide YearOfEra, TruncDiv, CivilFromDays;
    EraIsFloor(z + 719_468);
    era := (z + 719_468) / 146_097;
    e := SplitEra(z + 719_468 - era * 146_097);
    YearOfEraExact(e);
    LeapDays(e);
    mp := MarchMonth(e.day);
    FromParts(z, era, e, mp);
  }

  lemma LeapFebruary(era: int, e: EraDay)
    requires InEra(e) && e.day == 365
    ensures Leap(400 * era + 100 * e.century + 4 * e.cycle + e.year + 1)
  {
    var y := 400 * era + 100 * e.century + 4 * (e.cycle + 1);
    By4(y, 100 * era + 25 * e.century + e.cycle + 1, 0);
    if e.cycle < 24 {
      By100(y, 4 * era + e.century, 4 * (e.cycle + 1));
    } else {
      By400(y, era + 1, 0);
    }
  }

  /** A date counted from 1 March of year `march`, with both conversions of its month. */
  lemma FromMarch(march: int, day: int, mp: int)
    requires 0 <= day <= 365 && 0 <= mp <= 11
    requires MARCH_START[mp] <= day && (mp < 11 ==> day < MARCH_START[mp + 1])
    requires day == 365 ==> Leap(march + 1)
    ensures var c := MarchDate(march, day, mp);
            && Valid(c)
            && DaysFromCivil(c) == DaysBeforeYear(march + 1) + day - 719_468
  {
    if mp < 10 {
      YearStep(march);
      BeforeMonth(march, mp + 3);
    } else {
      BeforeMonth(march + 1, mp - 9);
    }
  }

  lemma MarchYearStart(era: int, e: EraDay)
    requires InEra(e)
    ensures DaysBeforeYear(400 * era + 100 * e.century + 4 * e.cycle + e.year + 1)
         == 146_097 * era + 36524 * e.century + 1461 * e.cycle + 365 * e.year
  {
    var march := 400 * era + 100 * e.century + 4 * e.cycle + e.year;
    assert march / 4 == 100 * era + 25 * e.century + e.cycle;
    assert march / 100 == 4 * era + e.century;
    assert march / 400 == era;
  }

  /** Every day number gets a calendar date, and the standard map takes it back. */
  lemma CivilRoundTrip(z: int)
    ensures Valid(CivilFromDays(z))
    ensures DaysFromCivil(CivilFromDays(z)) == z
  {
    hide CivilFromDays, DaysFromCivil, DaysBeforeYear, Leap, Valid, MarchDate;
    var era, e, mp := CivilParts(z);
    MarchYearStart(era, e);
    if e.day == 365 { LeapFebruary(era, e); }
    FromMarch(400 * era + 100 * e.century + 4 * e.cycle + e.year, e.day, mp);
  }

  predicate Before(a: Date, b: Date) {
    || a.year < b.year
    || (a.year == b.year && (a.month < b.month || (a.month == b.month && a.day < b.day)))
  }

  lemma {:induction false} YearsGrow(a: int, b: int)
    requires a <= b
    ensures DaysBeforeYear(a) + 365 * (b - a) <= DaysBeforeYear(b)
    decreases b - a
  {
    if a < b {
      YearsGrow(a, b - 1);
      YearStep(b - 1);
    }
  }

  lemma WithinYear(c: Date)
    requires Valid(c)
    ensures 0 <= DaysBeforeMonth(c.year, c.month) + c.day - 1 < 365 + (if Leap(c.year) then 1 else 0)
  {
    BeforeMonth(c.year, c.month);
  }

  /** The standard map is strictly increasing on valid dates. */
  lemma DaysIncrease(a: Date, b: Date)
    requires Valid(a) && Valid(b) && Before(a, b)
    ensures DaysFromCivil(a) < DaysFromCivil(b)
  {
    WithinYear(a);
    WithinYear(b);
    if a.year < b.year {
      YearStep(a.year);
      YearsGrow(a.year + 1, b.year);
    } else {
      BeforeMonth(a.year, a.month);
      BeforeMonth(a.year, b.month);
    }
  }

  /** A valid date survives the trip through its day number. */
  lemma DaysRoundTrip(c: Date)
    requires Valid(c)
    ensures CivilFromDays(DaysFromCivil(c)) == c
  {
    var back := CivilFromDays(DaysFromCivil(c));
    CivilRoundTrip(DaysFromCivil(c));
    if Before(back, c) { DaysIncrease(back, c); }
    if Before(c, back) { DaysIncrease(c, back); }
  }

  lemma NextDaySucc(c: Date)
    requires Valid(c)
    ensures Valid(NextDay(c)) && DaysFromCivil(NextDay(c)) == DaysFromCivil(c) + 1
  {
    if c.day == DaysInMonth(c.year, c.month) && c.month == 12 {
      YearStep(c.year);
      BeforeMonth(c.year, 12);
    }
  }

  lemma FollowingDay(z: int, c: Date)
    requires Valid(c) && DaysFromCivil(c) == z
    ensures CivilFromDays(z + 1) == NextDay(c)
  {
    hide CivilFromDays, DaysFromCivil, NextDay;
    NextDaySucc(c);
    DaysRoundTrip(NextDay(c));
  }

  /** Consecutive day numbers are consecutive calendar days. */
  lemma ConsecutiveDays(z: int)
    ensures CivilFromDays(z + 1) == NextDay(CivilFromDays(z))
  {
    hide CivilFromDays, DaysFromCivil, NextDay;
    CivilRoundTrip(z);
    FollowingDay(z, CivilFromDays(z));
  }

  /** Day 0 is the Unix epoch. */
  lemma EpochDay()
    ensures CivilFromDays(0) == Date(1970, 1, 1)
  {
    var c := Date(1970, 1, 1);
    EpochIsZero(c);
    DaysRoundTrip(c);
  }

  lemma EpochIsZero(c: Date)
    requires c == Date(1970, 1, 1)
    ensures DaysFromCivil(c) == 0
  {
    assert DaysBeforeYear(1970) == 719_162;
  }

  lemma DatesFollowDays(y: int, z: int)
    requires y < z
    ensures Before(CivilFromDays(y), CivilFromDays(z))
  {
    CivilRoundTrip(y);
    CivilRoundTrip(z);
    var a, b := CivilFromDays(y), CivilFromDays(z);
    if Before(b, a) { DaysIncrease(b, a); }
  }
}
