/**
 UNIX seconds to Gregorian date and time, as the logger does it, against a
 calendar defined by counting the days of years and months one by one.
 */
module Utc {
  import opened Bytes

  datatype SimpleUtc = SimpleUtc(year: int, mon: int, day: int, hour: int, min: int, sec: int)

  const I32_MAX := 0x7FFF_FFFF

  // ---- the reference calendar -------------------------------------------

  predicate IsLeap(y: int) {
    y % 4 == 0 && (y % 100 != 0 || y % 400 == 0)
  }

  function DaysInMonth(y: int, m: int): int
    requires 1 <= m <= 12
  {
    if m == 2 then (if IsLeap(y) then 29 else 28)
    else if m == 4 || m == 6 || m == 9 || m == 11 then 30
    else 31
  }

  /** Days of year `y` that precede the first of month `m`. */
  function DaysBeforeMonth(y: int, m: int): int
    requires 1 <= m <= 13
    decreases m
  {
    if m == 1 then 0 else DaysBeforeMonth(y, m - 1) + DaysInMonth(y, m - 1)
  }

  function YearLength(y: int): int {
    if IsLeap(y) then 366 else 365
  }

  /** Days from 1 January 1970 to 1 January of year `y`. */
  function DaysBeforeYear(y: int): int
    requires 1970 <= y
    decreases y
  {
    if y == 1970 then 0 else DaysBeforeYear(y - 1) + YearLength(y - 1)
  }

  predicate ValidUtc(t: SimpleUtc) {
    1970 <= t.year && 1 <= t.mon <= 12 && 1 <= t.day <= DaysInMonth(t.year, t.mon) &&
    0 <= t.hour < 24 && 0 <= t.min < 60 && 0 <= t.sec < 60
  }

  function DayNumber(y: int, m: int, d: int): int
    requires 1970 <= y && 1 <= m <= 12
  {
    DaysBeforeYear(y) + DaysBeforeMonth(y, m) + d - 1
  }

  function ToUnix(t: SimpleUtc): int
    requires ValidUtc(t)
  {
    DayNumber(t.year, t.mon, t.day) * 86400 + t.hour * 3600 + t.min * 60 + t.sec
  }

  /** Lexicographic order on (year, month, day, hour, minute, second). */
  predicate Earlier(a: SimpleUtc, b: SimpleUtc) {
    if a.year != b.year then a.year < b.year
    else if a.mon != b.mon then a.mon < b.mon
    else if a.day != b.day then a.day < b.day
    else if a.hour != b.hour then a.hour < b.hour
    else if a.min != b.min then a.min < b.min
    else a.sec < b.sec
  }

  // ---- the logger's conversion ------------------------------------------

  /** Date of a day number since 1970, by eras of 400 years that start in March. */
  function CivilFromDays(days: nat): (int, int, int) {
    var z := days + 719_468;
    var era := z / 146_097;
    var doe := z - era * 146_097;
    var yoe := YearOfEra(doe);
    CivilOfMarch(yoe + era * 400, doe - (365 * yoe + yoe / 4 - yoe / 100))
  }

  /** Year, month and day of day `doy` of the year that starts in March of year `y`. */
  function CivilOfMarch(y: int, doy: int): (int, int, int) {
    var mp := (5 * doy + 2) / 153;
    var d := doy - (153 * mp + 2) / 5 + 1;
    var m := if mp < 10 then mp + 3 else mp - 9;
    (y + (if m <= 2 then 1 else 0), m, d)
  }

  datatype UtcResult = Ok(utc: SimpleUtc) | YearOverflow

  /** The conversion as one expression; `UnixToUtc` computes it by reassigning `s`. */
  function UtcOf(s: u64): UtcResult {
    var (y, m, d) := CivilFromDays(s / 60 / 60 / 24);
    if y <= I32_MAX then UtcResult.Ok(SimpleUtc(y, m, d, s / 60 / 60 % 24, s / 60 % 60, s % 60)) else YearOverflow
  }

  method UnixToUtc(seconds: u64) returns (r: UtcResult)
    ensures r == UtcOf(seconds)
    ensures r.Ok? ==> ValidUtc(r.utc) && ToUnix(r.utc) == seconds
  {
    var s: int := seconds;
    var sec := s % 60;
    s := s / 60;
    var min := s % 60;
    s := s / 60;
    var hour := s % 24;
    s := s / 24;
    var (y, m, d) := CivilFromDays(s);
    if y > I32_MAX {
      return YearOverflow;
    }
    r := UtcResult.Ok(SimpleUtc(y, m, d, hour, min, sec));
    UtcRoundTrip(seconds);
  }

  function YearOfEra(doe: int): int {
    (doe - doe / 1_460 + doe / 36_524 - doe / 146_096) / 365
  }

  // ---- the two agree ----------------------------------------------------

  /** First day of March-based year `yoe` within its era. */
  function MarchStart(yoe: int): int {
    365 * yoe + yoe / 4 - yoe / 100
  }

  /** The division formula, on a day split into century, quadrennium, year and rest. */
  lemma YearOfEraSplit(c: int, q: int, y: int, r: int)
    requires 0 <= c <= 3 && 0 <= q <= 24 && 0 <= y <= 3 && 0 <= r <= 365
    requires r == 365 ==> y == 3 && (q < 24 || c == 3)
    ensures YearOfEra(36_524 * c + 1_461 * q + 365 * y + r) == 100 * c + 4 * q + y
  {
    var doe := 36_524 * c + 1_461 * q + 365 * y + r;
    var t := 24 * c + q + 365 * y + r;
    var e := if t < 1_460 then 0 else 1;
    Quadrennia(25 * c + q, t);
    WholeCenturies(c, 1_461 * q + 365 * y + r);
    assert doe - (25 * c + q + e) + c == 365 * (100 * c + 4 * q + y) + (r - e);
    Years(100 * c + 4 * q + y, r - e);
  }

  lemma Quadrennia(a: int, t: int)
    requires 0 <= a && 0 <= t < 2_920
    ensures (1_460 * a + t) / 1_460 == a + (if t < 1_460 then 0 else 1)
  {
  }

  lemma WholeCenturies(c: int, s: int)
    requires 0 <= c <= 3 && 0 <= s <= 36_524 && (s == 36_524 ==> c == 3)
    ensures (36_524 * c + s) / 36_524 - (36_524 * c + s) / 146_096 == c
  {
  }

  lemma Years(y: int, d: int)
    requires 0 <= d < 365
    ensures (365 * y + d) / 365 == y
  {
  }

  lemma MarchStartSplit(c: int, q: int, y: int)
    requires 0 <= c <= 3 && 0 <= q <= 24 && 0 <= y <= 3
    ensures MarchStart(100 * c + 4 * q + y) == 36_524 * c + 1_461 * q + 365 * y
    ensures var step := MarchStart(100 * c + 4 * q + y + 1) - MarchStart(100 * c + 4 * q + y);
            step == if y == 3 && (q < 24 || c == 3) then 366 - (if q == 24 then 1 else 0) else 365
  {
    var yoe := 100 * c + 4 * q + y;
    assert yoe / 4 == 25 * c + q && yoe / 100 == c;
    assert (yoe + 1) / 4 == 25 * c + q + (if y == 3 then 1 else 0);
    assert (yoe + 1) / 100 == c + (if y == 3 && q == 24 then 1 else 0);
  }

  lemma YearOfEraCorrect(doe: int)
    requires 0 <= doe < 146_097
    ensures 0 <= YearOfEra(doe) < 400
    ensures MarchStart(YearOfEra(doe)) <= doe
    ensures YearOfEra(doe) < 399 ==> doe < MarchStart(YearOfEra(doe) + 1)
  {
    var c := if doe < 146_096 then doe / 36_524 else 3;
    assert 0 <= c <= 3 && 0 <= doe - 36_524 * c <= 36_524 && (doe - 36_524 * c == 36_524 ==> c == 3);
    var doc := doe - 36_524 * c;
    var q := doc / 1_461;
    var doq := doc % 1_461;
    var y := if doq < 1_460 then doq / 365 else 3;
    assert doq == 1_460 && q == 24 ==> doc == 36_524;
    YearOfEraSplit(c, q, y, doq - 365 * y);
    MarchStartSplit(c, q, y);
  }

  /** Days of all years before `y` in the proleptic calendar, from year 1, in closed form. */
  function YearsClosed(y: int): int {
    365 * (y - 1) + (y - 1) / 4 - (y - 1) / 100 + (y - 1) / 400
  }

  lemma DaysBeforeMonthClosed(y: int, m: int)
    requires 1 <= m <= 13
    ensures DaysBeforeMonth(y, m) ==
            if m <= 2 then 31 * (m - 1)
            else 59 + (if IsLeap(y) then 1 else 0) + (153 * (m - 3) + 2) / 5
  {
    if m > 1 { DaysBeforeMonthClosed(y, m - 1); }
  }

  lemma LeapStep(y: int)
    requires 1 <= y
    ensures y / 4 - y / 100 + y / 400 ==
            (y - 1) / 4 - (y - 1) / 100 + (y - 1) / 400 + (if IsLeap(y) then 1 else 0)
  {
    Step4(y);
    Step100(y);
    Step400(y);
    Centuries(y);
  }

  lemma Step4(y: int)
    ensures y / 4 == (y - 1) / 4 + (if y % 4 == 0 then 1 else 0)
  {
  }

  lemma Step100(y: int)
    ensures y / 100 == (y - 1) / 100 + (if y % 100 == 0 then 1 else 0)
  {
  }

  lemma Step400(y: int)
    ensures y / 400 == (y - 1) / 400 + (if y % 400 == 0 then 1 else 0)
  {
  }

  lemma Centuries(y: int)
    ensures y % 400 == 0 ==> y % 100 == 0
    ensures y % 100 == 0 ==> y % 4 == 0
  {
    if y % 400 == 0 { HundredTimes(y, 4 * (y / 400)); }
    if y % 100 == 0 { FourTimes(y, 25 * (y / 100)); }
  }

  lemma HundredTimes(y: int, m: int)
    requires y == 100 * m
    ensures y % 100 == 0
  {
  }

  lemma FourTimes(y: int, m: int)
    requires y == 4 * m
    ensures y % 4 == 0
  {
  }

  lemma {:induction false} DaysBeforeYearClosed(y: int)
    requires 1970 <= y
    ensures DaysBeforeYear(y) == YearsClosed(y) - 719_162
  {
    if y > 1970 {
      DaysBeforeYearClosed(y - 1);
      LeapStep(y - 1);
    }
  }

  /** Month and day inside a March-based year: mp and d as the code computes them. */
  lemma MonthOfYear(doy: int)
    requires 0 <= doy <= 365
    ensures var mp := (5 * doy + 2) / 153;
            0 <= mp <= 11 && (153 * mp + 2) / 5 <= doy &&
            (mp < 11 ==> doy < (153 * (mp + 1) + 2) / 5)
  {
  }

  /** Quotients and leap rule of March-based year `yoe` of era `era`. */
  lemma EraYear(yoe: int, era: int)
    requires 0 <= yoe < 400 && 0 <= era
    ensures var my := yoe + era * 400;
            my / 4 == 100 * era + yoe / 4 && my / 100 == 4 * era + yoe / 100 && my / 400 == era
    ensures IsLeap(yoe + era * 400 + 1) <==>
            ((yoe + 1) % 4 == 0 && ((yoe + 1) % 100 != 0 || yoe == 399))
  {
    var my := yoe + era * 400;
    assert (my + 1) % 4 == (yoe + 1) % 4;
    assert (my + 1) % 100 == (yoe + 1) % 100;
    assert (my + 1) % 400 == (yoe + 1) % 400;
  }

  /** A day lies inside the March-based year the code assigns to it. */
  lemma DayOfYearBound(yoe: int, era: int, doe: int)
    requires 0 <= doe < 146_097 && 0 <= era && yoe == YearOfEra(doe)
    ensures 0 <= yoe < 400
    ensures 0 <= doe - MarchStart(yoe) < 365 + (if IsLeap(yoe + era * 400 + 1) then 1 else 0)
  {
    YearOfEraCorrect(doe);
    EraYear(yoe, era);
    assert (yoe + 1) / 4 == yoe / 4 + (if (yoe + 1) % 4 == 0 then 1 else 0);
    assert (yoe + 1) / 100 == yoe / 100 + (if (yoe + 1) % 100 == 0 then 1 else 0);
  }

  /** Day `doy` of the March-based year `my`, as a date of the reference calendar. */
  lemma MarchDate(my: int, doy: int)
    requires 1 <= my && 0 <= doy < 365 + (if IsLeap(my + 1) then 1 else 0)
    ensures var (y, m, d) := CivilOfMarch(my, doy);
            1 <= m <= 12 && 1 <= d <= DaysInMonth(y, m) && my <= y &&
            YearsClosed(y) + DaysBeforeMonth(y, m) + d - 1 == YearsClosed(my + 1) - 306 + doy
  {
    MonthOfYear(doy);
    var (y, m, d) := CivilOfMarch(my, doy);
    DaysBeforeMonthClosed(y, m);
    LeapStep(my);
  }

  lemma EraStart(yoe: int, era: int)
    requires 0 <= yoe < 400 && 0 <= era
    ensures YearsClosed(yoe + era * 400 + 1) == 146_097 * era + MarchStart(yoe)
  {
    EraYear(yoe, era);
  }

  /** The March-based year and day the code computes, and the days they stand for. */
  lemma MarchOfDay(days: nat) returns (my: int, doy: int)
    ensures 1 <= my && 0 <= doy < 365 + (if IsLeap(my + 1) then 1 else 0)
    ensures CivilFromDays(days) == CivilOfMarch(my, doy)
    ensures YearsClosed(my + 1) - 306 + doy == days + 719_162
  {
    var z := days + 719_468;
    var era := z / 146_097;
    var doe := z - era * 146_097;
    var yoe := YearOfEra(doe);
    DayOfYearBound(yoe, era, doe);
    EraStart(yoe, era);
    my, doy := yoe + era * 400, doe - MarchStart(yoe);
  }

  /** The closed day count of a date, read back in the reference calendar. */
  lemma ClosedIsDayNumber(y: int, m: int, d: int)
    requires 1 <= y && 1 <= m <= 12 && 1 <= d <= DaysInMonth(y, m)
    requires 719_162 <= YearsClosed(y) + DaysBeforeMonth(y, m) + d - 1
    ensures 1970 <= y && DayNumber(y, m, d) == YearsClosed(y) + DaysBeforeMonth(y, m) + d - 1 - 719_162
  {
    NotBefore1970(y, m, d);
    DaysBeforeYearClosed(y);
  }

  lemma NotBefore1970(y: int, m: int, d: int)
    requires 1 <= y && 1 <= m <= 12 && 1 <= d <= DaysInMonth(y, m)
    requires 719_162 <= YearsClosed(y) + DaysBeforeMonth(y, m) + d - 1
    ensures 1970 <= y
  {
    DayInYear(y, m, d);
    LeapStep(y);
    if y < 1970 {
      assert YearsClosed(y + 1) <= YearsClosed(1970) by {
        YearsClosedMonotone(y + 1, 1970);
      }
    }
  }

  lemma DayInYear(y: int, m: int, d: int)
    requires 1 <= m <= 12 && 1 <= d <= DaysInMonth(y, m)
    ensures DaysBeforeMonth(y, m) + d <= 365 + (if IsLeap(y) then 1 else 0)
  {
    DaysBeforeMonthClosed(y, m);
  }

  lemma YearsClosedMonotone(a: int, b: int)
    requires 1 <= a <= b
    ensures YearsClosed(a) <= YearsClosed(b)
    decreases b
  {
    if a < b {
      LeapStep(b - 1);
      YearsClosedMonotone(a, b - 1);
    }
  }

  /** The code's era arithmetic inverts the reference day count. */
  lemma CivilCorrect(days: nat)
    ensures var (y, m, d) := CivilFromDays(days);
            1970 <= y && 1 <= m <= 12 && 1 <= d <= DaysInMonth(y, m) &&
            DayNumber(y, m, d) == days
  {
    var my, doy := MarchOfDay(days);
    MarchDate(my, doy);
    var (y, m, d) := CivilOfMarch(my, doy);
    ClosedIsDayNumber(y, m, d);
  }

  // ---- the conversion is a monotone bijection onto valid dates -----------

  lemma SecondsSplit(s: int)
    ensures s == s / 60 / 60 / 24 * 86_400 + s / 60 / 60 % 24 * 3_600 + s / 60 % 60 * 60 + s % 60
    ensures s / 60 / 60 / 24 == s / 86_400
  {
    var m := s / 60;
    var h := m / 60;
    assert s == 60 * m + s % 60 && m == 60 * h + m % 60 && h == 24 * (h / 24) + h % 24;
  }

  lemma UtcRoundTrip(s: u64)
    ensures UtcOf(s).Ok? ==> ValidUtc(UtcOf(s).utc) && UtcOf(s).utc.year <= I32_MAX && ToUnix(UtcOf(s).utc) == s
  {
    SecondsSplit(s);
    CivilCorrect(s / 86_400);
  }

  lemma {:induction false} DaysBeforeYearMonotone(a: int, b: int)
    requires 1970 <= a < b
    ensures DaysBeforeYear(a) + YearLength(a) <= DaysBeforeYear(b)
    decreases b
  {
    if a < b - 1 {
      DaysBeforeYearMonotone(a, b - 1);
    }
  }

  lemma {:induction false} DaysBeforeMonthMonotone(y: int, a: int, b: int)
    requires 1 <= a < b <= 13
    ensures DaysBeforeMonth(y, a) + DaysInMonth(y, a) <= DaysBeforeMonth(y, b)
    decreases b
  {
    if a < b - 1 { DaysBeforeMonthMonotone(y, a, b - 1); }
  }

  lemma DayNumberOrder(a: SimpleUtc, b: SimpleUtc)
    requires ValidUtc(a) && ValidUtc(b)
    requires a.year < b.year || (a.year == b.year && (a.mon < b.mon || (a.mon == b.mon && a.day < b.day)))
    ensures DayNumber(a.year, a.mon, a.day) < DayNumber(b.year, b.mon, b.day)
  {
    if a.year < b.year {
      DaysBeforeYearMonotone(a.year, b.year);
      DaysBeforeMonthClosed(a.year, a.mon);
      DaysBeforeMonthClosed(b.year, b.mon);
    } else if a.mon < b.mon {
      DaysBeforeMonthMonotone(a.year, a.mon, b.mon);
    }
  }

  lemma ToUnixOrder(a: SimpleUtc, b: SimpleUtc)
    requires ValidUtc(a) && ValidUtc(b) && Earlier(a, b)
    ensures ToUnix(a) < ToUnix(b)
  {
    if a.year != b.year || a.mon != b.mon || a.day != b.day { DayNumberOrder(a, b); }
  }

  /** Later seconds convert to strictly later dates, in lexicographic order. */
  lemma UtcStrictlyIncreasing(s: u64, t: u64)
    requires s < t && UtcOf(s).Ok? && UtcOf(t).Ok?
    ensures Earlier(UtcOf(s).utc, UtcOf(t).utc)
  {
    UtcRoundTrip(s);
    UtcRoundTrip(t);
    var a, b := UtcOf(s).utc, UtcOf(t).utc;
    if !Earlier(a, b) && a != b { ToUnixOrder(b, a); }
  }

  /** The error case, in terms of the input: exactly the seconds from 1 January 2^31 on. */
  lemma YearOverflowIff(s: u64)
    ensures UtcOf(s).YearOverflow? <==> DaysBeforeYear(I32_MAX + 1) * 86_400 <= s
  {
    SecondsSplit(s);
    CivilCorrect(s / 86_400);
    var (y, m, d) := CivilFromDays(s / 86_400);
    var first := SimpleUtc(I32_MAX + 1, 1, 1, 0, 0, 0);
    var t := SimpleUtc(y, m, d, 0, 0, 0);
    if y <= I32_MAX {
      DayNumberOrder(t, first);
    } else if t != first {
      DayNumberOrder(first, t);
    }
  }

  /** Every valid date from 1970 up to year 2^31 - 1 is the conversion of its own seconds. */
  lemma UtcOnto(t: SimpleUtc)
    requires ValidUtc(t) && t.year <= I32_MAX
    ensures 0 <= ToUnix(t) < 0x1_0000_0000_0000_0000
    ensures UtcOf(ToUnix(t)) == UtcResult.Ok(t)
  {
    var s := ToUnix(t);
    assert 0 <= s < DaysBeforeYear(I32_MAX + 1) * 86_400 by {
      DaysBeforeMonthClosed(t.year, t.mon);
      DaysBeforeYearClosed(t.year);
      DayNumberOrder(t, SimpleUtc(I32_MAX + 1, 1, 1, 0, 0, 0));
    }
    DaysBeforeYearClosed(I32_MAX + 1);
    YearOverflowIff(s);
    UtcRoundTrip(s);
    var r := UtcOf(s).utc;
    if Earlier(r, t) { ToUnixOrder(r, t); }
    else if Earlier(t, r) { ToUnixOrder(t, r); }
  }
}
