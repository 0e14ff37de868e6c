// Days since 1970-01-01 and civil dates of the proleptic Gregorian calendar, each determined
// by the other.
module Calendar {
  import opened Words

  datatype Date = Date(y: int, m: int, d: int)

  // ---- the calendar ------------------------------------------------------------------------

  predicate IsLeap(y: int) { (y % 4 == 0 && y % 100 != 0) || y % 400 == 0 }

  function DaysIn(y: int, m: int): int
    requires 1 <= m <= 12
  {
    if m == 2 then (if IsLeap(y) then 29 else 28) else if m == 4 || m == 6 || m == 9 || m == 11 then 30 else 31
  }

  predicate IsDate(x: Date) { 1 <= x.m <= 12 && 1 <= x.d <= DaysIn(x.y, x.m) }

  function NextDay(x: Date): (r: Date)
    requires IsDate(x)
    ensures IsDate(r)
  {
    if x.d < DaysIn(x.y, x.m) then Date(x.y, x.m, x.d + 1)
    else if x.m < 12 then Date(x.y, x.m + 1, 1)
    else Date(x.y + 1, 1, 1)
  }

  // ---- the library's conversions -----------------------------------------------------------

  // Day of the year that begins on March 1, for a date in month m.
  function MarchDay(m: int, d: int): int { TruncDiv(153 * (m + if m > 2 then -3 else 9) + 2, 5) + d - 1 }

  // Days before year yoe of an era, as the library computes it.
  function DaysBefore(yoe: int): int { yoe * 365 + TruncDiv(yoe, 4) - TruncDiv(yoe, 100) }

  function DaysFromCivil(y0: int, m: int, d: int): int {
    var y := if m <= 2 then y0 - 1 else y0;
    var era := TruncDiv(if y >= 0 then y else y - 399, 400);
    var yoe := y - era * 400;
    var doe := DaysBefore(yoe) + MarchDay(m, d);
    era * 146097 + doe - 719468
  }

  function YearOf(doe: int): int {
    TruncDiv(doe - TruncDiv(doe, 1460) + TruncDiv(doe, 36524) - TruncDiv(doe, 146096), 365)
  }

  function CivilFromDays(z0: int): Date {
    var z := z0 + 719468;
    var era := TruncDiv(if z >= 0 then z else z - 146096, 146097);
    var doe := z - era * 146097;
    var yoe := YearOf(doe);
    var doy := doe - DaysBefore(yoe);
    var mp := TruncDiv(5 * doy + 2, 153);
    var d := doy - TruncDiv(153 * mp + 2, 5) + 1;
    var m := mp + if mp < 10 then 3 else -9;
    Date(yoe + era * 400 + (if m <= 2 then 1 else 0), m, d)
  }

  // ---- eras of 400 years --------------------------------------------------------------------

  // Days before year yoe of an era of years that begin in March.
  function YearStart(yoe: int): int { 365 * yoe + yoe / 4 - yoe / 100 }

  lemma FloorEra(z: int, n: int)
    requires n > 0
    ensures TruncDiv(if z >= 0 then z else z - (n - 1), n) == z / n
  {
    if z < 0 {
      var q, r := z / n, z % n;
      assert z == q * n + r;
      assert -(z - (n - 1)) == (-q) * n + (n - 1 - r);
      ModUnique(-(z - (n - 1)), n, -q, n - 1 - r);
    }
  }

  lemma BeforeIs(yoe: int)
    requires 0 <= yoe < 400
    ensures DaysBefore(yoe) == YearStart(yoe)
  {}

  lemma MonthIsTrunc(doy: int)
    requires 0 <= doy <= 365
    ensures var mp := (5 * doy + 2) / 153; TruncDiv(5 * doy + 2, 153) == mp && TruncDiv(153 * mp + 2, 5) == MonthStart(mp)
  {}

  lemma EraOf(y: int)
    ensures TruncDiv(if y >= 0 then y else y - 399, 400) == y / 400
  {
    FloorEra(y, 400);
  }

  // The year within the era from its day, by centuries, four-year groups and years.
  lemma YearOfEra(c: int, q: int, y1: int, t: int)
    requires 0 <= c <= 3 && 0 <= q <= 24 && 0 <= y1 <= 3 && 0 <= t <= 365
    requires t == 365 ==> y1 == 3 && (q < 24 || c == 3)
    ensures var doe := 36524 * c + 1461 * q + 365 * y1 + t;
      YearOf(doe) == 100 * c + 4 * q + y1
  {
    var s := 365 * y1 + t;
    var doe := 36524 * c + 1461 * q + s;
    var late := if 24 * c + q + s >= 1460 then 1 else 0;
    assert doe / 1460 == 25 * c + q + late;
    assert doe / 36524 - doe / 146096 == c;
    assert doe - doe / 1460 + c == 365 * (100 * c + 4 * q + y1) + t - late;
  }

  lemma YearStarts(c: int, q: int, y1: int)
    requires 0 <= c <= 3 && 0 <= q <= 24 && 0 <= y1 <= 3
    ensures YearStart(100 * c + 4 * q + y1) == 36524 * c + 1461 * q + 365 * y1
  {}

  lemma SplitDay(doe: int) returns (c: int, q: int, y1: int, t: int)
    requires 0 <= doe < 146097
    ensures 0 <= c <= 3 && 0 <= q <= 24 && 0 <= y1 <= 3 && 0 <= t <= 365
    ensures t == 365 ==> y1 == 3 && (q < 24 || c == 3)
    ensures doe == 36524 * c + 1461 * q + 365 * y1 + t
  {
    c := if doe / 36524 <= 3 then doe / 36524 else 3;
    var r := doe - 36524 * c;
    q := r / 1461;
    var s := r - 1461 * q;
    y1 := if s / 365 <= 3 then s / 365 else 3;
    t := s - 365 * y1;
  }

  lemma SplitYear(yoe: int) returns (c: int, q: int, y1: int)
    requires 0 <= yoe < 400
    ensures 0 <= c <= 3 && 0 <= q <= 24 && 0 <= y1 <= 3 && yoe == 100 * c + 4 * q + y1
  {
    c := yoe / 100;
    q := yoe % 100 / 4;
    y1 := yoe % 4;
  }

  // The year that begins in March of year yoe has a February 29.
  predicate LongYear(yoe: int) { IsLeap(yoe + 1) }

  lemma LongIs(c: int, q: int, y1: int)
    requires 0 <= c <= 3 && 0 <= q <= 24 && 0 <= y1 <= 3
    ensures LongYear(100 * c + 4 * q + y1) <==> y1 == 3 && (q < 24 || c == 3)
  {}

  // ---- months -----------------------------------------------------------------------------------

  function MonthStart(mp: int): int { (153 * mp + 2) / 5 }

  // Month mp counts from March.
  lemma MonthOfYear(doy: int)
    requires 0 <= doy <= 365
    ensures var mp := (5 * doy + 2) / 153;
      0 <= mp <= 11 && MonthStart(mp) <= doy && (mp < 11 ==> doy < MonthStart(mp + 1))
  {}

  lemma MonthIs(mp: int, doy: int)
    requires 0 <= mp <= 11 && 0 <= doy <= 365 && MonthStart(mp) <= doy && (mp < 11 ==> doy < MonthStart(mp + 1))
    ensures (5 * doy + 2) / 153 == mp
  {}

  // The month starts tell the calendar's month lengths, February's being what is left.
  lemma MonthLengths(y: int, mp: int)
    requires 0 <= mp <= 11
    ensures var m := if mp < 10 then mp + 3 else mp - 9;
      1 <= m <= 12 && (mp < 11 ==> MonthStart(mp + 1) - MonthStart(mp) == DaysIn(y, m))
    ensures MonthStart(0) == 0 && MonthStart(11) == 337
  {}

  // ---- inverses ------------------------------------------------------------------------------------

  // Both conversions through the era, the March year and its day.
  lemma CivilParts(z0: int, era: int, yoe: int, doy: int)
    requires 0 <= yoe < 400 && 0 <= doy <= 365 && (doy == 365 ==> LongYear(yoe))
    requires z0 + 719468 == era * 146097 + YearStart(yoe) + doy
    ensures var mp := (5 * doy + 2) / 153; var m := if mp < 10 then mp + 3 else mp - 9;
      CivilFromDays(z0) == Date(yoe + era * 400 + (if m <= 2 then 1 else 0), m, doy - MonthStart(mp) + 1)
  {
    hide IsLeap, TruncDiv, DaysBefore, YearOf, MonthStart;
    var c, q, y1 := SplitYear(yoe);
    YearStarts(c, q, y1);
    LongIs(c, q, y1);
    var doe := YearStart(yoe) + doy;
    assert 0 <= doe < 146097;
    FloorEra(z0 + 719468, 146097);
    ModUnique(z0 + 719468, 146097, era, doe);
    YearOfEra(c, q, y1, doy);
    BeforeIs(yoe);
    MonthIsTrunc(doy);
  }

  lemma DaysParts(x: Date) returns (era: int, yoe: int, doy: int)
    requires IsDate(x)
    ensures 0 <= yoe < 400 && 0 <= doy <= 365 && (doy == 365 ==> LongYear(yoe))
    ensures DaysFromCivil(x.y, x.m, x.d) + 719468 == era * 146097 + YearStart(yoe) + doy
    ensures var mp := if x.m > 2 then x.m - 3 else x.m + 9;
      (5 * doy + 2) / 153 == mp && x.d == doy - MonthStart(mp) + 1
    ensures x.y == yoe + era * 400 + if x.m <= 2 then 1 else 0
  {
    hide DaysFromCivil, IsLeap, YearStart;
    var y := if x.m <= 2 then x.y - 1 else x.y;
    era, yoe := y / 400, y % 400;
    var mp := if x.m > 2 then x.m - 3 else x.m + 9;
    doy := MonthStart(mp) + x.d - 1;
    MarchForm(x.y, x.m, x.d);
    MonthLengths(x.y, mp);
    LeapShift(yoe, era);
    MonthStarts();
    MonthIs(mp, doy);
  }

  lemma MonthStarts()
    ensures forall mp | 0 <= mp <= 11 :: 0 <= MonthStart(mp) <= 337 && (mp < 11 ==> MonthStart(mp + 1) > MonthStart(mp))
  {}

  lemma LeapShift(yoe: int, era: int)
    ensures IsLeap(yoe + era * 400 + 1) <==> LongYear(yoe)
  {
    assert era * 400 == 4 * (100 * era) == 100 * (4 * era);
    ModShift(yoe + 1, 4, 100 * era);
    ModShift(yoe + 1, 100, 4 * era);
    ModShift(yoe + 1, 400, era);
  }

  lemma ModShift(x: int, m: int, k: int)
    requires m > 0
    ensures (x + m * k) % m == x % m
  {
    var q, r := x / m, x % m;
    assert x == q * m + r;
    assert (q + k) * m == q * m + k * m;
    ModUnique(x + m * k, m, q + k, r);
  }

  // From any day to a date and back.
  lemma DaysInverse(z: int)
    ensures IsDate(CivilFromDays(z))
    ensures var x := CivilFromDays(z); DaysFromCivil(x.y, x.m, x.d) == z
  {
    hide CivilFromDays, DaysFromCivil, IsLeap, LongYear;
    var era, doe := (z + 719468) / 146097, (z + 719468) % 146097;
    var c, q, y1, t := SplitDay(doe);
    var yoe := 100 * c + 4 * q + y1;
    YearStarts(c, q, y1);
    LongIs(c, q, y1);
    CivilParts(z, era, yoe, t);
    var mp := (5 * t + 2) / 153;
    MonthOfYear(t);
    var x := CivilFromDays(z);
    CivilIsDate(x, era, yoe, t, mp);
    var era2, yoe2, doy2 := DaysParts(x);
    SameParts(x, era, yoe, era2, yoe2);
  }

  lemma CivilIsDate(x: Date, era: int, yoe: int, doy: int, mp: int)
    requires 0 <= yoe < 400 && 0 <= doy <= 365 && (doy == 365 ==> LongYear(yoe)) && mp == (5 * doy + 2) / 153
    requires 0 <= mp <= 11 && MonthStart(mp) <= doy && (mp < 11 ==> doy < MonthStart(mp + 1))
    requires var m := if mp < 10 then mp + 3 else mp - 9;
      x == Date(yoe + era * 400 + (if m <= 2 then 1 else 0), m, doy - MonthStart(mp) + 1)
    ensures IsDate(x)
  {
    hide IsLeap;
    MonthLengths(x.y, mp);
    LeapShift(yoe, era);
  }

  lemma SameParts(x: Date, era: int, yoe: int, era2: int, yoe2: int)
    requires 0 <= yoe < 400 && 0 <= yoe2 < 400
    requires yoe + era * 400 == yoe2 + era2 * 400
    ensures era == era2 && yoe == yoe2
  {
    ModUnique(yoe + era * 400, 400, era, yoe);
    ModUnique(yoe + era * 400, 400, era2, yoe2);
  }

  // From any date to a day and back.
  lemma CivilInverse(x: Date)
    requires IsDate(x)
    ensures CivilFromDays(DaysFromCivil(x.y, x.m, x.d)) == x
  {
    hide CivilFromDays, DaysFromCivil, LongYear, IsLeap;
    var era, yoe, doy := DaysParts(x);
    CivilParts(DaysFromCivil(x.y, x.m, x.d), era, yoe, doy);
  }

  // ---- the conversions count days --------------------------------------------------------------------

  lemma EpochIsZero()
    ensures DaysFromCivil(1970, 1, 1) == 0
  {}

  lemma LinearInDay(y: int, m: int, d: int, k: int)
    ensures DaysFromCivil(y, m, d + k) == DaysFromCivil(y, m, d) + k
  {}

  // The next day has the next number: with the epoch this fixes both conversions.
  lemma NextDayNumber(x: Date)
    requires IsDate(x)
    ensures var n := NextDay(x); DaysFromCivil(n.y, n.m, n.d) == DaysFromCivil(x.y, x.m, x.d) + 1
  {
    hide CivilFromDays, DaysFromCivil;
    LinearInDay(x.y, x.m, x.d, 1);
    if x.d == DaysIn(x.y, x.m) { MonthBoundary(x.y, x.m); }
  }

  // Years counted from March, with floored division.
  lemma MarchForm(y0: int, m: int, d: int)
    requires 1 <= m <= 12
    ensures var y := if m <= 2 then y0 - 1 else y0; var mp := if m > 2 then m - 3 else m + 9;
      DaysFromCivil(y0, m, d) == y / 400 * 146097 + YearStart(y % 400) + MonthStart(mp) + d - 1 - 719468
  {
    var y := if m <= 2 then y0 - 1 else y0;
    EraOf(y);
    BeforeIs(y % 400);
  }

  lemma MonthBoundary(y: int, m: int)
    requires 1 <= m <= 12
    ensures DaysFromCivil(if m < 12 then y else y + 1, if m < 12 then m + 1 else 1, 1)
         == DaysFromCivil(y, m, DaysIn(y, m)) + 1
  {
    hide IsLeap, DaysFromCivil, YearStart, MonthStart;
    MarchForm(y, m, DaysIn(y, m));
    MarchForm(if m < 12 then y else y + 1, if m < 12 then m + 1 else 1, 1);
    var mp := if m > 2 then m - 3 else m + 9;
    MonthLengths(y, mp);
    FebruaryEnds(y);
  }

  // The day after February 28 or 29 of year y starts March year y.
  lemma FebruaryEnds(y: int)
    ensures y / 400 * 146097 + YearStart(y % 400)
         == (y - 1) / 400 * 146097 + YearStart((y - 1) % 400) + 337 + DaysIn(y, 2)
  {
    hide YearStart, IsLeap;
    var e, k := y / 400, y % 400;
    LeapShift(k - 1, e);
    YearSteps();
    if k == 0 {
      ModUnique(y - 1, 400, e - 1, 399);
    } else {
      ModUnique(y - 1, 400, e, k - 1);
    }
  }

  lemma YearSteps()
    ensures forall k | 1 <= k < 400 :: YearStart(k) == YearStart(k - 1) + 365 + if IsLeap(k) then 1 else 0
    ensures YearStart(0) == 0 && YearStart(399) + 366 == 146097 && IsLeap(0)
  {}

  // n days later, one day at a time.
  function DaysLater(x: Date, n: nat): (r: Date)
    requires IsDate(x)
    ensures IsDate(r)
    decreases n
  {
    if n == 0 then x else NextDay(DaysLater(x, n - 1))
  }

  lemma {:induction false} LaterNumber(x: Date, n: nat)
    requires IsDate(x)
    ensures var r := DaysLater(x, n); DaysFromCivil(r.y, r.m, r.d) == DaysFromCivil(x.y, x.m, x.d) + n
    decreases n
  {
    hide DaysFromCivil, NextDay;
    if n > 0 {
      LaterNumber(x, n - 1);
      NextDayNumber(DaysLater(x, n - 1));
    }
  }

  // The date with a number n above x's is the one n days later.
  lemma LaterIs(x: Date, n: nat)
    requires IsDate(x)
    ensures CivilFromDays(DaysFromCivil(x.y, x.m, x.d) + n) == DaysLater(x, n)
  {
    hide DaysFromCivil, CivilFromDays, NextDay;
    LaterNumber(x, n);
    CivilInverse(DaysLater(x, n));
  }
}
