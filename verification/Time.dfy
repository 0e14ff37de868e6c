// Broken-down time, time zones with daylight saving, and the conversions gmtime, localtime
// and mktime.
module Time {
  import opened Words
  import opened Calendar

  datatype Broken = Broken(sec: int, min: int, hour: int, mday: int, mon: int, year: int, wday: int, yday: int, isdst: int)

  datatype RuleKind = Nth | Julian | DayOfYear

  // A transition rule: the week-th weekday of a month, a day that skips February 29, or a
  // day of the year; and seconds after midnight.
  datatype Rule = Rule(kind: RuleKind, mon: int, week: int, wday: int, yday: int, secs: int)

  // Offsets are seconds to add to local time to reach UTC.
  datatype Zone = Zone(hasDst: bool, stdOff: int, dstOff: int, start: Rule, end: Rule)

  // A month the table of month lengths has; a rule without digits gives month 0.
  predicate GoodRule(r: Rule) { r.kind == Nth ==> 0 <= r.mon <= 12 }

  predicate GoodZone(z: Zone) { GoodRule(z.start) && GoodRule(z.end) }

  // ---- specification: weekdays and transitions ------------------------------------------------

  // 0 is Sunday; day 0 was a Thursday.
  function Weekday(days: int): int { (days + 4) % 7 }

  function WeekdayCode(days: int): int {
    var wd := TruncMod(TruncMod(days, 7) + 4, 7);
    if wd < 0 then wd + 7 else wd
  }

  lemma TruncModIs(a: int, b: int)
    requires b > 0
    ensures TruncMod(a, b) == if a >= 0 || a % b == 0 then a % b else a % b - b
  {
    var q, r := a / b, a % b;
    assert a == q * b + r;
    if a < 0 {
      if r == 0 {
        assert -a == (-q) * b;
        ModUnique(-a, b, -q, 0);
      } else {
        assert -a == (-q - 1) * b + (b - r);
        ModUnique(-a, b, -q - 1, b - r);
      }
    }
  }

  lemma WeekdayIs(days: int)
    ensures WeekdayCode(days) == Weekday(days)
  {
    hide TruncMod;
    TruncModIs(days, 7);
    TruncModIs(TruncMod(days, 7) + 4, 7);
  }

  // The day of the month of a transition by weekday: counted from the first such weekday,
  // moved back by weeks until it is in the month.
  function DropTo(day: int, dim: int): int
    decreases day - dim
  {
    if day > dim then DropTo(day - 7, dim) else day
  }

  function TableDays(year: int, mon: int): int
    requires 0 <= mon <= 12
  {
    if mon == 0 then 0 else DaysIn(year, mon)
  }

  function NthDay(r: Rule, year: int): int
    requires 0 <= r.mon <= 12
  {
    var first := WeekdayCode(DaysFromCivil(year, r.mon, 1));
    DropTo(1 + TruncMod(r.wday - first + 7, 7) + (r.week - 1) * 7, TableDays(year, r.mon))
  }

  function TransDays(r: Rule, year: int): int
    requires GoodRule(r)
  {
    match r.kind
    case Nth => DaysFromCivil(year, r.mon, NthDay(r, year))
    case Julian => DaysFromCivil(year, 1, 1) + r.yday - 1 + if IsLeap(year) && r.yday >= 60 then 1 else 0
    case DayOfYear => DaysFromCivil(year, 1, 1) + r.yday
  }

  function TransSecs(r: Rule, year: int): int
    requires GoodRule(r)
  {
    TransDays(r, year) * 86400 + r.secs
  }

  predicate IsDstLocal(z: Zone, local: int, year: int)
    requires GoodZone(z)
  {
    z.hasDst
    && var s, e := TransSecs(z.start, year), TransSecs(z.end, year);
       if s <= e then s <= local < e else local >= s || local < e
  }

  // ---- specification: the conversions ---------------------------------------------------------------

  function DayOf(t: int): int { if TruncMod(t, 86400) < 0 then TruncDiv(t, 86400) - 1 else TruncDiv(t, 86400) }

  function SecOf(t: int): int { if TruncMod(t, 86400) < 0 then TruncMod(t, 86400) + 86400 else TruncMod(t, 86400) }

  function GmBroken(t: int): Broken {
    var days, rem := DayOf(t), SecOf(t);
    var x := CivilFromDays(days);
    Broken(TruncMod(rem, 60), TruncDiv(TruncMod(rem, 3600), 60), TruncDiv(rem, 3600), x.d, x.m - 1, x.y - 1900,
           WeekdayCode(days), days - DaysFromCivil(x.y, 1, 1), 0)
  }

  // Whether localtime decides for daylight saving: the rule at the standard-time reading.
  predicate DstAt(z: Zone, utc: int)
    requires GoodZone(z)
  {
    var guess := utc - z.stdOff;
    IsDstLocal(z, guess, CivilFromDays(DayOf(guess)).y)
  }

  function LocalBroken(z: Zone, utc: int): Broken
    requires GoodZone(z)
  {
    var dst := DstAt(z, utc);
    GmBroken(utc - if dst then z.dstOff else z.stdOff).(isdst := if dst && z.hasDst then 1 else 0)
  }

  // Carry months into years.
  function YearCarry(year: int, mon: int): (int, int) {
    var yadj := TruncDiv(mon, 12);
    var mo := mon - yadj * 12;
    if mo < 0 then (year + yadj - 1, mo + 12) else (year + yadj, mo)
  }

  function LocalSecs(b: Broken): int {
    var (y, mo) := YearCarry(b.year + 1900, b.mon);
    DaysFromCivil(y, mo + 1, b.mday) * 86400 + b.hour * 3600 + b.min * 60 + b.sec
  }

  // The reading counts seconds, minutes, hours and days from the first of the month its months
  // carry to, whatever their values.
  lemma ReadingCounts(b: Broken, y: int, m: int)
    requires 1 <= m <= 12 && 12 * y + m - 1 == 12 * (b.year + 1900) + b.mon
    ensures LocalSecs(b) == ((DaysFromCivil(y, m, 1) + b.mday - 1) * 24 + b.hour) * 3600 + b.min * 60 + b.sec
  {
    hide DaysFromCivil;
    MonthCarry(b.year + 1900, b.mon);
    LinearInDay(y, m, 1, b.mday - 1);
  }

  function MkTime(z: Zone, b: Broken): int
    requires GoodZone(z)
  {
    var local := LocalSecs(b);
    var dst := if b.isdst > 0 then true else if b.isdst == 0 then false
               else IsDstLocal(z, local, YearCarry(b.year + 1900, b.mon).0);
    local + if dst then z.dstOff else z.stdOff
  }

  // ---- what the conversions guarantee ------------------------------------------------------------------

  lemma DaySplit(t: int)
    ensures DayOf(t) == t / 86400 && SecOf(t) == t % 86400
  {
    TruncModIs(t, 86400);
    var q, r := t / 86400, t % 86400;
    var k := TruncDiv(t, 86400);
    assert TruncMod(t, 86400) == t - 86400 * k;
  }

  lemma MonthCarry(year: int, mon: int)
    ensures var (y, mo) := YearCarry(year, mon); 0 <= mo < 12 && 12 * y + mo == 12 * year + mon
    ensures 0 <= mon < 12 ==> YearCarry(year, mon) == (year, mon)
  {}

  // Fields within their ranges, naming the day and second of t; day 0 was a Thursday.
  lemma GmFields(t: int)
    ensures var b := GmBroken(t);
      && 0 <= b.sec < 60 && 0 <= b.min < 60 && 0 <= b.hour < 24 && 0 <= b.wday < 7 && 0 <= b.yday < 366
      && IsDate(Date(b.year + 1900, b.mon + 1, b.mday))
      && b.wday == (t / 86400 + 4) % 7 && b.isdst == 0
      && Date(b.year + 1900, b.mon + 1, b.mday) == DaysLater(Date(b.year + 1900, 1, 1), b.yday)
      && LocalSecs(b) == t
  {
    hide DaysFromCivil, CivilFromDays, WeekdayCode, TruncDiv, TruncMod, DayOf, SecOf, DaysLater;
    DaySplit(t);
    var days, rem := t / 86400, t % 86400;
    WeekdayIs(days);
    DaysInverse(days);
    var x := CivilFromDays(days);
    YearDay(x);
    MonthCarry(x.y, x.m - 1);
    Clock(rem);
    LaterIs(Date(x.y, 1, 1), days - DaysFromCivil(x.y, 1, 1));
  }

  lemma Clock(rem: int)
    requires 0 <= rem < 86400
    ensures TruncMod(rem, 60) == rem % 60 && TruncDiv(TruncMod(rem, 3600), 60) == rem % 3600 / 60 && TruncDiv(rem, 3600) == rem / 3600
    ensures rem / 3600 < 24 && rem / 3600 * 3600 + rem % 3600 / 60 * 60 + rem % 60 == rem
  {
    TruncModIs(rem, 60);
    TruncModIs(rem, 3600);
  }

  lemma YearDay(x: Date)
    requires IsDate(x)
    ensures 0 <= DaysFromCivil(x.y, x.m, x.d) - DaysFromCivil(x.y, 1, 1) < 366
  {
    hide DaysFromCivil, YearStart, IsLeap;
    MarchForm(x.y, x.m, x.d);
    MarchForm(x.y, 1, 1);
    MonthLengths(x.y, if x.m > 2 then x.m - 3 else x.m + 9);
    MonthStarts();
    FebruaryEnds(x.y);
  }

  // mktime undoes localtime, for every time and every zone.
  lemma MktimeUndoesLocaltime(z: Zone, t: int)
    requires GoodZone(z)
    ensures MkTime(z, LocalBroken(z, t)) == t
  {
    hide GmBroken, LocalSecs, TransSecs;
    var dst := DstAt(z, t);
    var loc := t - if dst then z.dstOff else z.stdOff;
    GmFields(loc);
    assert LocalSecs(LocalBroken(z, t)) == LocalSecs(GmBroken(loc)) by { IsdstAside(GmBroken(loc), LocalBroken(z, t).isdst); }
  }

  lemma IsdstAside(b: Broken, isdst: int)
    ensures LocalSecs(b.(isdst := isdst)) == LocalSecs(b)
  {}

  // ---- the rules -------------------------------------------------------------------------------------------

  lemma {:induction false} DropToIs(day: int, dim: int)
    ensures DropTo(day, dim) <= dim && (day <= dim ==> DropTo(day, dim) == day)
    ensures day > dim ==> DropTo(day, dim) > dim - 7
    ensures exists k :: DropTo(day, dim) == day - 7 * k
    decreases day - dim
  {
    if day > dim {
      DropToIs(day - 7, dim);
      var k :| DropTo(day - 7, dim) == day - 7 - 7 * k;
      assert DropTo(day, dim) == day - 7 * (k + 1);
    } else {
      assert DropTo(day, dim) == day - 7 * 0;
    }
  }

  // An Nth rule names the right weekday of the right month: the week-th one, or for week 5
  // the last.
  lemma NthRule(r: Rule, year: int)
    requires r.kind == Nth && 1 <= r.mon <= 12 && 1 <= r.week <= 5 && 0 <= r.wday < 7
    ensures var day := NthDay(r, year);
      && 1 <= day <= DaysIn(year, r.mon)
      && CivilFromDays(TransDays(r, year)) == Date(year, r.mon, day)
      && (TransDays(r, year) + 4) % 7 == r.wday
      && (r.week <= 4 ==> (r.week - 1) * 7 < day <= r.week * 7)
      && (r.week == 5 ==> day + 7 > DaysIn(year, r.mon))
  {
    hide DaysFromCivil, CivilFromDays, WeekdayCode, TruncMod, DropTo, IsLeap;
    var start := DaysFromCivil(year, r.mon, 1);
    WeekdayIs(start);
    var first := Weekday(start);
    TruncModIs(r.wday - first + 7, 7);
    var day := 1 + (r.wday - first + 7) % 7 + (r.week - 1) * 7;
    var dim := DaysIn(year, r.mon);
    DropToIs(day, dim);
    var k :| DropTo(day, dim) == day - 7 * k;
    var d := DropTo(day, dim);
    LinearInDay(year, r.mon, 1, d - 1);
    CivilInverse(Date(year, r.mon, d));
    SameWeekday(start, first, r.wday, d - 1, r.week - 1 - k);
  }

  lemma SameWeekday(start: int, first: int, wday: int, n: int, k: int)
    requires first == Weekday(start) && 0 <= wday < 7 && n == (wday - first + 7) % 7 + 7 * k
    ensures Weekday(start + n) == wday
  {
    assert start + 4 == 7 * ((start + 4) / 7) + first;
    var q := if wday >= first then 0 else 1;
    assert (wday - first + 7) % 7 == wday - first + 7 * q;
    ModUnique(start + n + 4, 7, (start + 4) / 7 + q + k, wday);
  }

  // A Julian rule names the same month and day in every year.
  lemma JulianRule(r: Rule, year: int, other: int)
    requires r.kind == Julian && 1 <= r.yday <= 365
    ensures CivilFromDays(TransDays(r, year)).y == year
    ensures CivilFromDays(TransDays(r, year)).m == CivilFromDays(TransDays(r, other)).m
    ensures CivilFromDays(TransDays(r, year)).d == CivilFromDays(TransDays(r, other)).d
  {
    hide CivilFromDays;
    JulianDate(r, year);
    JulianDate(r, other);
  }

  // That of the n-th day of a year of 365 days.
  lemma JulianDay(r: Rule, year: int)
    requires r.kind == Julian && 1 <= r.yday <= 365 && DaysIn(year, 2) == 28
    ensures CivilFromDays(TransDays(r, year)) == DaysLater(Date(year, 1, 1), r.yday - 1)
  {
    hide CivilFromDays, DaysFromCivil, DaysLater;
    LaterIs(Date(year, 1, 1), r.yday - 1);
  }

  // A rule n is n days after January 1, February 29 counted.
  lemma DayOfYearRule(r: Rule, year: int)
    requires r.kind == DayOfYear && r.yday >= 0
    ensures CivilFromDays(TransDays(r, year)) == DaysLater(Date(year, 1, 1), r.yday)
  {
    hide CivilFromDays, DaysFromCivil, DaysLater;
    LaterIs(Date(year, 1, 1), r.yday);
  }

  lemma JulianDate(r: Rule, year: int)
    requires r.kind == Julian && 1 <= r.yday <= 365
    ensures var doy := if r.yday >= 60 then r.yday - 60 else 305 + r.yday;
      var mp := (5 * doy + 2) / 153; var m := if mp < 10 then mp + 3 else mp - 9;
      CivilFromDays(TransDays(r, year)) == Date(year, m, doy - MonthStart(mp) + 1)
  {
    hide CivilFromDays, DaysFromCivil, YearStart, LongYear, IsLeap;
    var doy := if r.yday >= 60 then r.yday - 60 else 305 + r.yday;
    MarchForm(year, 1, 1);
    FebruaryEnds(year);
    var y := if r.yday >= 60 then year else year - 1;
    CivilParts(TransDays(r, year), y / 400, y % 400, doy);
    EarlyMonths(doy);
  }

  lemma EarlyMonths(doy: int)
    requires 0 <= doy <= 365
    ensures (5 * doy + 2) / 153 < 10 <==> doy < 306
  {}

  // POSIX states both transitions in the local time in force just before them, so daylight
  // saving ends at end - dstOff. localtime tests both against standard time.
  predicate PosixDst(z: Zone, utc: int, year: int)
    requires GoodZone(z)
  {
    z.hasDst
    && var s, e := TransSecs(z.start, year), TransSecs(z.end, year);
       if s <= e then s + z.stdOff <= utc < e + z.dstOff else utc >= s + z.stdOff || utc < e + z.dstOff
  }

  // localtime and POSIX differ exactly between the ends of daylight saving that the two
  // offsets give, while daylight saving was on before them. Where it moves the clock
  // forward, that is the repeated hour.
  lemma DstDecision(z: Zone, utc: int)
    requires GoodZone(z) && z.hasDst
    ensures var year := CivilFromDays(DayOf(utc - z.stdOff)).y;
      var s, e := TransSecs(z.start, year), TransSecs(z.end, year);
      var (lo, hi) := if z.dstOff <= z.stdOff then (z.dstOff, z.stdOff) else (z.stdOff, z.dstOff);
      DstAt(z, utc) != PosixDst(z, utc, year) <==> e + lo <= utc < e + hi && (s <= e <==> s + z.stdOff <= utc)
  {
    hide TransSecs, CivilFromDays;
  }

  // EST5EDT, with the rules it has by default.
  const EASTERN := Zone(true, 18000, 14400, Rule(Nth, 3, 2, 0, 0, 7200), Rule(Nth, 11, 1, 0, 0, 7200))

  // IST-1GMT0,M10.5.0,M3.5.0/1: the other time is the winter's, an hour behind.
  const IRISH := Zone(true, -3600, 0, Rule(Nth, 10, 5, 0, 0, 7200), Rule(Nth, 3, 5, 0, 0, 3600))

  // 2023-11-05 06:00 in universal time, 01:00 Eastern standard time: daylight saving is
  // over, localtime still reports 02:00 with daylight saving.
  lemma RepeatedHour()
    ensures GoodZone(EASTERN) && DstAt(EASTERN, 1699164000) && !PosixDst(EASTERN, 1699164000, 2023)
    ensures LocalBroken(EASTERN, 1699164000).hour == 2
  {
    CivilAt(19666, Date(2023, 11, 5));
    DayParts(1699164000 - 18000, 19666, 3600);
    DayParts(1699164000 - 14400, 19666, 7200);
    assert TransDays(EASTERN.start, 2023) == 19428 by { SecondSunday(); }
    assert TransDays(EASTERN.end, 2023) == 19666 by { FirstSunday(); }
  }

  lemma CivilAt(z: int, x: Date)
    requires IsDate(x) && DaysFromCivil(x.y, x.m, x.d) == z
    ensures CivilFromDays(z) == x
  {
    CivilInverse(x);
  }

  lemma DayParts(t: int, day: int, sec: int)
    requires t >= 0 && t == day * 86400 + sec && 0 <= sec < 86400
    ensures DayOf(t) == day && SecOf(t) == sec
  {}

  // The day of an Nth rule, counted from the first of its month.
  lemma RuleFrom(r: Rule, year: int, first: int, wd: int, day: int)
    requires r.kind == Nth && GoodRule(r) && DaysFromCivil(year, r.mon, 1) == first && WeekdayCode(first) == wd
    requires DropTo(1 + TruncMod(r.wday - wd + 7, 7) + (r.week - 1) * 7, TableDays(year, r.mon)) == day
    ensures TransDays(r, year) == first + day - 1
  {
    hide DaysFromCivil, WeekdayCode, DropTo;
    LinearInDay(year, r.mon, 1, day - 1);
  }

  lemma SecondSunday()
    ensures TransDays(EASTERN.start, 2023) == 19428
  {
    FirstDays();
    hide DaysFromCivil, TransDays;
    assert WeekdayCode(19417) == 3;
    RuleFrom(EASTERN.start, 2023, 19417, 3, 12);
  }

  lemma FirstSunday()
    ensures TransDays(EASTERN.end, 2023) == 19666
  {
    FirstDays();
    hide DaysFromCivil, TransDays;
    assert WeekdayCode(19662) == 3;
    RuleFrom(EASTERN.end, 2023, 19662, 3, 5);
  }

  lemma FirstDays()
    ensures DaysFromCivil(2023, 3, 1) == 19417 && DaysFromCivil(2023, 11, 1) == 19662
    ensures DaysFromCivil(2024, 3, 1) == 19783 && DaysFromCivil(2024, 10, 1) == 19997
  {
    YearBase();
    hide DaysBefore;
  }

  lemma YearBase()
    ensures DaysBefore(23) == 8400 && DaysBefore(24) == 8766
  {}

  // 2024-03-31 00:30 in universal time, half an hour before Irish winter time ends: localtime
  // has left it already.
  lemma HourBefore()
    ensures GoodZone(IRISH) && !DstAt(IRISH, 1711845000) && PosixDst(IRISH, 1711845000, 2024)
  {
    CivilAt(19813, Date(2024, 3, 31));
    DayParts(1711845000 + 3600, 19813, 5400);
    assert TransDays(IRISH.start, 2024) == 20023 by { LastOctober(); }
    assert TransDays(IRISH.end, 2024) == 19813 by { LastMarch(); }
  }

  lemma LastOctober()
    ensures TransDays(IRISH.start, 2024) == 20023
  {
    FirstDays();
    hide DaysFromCivil, TransDays;
    assert WeekdayCode(19997) == 2;
    assert DropTo(34, 31) == 27;
    RuleFrom(IRISH.start, 2024, 19997, 2, 27);
  }

  lemma LastMarch()
    ensures TransDays(IRISH.end, 2024) == 19813
  {
    FirstDays();
    hide DaysFromCivil, TransDays;
    assert WeekdayCode(19783) == 5;
    RuleFrom(IRISH.end, 2024, 19783, 5, 31);
  }

  // ---- local times that mktime resolves itself -----------------------------------------------------

  function YearAt(local: int): int { CivilFromDays(DayOf(local)).y }

  // The reading is one that the zone's clock does not show: the hour skipped when daylight
  // saving starts, or, where it puts the clock back, the hour before its end.
  predicate Unshown(z: Zone, local: int, year: int)
    requires GoodZone(z)
  {
    z.hasDst
    && var s, e := TransSecs(z.start, year), TransSecs(z.end, year);
       var d := z.stdOff - z.dstOff;
       if d > 0 then s <= local < s + d && (if s <= e then local < e else e + d <= local)
       else e + d <= local < e && (if s <= e then s <= local else local < s + d)
  }

  // mktime's test of the reading, in the year its months carry it to, and the test localtime
  // then makes of the resulting time agree.
  predicate SameTests(z: Zone, local: int, year: int)
    requires GoodZone(z)
  {
    var d := z.stdOff - z.dstOff;
    d == 0
    || (if IsDstLocal(z, local, year) then IsDstLocal(z, local - d, YearAt(local - d)) else !IsDstLocal(z, local, YearAt(local)))
  }

  // With isdst negative, localtime after mktime shows the reading that was given exactly when
  // the two tests agree.
  lemma MktimeReadsBackIff(z: Zone, b: Broken)
    requires GoodZone(z) && b.isdst < 0
    ensures var l, y := LocalSecs(b), YearCarry(b.year + 1900, b.mon).0;
      LocalSecs(LocalBroken(z, MkTime(z, b))) == l <==> SameTests(z, l, y)
  {
    hide LocalSecs, TransSecs, GmBroken, DayOf, CivilFromDays, YearCarry, IsDstLocal;
    var t := MkTime(z, b);
    var loc := t - if DstAt(z, t) then z.dstOff else z.stdOff;
    GmFields(loc);
    IsdstAside(GmBroken(loc), LocalBroken(z, t).isdst);
  }

  // Within a year: exactly when the reading is one that the clock shows.
  lemma MktimeReadsBack(z: Zone, b: Broken)
    requires GoodZone(z) && b.isdst < 0
    ensures var l, d := LocalSecs(b), z.stdOff - z.dstOff;
      var y := YearCarry(b.year + 1900, b.mon).0;
      YearAt(l) == y && YearAt(l - d) == y ==>
        (LocalSecs(LocalBroken(z, MkTime(z, b))) == l <==> !Unshown(z, l, y))
  {
    hide LocalSecs, TransSecs, GmBroken, DayOf, CivilFromDays, YearCarry;
    var t := MkTime(z, b);
    var loc := t - if DstAt(z, t) then z.dstOff else z.stdOff;
    GmFields(loc);
    IsdstAside(GmBroken(loc), LocalBroken(z, t).isdst);
  }

  // ---- the library's state -----------------------------------------------------------------------------------

  class Tm {
    var sec: int
    var min: int
    var hour: int
    var mday: int
    var mon: int
    var year: int
    var wday: int
    var yday: int
    var isdst: int

    constructor ()
      ensures fresh(this)
    {
      sec, min, hour, mday, mon, year, wday, yday, isdst := 0, 0, 0, 0, 0, 0, 0, 0, 0;
    }

    function Value(): Broken
      reads this
    {
      Broken(sec, min, hour, mday, mon, year, wday, yday, isdst)
    }

    method Assign(b: Broken)
      modifies this
      ensures Value() == b
    {
      sec, min, hour := b.sec, b.min, b.hour;
      mday, mon, year := b.mday, b.mon, b.year;
      wday, yday, isdst := b.wday, b.yday, b.isdst;
    }
  }

  class TimeLib {
    var tz: Zone
    const tmBuf: Tm

    constructor (tz: Zone)
      ensures this.tz == tz && fresh(tmBuf)
    {
      this.tz := tz;
      tmBuf := new Tm();
    }

    // tz_trans_days.
    method TzTransDays(r: Rule, year: int) returns (days: int)
      requires GoodRule(r)
      ensures days == TransDays(r, year)
    {
      if r.kind == Nth {
        var first := TruncMod(TruncMod(DaysFromCivil(year, r.mon, 1), 7) + 4, 7);
        if first < 0 { first := first + 7; }
        var day := 1 + TruncMod(r.wday - first + 7, 7) + (r.week - 1) * 7;
        var mdays := [0, 31, 28, 31, 30, 31, 30, 31, 31, 30, 31, 30, 31];
        var dim := mdays[r.mon];
        if r.mon == 2 && IsLeap(year) { dim := 29; }
        assert dim == TableDays(year, r.mon);
        while day > dim
          invariant DropTo(day, dim) == NthDay(r, year)
        {
          day := day - 7;
        }
        return DaysFromCivil(year, r.mon, day);
      }
      var leap := IsLeap(year);
      var doy := if r.kind == Julian then r.yday - 1 + (if leap && r.yday >= 60 then 1 else 0) else r.yday;
      days := DaysFromCivil(year, 1, 1) + doy;
    }

    // tz_isdst_local.
    method TzIsdstLocal(local: int, year: int) returns (dst: bool)
      requires GoodZone(tz)
      ensures dst == IsDstLocal(tz, local, year)
    {
      if !tz.hasDst { return false; }
      var sd := TzTransDays(tz.start, year);
      var ed := TzTransDays(tz.end, year);
      var s, e := sd * 86400 + tz.start.secs, ed * 86400 + tz.end.secs;
      if s <= e { return s <= local && local < e; }
      dst := local >= s || local < e;
    }

    // gmtime, into the shared buffer.
    method Gmtime(t: int)
      modifies tmBuf
      ensures tmBuf.Value() == GmBroken(t)
      ensures 0 <= tmBuf.hour < 24 && 0 <= tmBuf.min < 60 && 0 <= tmBuf.sec < 60 && tmBuf.isdst == 0
      ensures t % 86400 == (tmBuf.hour * 60 + tmBuf.min) * 60 + tmBuf.sec && tmBuf.wday == (t / 86400 + 4) % 7
      ensures t / 86400 == DaysFromCivil(tmBuf.year + 1900, tmBuf.mon + 1, tmBuf.mday)
    {
      hide DaysFromCivil, CivilFromDays, TruncDiv, TruncMod, DaysLater;
      GmFields(t);
      DaySplit(t);
      Clock(t % 86400);
      DaysInverse(t / 86400);
      var days, rem := TruncDiv(t, 86400), TruncMod(t, 86400);
      if rem < 0 {
        rem := rem + 86400;
        days := days - 1;
      }
      var x := CivilFromDays(days);
      tmBuf.year, tmBuf.mon, tmBuf.mday := x.y - 1900, x.m - 1, x.d;
      tmBuf.hour := TruncDiv(rem, 3600);
      tmBuf.min := TruncDiv(TruncMod(rem, 3600), 60);
      tmBuf.sec := TruncMod(rem, 60);
      var wd := TruncMod(TruncMod(days, 7) + 4, 7);
      if wd < 0 { wd := wd + 7; }
      tmBuf.wday := wd;
      tmBuf.yday := days - DaysFromCivil(x.y, 1, 1);
      tmBuf.isdst := 0;
    }

    // localtime: approximate with the standard offset, test the rule, then break down.
    method Localtime(utc: int)
      requires GoodZone(tz)
      modifies tmBuf
      ensures tmBuf.Value() == LocalBroken(tz, utc)
    {
      hide GmBroken, CivilFromDays, TransSecs;
      var guess := utc - tz.stdOff;
      var gdays := TruncDiv(guess, 86400);
      if TruncMod(guess, 86400) < 0 { gdays := gdays - 1; }
      var gy := CivilFromDays(gdays).y;
      var dst := TzIsdstLocal(guess, gy);
      var off := if dst then tz.dstOff else tz.stdOff;
      Gmtime(utc - off);
      tmBuf.isdst := if dst && tz.hasDst then 1 else 0;
    }

    // mktime: the caller's structure, which may be the shared buffer, is normalized.
    method Mktime(tm: Tm) returns (t: int)
      requires GoodZone(tz)
      modifies tm, tmBuf
      ensures old(tm.isdst) == 0 ==> LocalSecs(old(tm.Value())) == t - tz.stdOff
      ensures old(tm.isdst) > 0 ==> LocalSecs(old(tm.Value())) == t - tz.dstOff
      ensures t == MkTime(tz, old(tm.Value())) && tm.Value() == LocalBroken(tz, t)
      ensures MkTime(tz, tm.Value()) == t
    {
      hide LocalBroken, IsDstLocal, DaysFromCivil;
      var y, mo := tm.year + 1900, tm.mon;
      var yadj := TruncDiv(mo, 12);
      mo := mo - yadj * 12;
      y := y + yadj;
      if mo < 0 {
        mo := mo + 12;
        y := y - 1;
      }
      var days := DaysFromCivil(y, mo + 1, tm.mday);
      var local := days * 86400 + tm.hour * 3600 + tm.min * 60 + tm.sec;
      var dst := tm.isdst > 0;
      if tm.isdst < 0 { dst := TzIsdstLocal(local, y); }
      var off := if dst then tz.dstOff else tz.stdOff;
      t := local + off;
      Localtime(t);
      tm.Assign(tmBuf.Value());
      MktimeUndoesLocaltime(tz, t);
    }
  }
}
