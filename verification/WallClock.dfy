/** The calendar clock: nanosecond accumulation and the day-number to Gregorian date arithmetic. */
module WallClock {

  const U64: nat := 0x1_0000_0000_0000_0000
  const U32: nat := 0x1_0000_0000
  const NS: nat := 1_000_000_000
  const DAY: nat := 86400
  const ERA: nat := 146097
  /** Days from 0000-03-01 to 1970-01-01. */
  const SHIFT: nat := 719468

  datatype Date = Date(y: nat, m: nat, d: nat)

  datatype Calendar = Calendar(date: Date, h: nat, mi: nat, s: nat, wd: nat)

  // ---- The Gregorian calendar ----

  predicate Leap(y: nat) {
    y % 4 == 0 && (y % 100 != 0 || y % 400 == 0)
  }

  function LeapDay(y: nat): nat {
    if Leap(y) then 1 else 0
  }

  function DaysIn(y: nat, m: nat): nat {
    if m == 2 then 28 + LeapDay(y) else if m == 4 || m == 6 || m == 9 || m == 11 then 30 else 31
  }

  predicate ValidDate(t: Date) {
    1 <= t.m <= 12 && 1 <= t.d <= DaysIn(t.y, t.m)
  }

  /** Days of the year before month m. */
  function MonthStart(y: nat, m: nat): nat {
    (match m
     case 1 => 0 case 2 => 31 case 3 => 59 case 4 => 90 case 5 => 120 case 6 => 151
     case 7 => 181 case 8 => 212 case 9 => 243 case 10 => 273 case 11 => 304 case _ => 334)
    + if m > 2 then LeapDay(y) else 0
  }

  function YearDay(t: Date): nat
    requires t.d >= 1
  {
    MonthStart(t.y, t.m) + t.d - 1
  }

  /** Day count since 1970-01-01 by the formula for seconds since the Epoch, section 4.16 of POSIX.1-2017 Base
      Definitions, with tm_year counted from 1900. */
  function PosixDays(t: Date): int
    requires t.d >= 1 && t.y >= 1970
  {
    var tmYear := t.y - 1900;
    YearDay(t) + (tmYear - 70) * 365 + (tmYear - 69) / 4 - (tmYear - 1) / 100 + (tmYear + 299) / 400
  }

  function PosixSeconds(c: Calendar): int
    requires c.date.d >= 1 && c.date.y >= 1970
  {
    c.s + c.mi * 60 + c.h * 3600 + PosixDays(c.date) * DAY
  }

  function NextDate(t: Date): Date {
    if t.d < DaysIn(t.y, t.m) then t.(d := t.d + 1)
    else if t.m < 12 then Date(t.y, t.m + 1, 1)
    else Date(t.y + 1, 1, 1)
  }

  // ---- The conversion ----

  function YearOfEra(doe: nat): nat
    requires doe < ERA
  {
    (doe - doe / 1460 + doe / 36524 - doe / 146096) / 365
  }

  /** Days of the era before March of year of era yoe. */
  function EraYearStart(yoe: nat): nat {
    365 * yoe + yoe / 4 - yoe / 100
  }

  /** Century c, four-year block q of the century, day t of the block and year k of the block give the year of the era. */
  lemma YearFromBlocks(doe: nat, c: nat, q: nat, t: nat, k: nat)
    requires doe == 36524 * c + 1461 * q + t && c <= 3 && q <= 24 && t <= 1460 && (q == 24 ==> t <= 1459)
    requires k <= 3 && 365 * k <= t && (t < 365 * k + 365 || k == 3)
    ensures doe < ERA && YearOfEra(doe) == 100 * c + 4 * q + k
  {
    var e := if 24 * c + q + t >= 1460 then 1 else 0;
    assert doe / 1460 == 25 * c + q + e;
    assert doe / 36524 == c;
    assert doe / 146096 == 0;
    assert doe - doe / 1460 + doe / 36524 - doe / 146096 == 36500 * c + 1460 * q + t - e;
    assert (36500 * c + 1460 * q + t - e) / 365 == 100 * c + 4 * q + k;
  }

  /** The year of the era, its first day of March, and how far into the year the day is. */
  lemma YearOfEraBounds(doe: nat)
    requires doe < ERA
    ensures var y := YearOfEra(doe);
      && y < 400
      && EraYearStart(y) <= doe <= EraYearStart(y) + 365
      && (doe == EraYearStart(y) + 365 ==> (y + 1) % 4 == 0 && ((y + 1) % 100 != 0 || y == 399))
  {
    if doe == 146096 {
      assert YearOfEra(doe) == 399;
    } else {
      hide YearOfEra, EraYearStart;
      var c := doe / 36524;
      var r := doe - 36524 * c;
      var q := r / 1461;
      var t := r - 1461 * q;
      var k := if t == 1460 then 3 else t / 365;
      YearFromBlocks(doe, c, q, t, k);
      BlockYear(c, q, k);
      if q < 24 {
        BlockLeap(c, q);
      }
    }
  }

  lemma BlockYear(c: nat, q: nat, k: nat)
    requires c <= 3 && q <= 24 && k <= 3
    ensures EraYearStart(100 * c + 4 * q + k) == 36524 * c + 1461 * q + 365 * k
  {
  }

  lemma BlockLeap(c: nat, q: nat)
    requires c <= 3 && q < 24
    ensures (100 * c + 4 * q + 4) % 4 == 0 && (100 * c + 4 * q + 4) % 100 != 0
  {
  }

  // ---- The date ----

  /** Days from 0000-03-01 to March of year y. */
  function MarchDays(y: nat): nat {
    365 * y + y / 4 - y / 100 + y / 400
  }

  lemma MarchOfEra(era: nat, yoe: nat)
    requires yoe < 400
    ensures MarchDays(400 * era + yoe) == ERA * era + EraYearStart(yoe)
  {
    Shifted(100 * era, 4, yoe);
    Shifted(4 * era, 100, yoe);
    Shifted(era, 400, yoe);
  }

  lemma Shifted(k: nat, m: nat, r: nat)
    requires m == 4 || m == 100 || m == 400
    ensures (k * m + r) / m == k + r / m
  {
    if m == 4 {
    } else if m == 100 {
    } else {
    }
  }

  /** The part of the conversion within one March-based year. */
  function MonthDay(doy: nat): (nat, nat)
    requires doy <= 365
  {
    var mp := (5 * doy + 2) / 153;
    ((if mp < 10 then mp + 3 else mp - 9), doy - (153 * mp + 2) / 5 + 1)
  }

  /** The date of day z since 1970-01-01, before any register truncation. */
  function CivilFromDays(z: nat): Date {
    var n := z + SHIFT;
    var era := n / ERA;
    var doe := n - era * ERA;
    var yoe := YearOfEra(doe);
    YearOfEraBounds(doe);
    var (m, d) := MonthDay(doe - EraYearStart(yoe));
    Date(yoe + era * 400 + (if m <= 2 then 1 else 0), m, d)
  }

  /** A day of the March-based year y becomes a valid date with the matching day of the year. */
  lemma MonthDayIsValid(y: nat, doy: nat)
    requires doy <= 365 && (doy == 365 ==> Leap(y + 1))
    ensures var (m, d) := MonthDay(doy);
      var t := Date(y + (if m <= 2 then 1 else 0), m, d);
      && ValidDate(t)
      && (m >= 3 ==> YearDay(t) == doy + 59 + LeapDay(y))
      && (m <= 2 ==> YearDay(t) == doy - 306)
  {
    var mp := (5 * doy + 2) / 153;
    assert mp <= 11;
    if mp == 0 {} else if mp == 1 {} else if mp == 2 {} else if mp == 3 {} else if mp == 4 {} else if mp == 5 {}
    else if mp == 6 {} else if mp == 7 {} else if mp == 8 {} else if mp == 9 {} else if mp == 10 {} else {}
  }

  /** Day count of a date by March-based years. */
  lemma PosixByMarch(t: Date)
    requires ValidDate(t) && t.y >= 1970
    ensures PosixDays(t) ==
      if t.m >= 3 then MarchDays(t.y) + (YearDay(t) - 59 - LeapDay(t.y)) - SHIFT
      else MarchDays(t.y - 1) + YearDay(t) + 306 - SHIFT
  {
    JanuaryLeaps(t.y);
    YearLeaps(t.y);
  }

  lemma JanuaryLeaps(y: nat)
    requires y >= 1970
    ensures (y - 1969) / 4 == (y - 1) / 4 - 492
    ensures (y - 1901) / 100 == (y - 1) / 100 - 19
    ensures (y - 1601) / 400 == (y - 1) / 400 - 4
  {
  }

  lemma YearLeaps(y: nat)
    requires y >= 1
    ensures y / 4 - y / 100 + y / 400 == (y - 1) / 4 - (y - 1) / 100 + (y - 1) / 400 + LeapDay(y)
  {
    QuotientStep(y, 4);
    QuotientStep(y, 100);
    QuotientStep(y, 400);
    Centuries(y);
  }

  lemma Centuries(y: nat)
    ensures y % 400 == 0 ==> y % 100 == 0
    ensures y % 100 == 0 ==> y % 4 == 0
  {
    if y % 400 == 0 {
      Hundreds(y / 400 * 4);
    }
    if y % 100 == 0 {
      Fours(y / 100 * 25);
    }
  }

  lemma Hundreds(q: nat)
    ensures 100 * q % 100 == 0
  {
  }

  lemma Fours(q: nat)
    ensures 4 * q % 4 == 0
  {
  }

  lemma QuotientStep(y: nat, m: nat)
    requires y >= 1 && (m == 4 || m == 100 || m == 400)
    ensures y / m == (y - 1) / m + if y % m == 0 then 1 else 0
  {
    if m == 4 {
    } else if m == 100 {
    } else {
    }
  }

  /** Main result: every day number becomes a valid Gregorian date, and the POSIX formula takes it back. */
  lemma CivilIsPosix(z: nat)
    ensures var t := CivilFromDays(z); ValidDate(t) && t.y >= 1970 && PosixDays(t) == z
  {
    var n := z + SHIFT;
    hide CivilFromDays, PosixDays, ValidDate;
    CivilOfEra(z, n / ERA, n % ERA);
  }

  lemma CivilOfEra(z: nat, era: nat, doe: nat)
    requires z + SHIFT == era * ERA + doe && doe < ERA
    ensures var t := CivilFromDays(z); ValidDate(t) && t.y >= 1970 && PosixDays(t) == z
  {
    hide CivilFromDays, YearOfEra, EraYearStart, MonthDay, MarchDays, YearDay, MonthStart, PosixDays, DaysIn, Leap, LeapDay;
    YearOfEraBounds(doe);
    var yoe := YearOfEra(doe);
    var doy := doe - EraYearStart(yoe);
    var y := 400 * era + yoe;
    CivilByYear(z, era, doe, yoe);
    EraLeap(era, yoe);
    MonthDayIsValid(y, doy);
    MarchOfEra(era, yoe);
    var (m, d) := MonthDay(doy);
    LateInYear(doy);
    FirstYears(y, doy);
    PosixByMarch(Date(y + (if m <= 2 then 1 else 0), m, d));
  }

  /** January and February end a year that starts in March. */
  lemma LateInYear(doy: nat)
    requires doy <= 365
    ensures MonthDay(doy).0 <= 2 <==> doy >= 306
  {
  }

  lemma CivilByYear(z: nat, era: nat, doe: nat, yoe: nat)
    requires z + SHIFT == era * ERA + doe && doe < ERA && yoe == YearOfEra(doe) && EraYearStart(yoe) <= doe <= EraYearStart(yoe) + 365
    ensures var (m, d) := MonthDay(doe - EraYearStart(yoe));
      CivilFromDays(z) == Date(400 * era + yoe + (if m <= 2 then 1 else 0), m, d)
  {
    assert (z + SHIFT) / ERA == era;
  }

  lemma EraLeap(era: nat, yoe: nat)
    requires yoe < 400
    ensures (yoe + 1) % 4 == 0 && ((yoe + 1) % 100 != 0 || yoe == 399) ==> Leap(400 * era + yoe + 1)
  {
    var y := yoe + 1;
    if y % 4 == 0 {
      Fours(100 * era + y / 4);
      if y == 400 {
        FourHundreds(era + 1);
      } else if y % 100 != 0 {
        CenturyShift(era, y);
      }
    }
  }

  lemma FourHundreds(q: nat)
    ensures 400 * q % 400 == 0
  {
  }

  lemma CenturyShift(era: nat, y: nat)
    ensures (400 * era + y) % 100 == y % 100
  {
    var q := y / 100;
    assert 400 * era + y == 100 * (4 * era + q) + y % 100;
  }

  /** From 1970-01-01 on the calendar year is 1970 or later. */
  lemma FirstYears(y: nat, doy: nat)
    requires doy <= 365 && MarchDays(y) + doy >= SHIFT
    ensures y >= 1970 || (y == 1969 && doy >= 306)
  {
  }

  // ---- Consecutive days, and the date determines the day ----

  /** Day count of January 1st. */
  function YearStart(y: nat): int
    requires y >= 1970
  {
    PosixDays(Date(y, 1, 1))
  }

  lemma YearStartStep(y: nat)
    requires y >= 1970
    ensures YearStart(y + 1) == YearStart(y) + 365 + LeapDay(y)
  {
    JanuaryLeaps(y);
    JanuaryLeaps(y + 1);
    YearLeaps(y);
  }

  lemma {:induction false} YearStartGrows(a: nat, b: nat)
    requires 1970 <= a <= b
    ensures YearStart(a) + 365 * (b - a) <= YearStart(b)
    decreases b - a
  {
    if a < b {
      YearStartStep(a);
      YearStartGrows(a + 1, b);
    }
  }

  lemma DayWithinYear(t: Date)
    requires ValidDate(t) && t.y >= 1970
    ensures PosixDays(t) == YearStart(t.y) + YearDay(t)
    ensures YearDay(t) < 365 + LeapDay(t.y)
  {
  }

  /** Different valid dates have different day counts. */
  lemma PosixIsInjective(t: Date, u: Date)
    requires ValidDate(t) && ValidDate(u) && t.y >= 1970 && u.y >= 1970 && PosixDays(t) == PosixDays(u)
    ensures t == u
  {
    if t.y < u.y {
      EarlierYear(t, u);
    } else if u.y < t.y {
      EarlierYear(u, t);
    } else {
      DayWithinYear(t);
      DayWithinYear(u);
      SameYear(t.y, t.m, t.d, u.m, u.d);
    }
  }

  lemma EarlierYear(t: Date, u: Date)
    requires ValidDate(t) && ValidDate(u) && 1970 <= t.y < u.y
    ensures PosixDays(t) < PosixDays(u)
  {
    hide PosixDays, YearStart, YearDay;
    DayWithinYear(t);
    DayWithinYear(u);
    YearStartStep(t.y);
    YearStartGrows(t.y + 1, u.y);
  }

  lemma SameYear(y: nat, m: nat, d: nat, n: nat, e: nat)
    requires ValidDate(Date(y, m, d)) && ValidDate(Date(y, n, e))
    requires YearDay(Date(y, m, d)) == YearDay(Date(y, n, e))
    ensures m == n && d == e
  {
    if m < n {
      MonthsApart(y, m, n);
    } else if n < m {
      MonthsApart(y, n, m);
    }
  }

  lemma {:induction false} MonthsApart(y: nat, m: nat, n: nat)
    requires 1 <= m < n <= 12
    ensures MonthStart(y, m) + DaysIn(y, m) <= MonthStart(y, n)
  {
    if m + 1 < n {
      MonthsApart(y, m, n - 1);
    }
  }

  /** Main result: the conversion is the inverse of the formula, in both directions. */
  lemma PosixIsCivil(t: Date)
    requires ValidDate(t) && t.y >= 1970
    ensures PosixDays(t) >= 0 && CivilFromDays(PosixDays(t)) == t
  {
    hide CivilFromDays;
    NotBeforeEpoch(t);
    CivilIsPosix(PosixDays(t));
    hide PosixDays;
    PosixIsInjective(CivilFromDays(PosixDays(t)), t);
  }

  lemma NotBeforeEpoch(t: Date)
    requires ValidDate(t) && t.y >= 1970
    ensures PosixDays(t) >= 0
  {
    hide PosixDays, YearStart, YearDay;
    YearStartGrows(1970, t.y);
    DayWithinYear(t);
    EpochStart();
  }

  lemma EpochStart()
    ensures YearStart(1970) == 0
  {
  }

  lemma NextDateIsNextDay(t: Date)
    requires ValidDate(t) && t.y >= 1970
    ensures ValidDate(NextDate(t)) && NextDate(t).y >= 1970 && PosixDays(NextDate(t)) == PosixDays(t) + 1
  {
    if t.d < DaysIn(t.y, t.m) {
      hide MonthStart, DaysIn;
    } else if t.m < 12 {
      NextMonth(t);
    } else {
      hide PosixDays, MonthStart, DaysIn;
      YearStartStep(t.y);
      DayWithinYear(t);
      LastDay(t);
    }
  }

  lemma NextMonth(t: Date)
    requires ValidDate(t) && t.y >= 1970 && t.d == DaysIn(t.y, t.m) && t.m < 12
    ensures PosixDays(Date(t.y, t.m + 1, 1)) == PosixDays(t) + 1 && 1 <= DaysIn(t.y, t.m + 1)
  {
    hide Leap;
  }

  lemma LastDay(t: Date)
    requires ValidDate(t) && t.d == DaysIn(t.y, t.m) && t.m == 12
    ensures YearDay(t) == 364 + LeapDay(t.y) && 1 <= DaysIn(t.y + 1, 1)
  {
  }

  /** Main result: consecutive days give consecutive dates. */
  lemma ConsecutiveDays(z: nat)
    ensures CivilFromDays(z + 1) == NextDate(CivilFromDays(z))
  {
    hide CivilFromDays, PosixDays, NextDate, ValidDate;
    CivilIsPosix(z);
    CivilIsPosix(z + 1);
    NextDateIsNextDay(CivilFromDays(z));
    PosixIsInjective(CivilFromDays(z + 1), NextDate(CivilFromDays(z)));
  }

  // ---- The calendar fields of a second count ----

  function CalendarAt(sec: nat): Calendar {
    var z, rem := sec / DAY, sec % DAY;
    Calendar(CivilFromDays(z), rem / 3600, (rem / 60) % 60, rem % 60, (z + 4) % 7)
  }

  predicate ValidCalendar(c: Calendar) {
    ValidDate(c.date) && c.h < 24 && c.mi < 60 && c.s < 60 && c.wd < 7
  }

  /** Main result: the fields form a valid date-time whose POSIX seconds are the count; the weekday of 1970-01-01 is
      Thursday and moves on by one a day. */
  lemma CalendarIsPosix(sec: nat)
    ensures var c := CalendarAt(sec); ValidCalendar(c) && c.date.y >= 1970 && PosixSeconds(c) == sec
    ensures CalendarAt(0).wd == 4 && CalendarAt(sec + DAY).wd == (CalendarAt(sec).wd + 1) % 7
  {
    hide CivilFromDays, PosixDays;
    CivilIsPosix(sec / DAY);
    TimeOfDay(sec % DAY);
    NextDaySameTime(sec);
  }

  lemma WeekdayIs(sec: nat)
    ensures CalendarAt(sec).wd == (sec / 86400 + 4) % 7
  {
  }

  lemma TimeOfDay(rem: nat)
    requires rem < DAY
    ensures rem / 3600 < 24 && rem == rem / 3600 * 3600 + (rem / 60) % 60 * 60 + rem % 60
  {
  }

  lemma NextDaySameTime(sec: nat)
    ensures (sec + DAY) / DAY == sec / DAY + 1
    ensures (sec / DAY + 1 + 4) % 7 == ((sec / DAY + 4) % 7 + 1) % 7
  {
  }

  // ---- The component ----

  /** The registers hold 32 bits and the year output 16; only the year can exceed them. */
  function Truncated(c: Calendar): Calendar {
    c.(date := c.date.(y := c.date.y % U32))
  }

  lemma YearIs(c: Calendar)
    ensures Truncated(c).date.y == c.date.y % U32
  {
  }

  /** The date and time of day are that second's since 1970-01-01, and the weekday is the one it falls on, from Sunday 0. */
  ghost predicate IsSecond(c: Calendar, sec: nat) {
    ValidCalendar(c) && c.date.y >= 1970 && PosixSeconds(c) == sec && c.wd == (sec / 86400 + 4) % 7
  }

  lemma FieldsMean(c: Calendar, sec: nat)
    requires c == Truncated(CalendarAt(sec))
    ensures CalendarAt(sec).date.y < 0x1_0000_0000 ==> IsSecond(c, sec)
  {
    CalendarIsPosix(sec);
    WeekdayIs(sec);
    hide CalendarAt, PosixSeconds, ValidCalendar;
    if CalendarAt(sec).date.y < 0x1_0000_0000 {
      SmallRemainder(CalendarAt(sec).date.y, U32);
      assert c == CalendarAt(sec);
    }
  }

  const YEAR_PORT: nat := 0x1_0000

  lemma WrappedSum(a: nat, b: nat)
    ensures (a % U64 + b) % U64 == (a + b) % U64
  {
  }

  lemma WrappedYear(a: nat, b: nat)
    ensures (a % U32 + b) % U32 == (a + b) % U32
  {
  }

  lemma PortShowsLowBits(y: nat)
    ensures y % U32 % YEAR_PORT == y % YEAR_PORT
    ensures y % U32 % YEAR_PORT == y <==> y < YEAR_PORT
  {
  }

  lemma SmallRemainder(a: nat, m: nat)
    requires a < m
    ensures a % m == a
  {
  }

  class Clock {
    const nsPerPeriod: nat
    const base: nat
    var ns: nat
    var lastSec: nat
    var y: nat
    var mo: nat
    var d: nat
    var h: nat
    var mi: nat
    var s: nat
    var wd: nat
    ghost var edges: nat
    /** Nanoseconds of the edges so far, unbounded. */
    ghost var elapsed: nat

    function Fields(): Calendar
      reads this
    {
      Calendar(Date(y, mo, d), h, mi, s, wd)
    }

    /** The second the clock has reached, in 64-bit arithmetic. */
    function Second(): nat
      reads this
    {
      (base + ns / NS) % U64
    }

    ghost predicate Valid()
      reads this
    {
      && nsPerPeriod >= 1 && base < U64 && elapsed == edges * nsPerPeriod && ns == elapsed % U64
      && (lastSec == U64 - 1 || Fields() == Truncated(CalendarAt(lastSec)))
      && (edges > 0 ==> lastSec == Second())
    }

    constructor (nsPerPeriod: nat, base: nat)
      requires nsPerPeriod >= 1 && base < U64
      ensures Valid() && edges == 0 && this.nsPerPeriod == nsPerPeriod && this.base == base
    {
      this.nsPerPeriod := nsPerPeriod;
      this.base := base;
      ns, lastSec := 0, U64 - 1;
      y, mo, d, h, mi, s, wd := 0, 0, 0, 0, 0, 0, 0;
      edges, elapsed := 0, 0;
    }

    /** One rising clock edge. */
    method Edge()
      requires Valid()
      modifies this
      ensures Valid() && edges == old(edges) + 1
    {
      hide CalendarAt, Truncated;
      ns := (ns + nsPerPeriod) % U64;
      assert (edges + 1) * nsPerPeriod == edges * nsPerPeriod + nsPerPeriod;
      WrappedSum(elapsed, nsPerPeriod);
      edges, elapsed := edges + 1, elapsed + nsPerPeriod;
      var sec := (base + ns / NS) % U64;
      if sec != lastSec {
        lastSec := sec;
        Convert(sec);
      }
    }

    /** The date arithmetic on the registers. */
    method Convert(sec: nat)
      modifies this`y, this`mo, this`d, this`h, this`mi, this`s, this`wd
      ensures Fields() == Truncated(CalendarAt(sec))
    {
      var z := sec / DAY;
      var rem := sec % DAY;
      h := rem / 3600;
      mi := (rem / 60) % 60;
      s := rem % 60;
      wd := (z + 4) % 7;
      ConvertDate(z);
    }

    method ConvertDate(z: nat)
      modifies this`y, this`mo, this`d
      ensures Date(y, mo, d) == CivilFromDays(z).(y := CivilFromDays(z).y % U32)
    {
      hide CivilFromDays;
      var n := z + SHIFT;
      var era := n / ERA;
      var doe := n - era * ERA;
      YearOfEraBounds(doe);
      var yoe := (doe - doe / 1460 + doe / 36524 - doe / 146096) / 365;
      var year := (yoe + era * 400) % U32;
      var doy := doe - (365 * yoe + yoe / 4 - yoe / 100);
      var mp := (5 * doy + 2) / 153;
      CivilByYear(z, era, doe, yoe);
      d := doy - (153 * mp + 2) / 5 + 1;
      mo := if mp < 10 then mp + 3 else mp - 9;
      y := (year + (if mo <= 2 then 1 else 0)) % U32;
      WrappedYear(yoe + era * 400, if mo <= 2 then 1 else 0);
    }

    /** Main result: after k edges from the start the fields show base plus the whole seconds of k periods, with no
        drift; the 16-bit year port is right exactly while the year is below 65536. */
    lemma NoDrift()
      requires Valid() && edges > 0
      requires edges * nsPerPeriod < 0x1_0000_0000_0000_0000
      requires base + edges * nsPerPeriod / 1_000_000_000 < 0xFFFF_FFFF_FFFF_FFFF
      ensures Fields() == Truncated(CalendarAt(base + edges * nsPerPeriod / NS))
      ensures var t := CalendarAt(base + edges * nsPerPeriod / NS);
        t.date.y < 0x1_0000_0000 ==> IsSecond(Fields(), base + edges * nsPerPeriod / 1_000_000_000)
      ensures Fields().date.y % YEAR_PORT == CalendarAt(base + edges * nsPerPeriod / NS).date.y <==>
        CalendarAt(base + edges * nsPerPeriod / NS).date.y < YEAR_PORT
    {
      hide CalendarAt, IsSecond, Truncated;
      YearIs(CalendarAt(base + elapsed / NS));
      SmallRemainder(elapsed, U64);
      SmallRemainder(base + elapsed / NS, U64);
      PortShowsLowBits(CalendarAt(base + elapsed / NS).date.y);
      FieldsMean(Fields(), base + elapsed / NS);
    }
  }
}
