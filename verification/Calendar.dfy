/**
 ngx_gmtime: broken-down time from seconds since 1970, against the Gregorian calendar counted
 year by year and month by month.
 */
module Calendar {

  datatype Date = Date(year: nat, month: nat, day: nat)
  datatype Tm = Tm(date: Date, hour: nat, min: nat, sec: nat, wday: nat)

  // -------------------------------------------------------------- the calendar itself

  predicate Leap(y: nat) { y % 4 == 0 && (y % 100 != 0 || y % 400 == 0) }

  function LeapDay(y: nat): nat { if Leap(y) then 1 else 0 }

  function MonthLength(y: nat, m: nat): nat {
    if m == 2 then 28 + LeapDay(y) else if m == 4 || m == 6 || m == 9 || m == 11 then 30 else 31
  }

  /** Days of the months of year `y` before month `m`. */
  function MonthStart(y: nat, m: nat): nat {
    if m <= 1 then 0 else MonthStart(y, m - 1) + MonthLength(y, m - 1)
  }

  /** Days of all years before `y`, from year 0 on. */
  function YearStart(y: nat): nat {
    if y == 0 then 0 else YearStart(y - 1) + 365 + LeapDay(y - 1)
  }

  predicate IsDate(d: Date) { 1 <= d.month <= 12 && 1 <= d.day <= MonthLength(d.year, d.month) }

  /** Days from January 1, 1970 to the date. */
  function DayCount(d: Date): int {
    YearStart(d.year) + MonthStart(d.year, d.month) + d.day - 1 - YearStart(1970)
  }

  predicate Earlier(a: Date, b: Date) {
    a.year < b.year || (a.year == b.year && (a.month < b.month || (a.month == b.month && a.day < b.day)))
  }

  lemma {:induction false} MonthStartGrows(y: nat, m: nat, n: nat)
    requires 1 <= m < n
    ensures MonthStart(y, m) + MonthLength(y, m) <= MonthStart(y, n)
    decreases n
  {
    if m < n - 1 { MonthStartGrows(y, m, n - 1); }
  }

  lemma MonthTable(y: nat)
    ensures MonthStart(y, 1) == 0 && MonthStart(y, 2) == 31 && MonthStart(y, 3) == 59 + LeapDay(y)
    ensures MonthStart(y, 4) == 90 + LeapDay(y) && MonthStart(y, 5) == 120 + LeapDay(y) && MonthStart(y, 6) == 151 + LeapDay(y)
    ensures MonthStart(y, 7) == 181 + LeapDay(y) && MonthStart(y, 8) == 212 + LeapDay(y) && MonthStart(y, 9) == 243 + LeapDay(y)
    ensures MonthStart(y, 10) == 273 + LeapDay(y) && MonthStart(y, 11) == 304 + LeapDay(y) && MonthStart(y, 12) == 334 + LeapDay(y)
    ensures MonthStart(y, 13) == 365 + LeapDay(y)
  {
    assert MonthStart(y, 2) == MonthStart(y, 1) + 31;
    assert MonthStart(y, 3) == MonthStart(y, 2) + 28 + LeapDay(y);
    assert MonthStart(y, 4) == MonthStart(y, 3) + 31;
    assert MonthStart(y, 5) == MonthStart(y, 4) + 30;
    assert MonthStart(y, 6) == MonthStart(y, 5) + 31;
    assert MonthStart(y, 7) == MonthStart(y, 6) + 30;
    assert MonthStart(y, 8) == MonthStart(y, 7) + 31;
    assert MonthStart(y, 9) == MonthStart(y, 8) + 31;
    assert MonthStart(y, 10) == MonthStart(y, 9) + 30;
    assert MonthStart(y, 11) == MonthStart(y, 10) + 31;
    assert MonthStart(y, 12) == MonthStart(y, 11) + 30;
    assert MonthStart(y, 13) == MonthStart(y, 12) + 31;
  }

  lemma {:induction false} YearStartGrows(a: nat, b: nat)
    requires a < b
    ensures YearStart(a) + 365 + LeapDay(a) <= YearStart(b)
    decreases b
  {
    if a < b - 1 { YearStartGrows(a, b - 1); }
  }

  /** Later dates have larger day counts, so a day count determines its date. */
  lemma CountOrdersDates(a: Date, b: Date)
    requires IsDate(a) && IsDate(b) && Earlier(a, b)
    ensures DayCount(a) < DayCount(b)
  {
    if a.year < b.year {
      YearStartGrows(a.year, b.year);
      MonthTable(a.year);
      MonthStartGrows(a.year, a.month, 13);
    } else if a.month < b.month {
      MonthStartGrows(a.year, a.month, b.month);
    }
  }

  lemma CountDeterminesDate(a: Date, b: Date)
    requires IsDate(a) && IsDate(b) && DayCount(a) == DayCount(b)
    ensures a == b
  {
    if Earlier(a, b) { CountOrdersDates(a, b); }
    if Earlier(b, a) { CountOrdersDates(b, a); }
  }

  // ------------------------------------------------------------------- the algorithm

  /** Days from March 1 of year 0 to March 1 of year `y`, by Gauss' formula. */
  function MarchStart(y: nat): int { 365 * y + y / 4 - y / 100 + y / 400 }

  function YearEstimate(days: nat): nat { (days + 2) * 400 / (365 * 400 + 100 - 4 + 1) }

  /** Lines 309-327: the year that began last March 1, and the day in it. */
  function YearAndDay(days: nat): (int, int) {
    var year := YearEstimate(days);
    var yday := days - MarchStart(year);
    if yday < 0 then (year - 1, 365 + LeapDay(year) + yday) else (year, yday)
  }

  /** Lines 336-340: month and day for a day of the year that begins in March, January being month 11. */
  function MonthOf(yday: int): int { (yday + 31) * 10 / 306 }

  function DayOf(yday: int): int { yday - (367 * MonthOf(yday) / 12 - 30) + 1 }

  /** Lines 309-363: the date `days` days after January 1, 1970. */
  function DateOf(days: nat): Date {
    var (year, yday) := YearAndDay(days - (31 + 28) + 719527);
    var mon, mday := MonthOf(yday), DayOf(yday);
    if yday >= 306 then Date(Nat(year + 1), Nat(mon - 10), Nat(mday)) else Date(Nat(year), Nat(mon + 2), Nat(mday))
  }

  function GmTime(t: nat): Tm {
    var days := t / 86400;
    var n := t % 86400;
    Tm(DateOf(days), n / 3600, n % 3600 / 60, n % 3600 % 60, (4 + days) % 7)
  }

  /** Only used on numbers that are shown not to be negative. */
  function Nat(x: int): nat { if x < 0 then 0 else x }

  /** Gauss' formula stays close to the mean year. */
  lemma Drift(y: nat)
    ensures -699 <= 400 * MarchStart(y) - 146097 * y <= 396
  {
    assert y == 4 * (y / 4) + y % 4 && y == 100 * (y / 100) + y % 100 && y == 400 * (y / 400) + y % 400;
  }

  lemma MarchStep(y: nat)
    ensures MarchStart(y + 1) == MarchStart(y) + 365 + LeapDay(y + 1)
  {
    assert (y + 1) / 4 == y / 4 + if (y + 1) % 4 == 0 then 1 else 0;
    assert (y + 1) / 100 == y / 100 + if (y + 1) % 100 == 0 then 1 else 0;
    assert (y + 1) / 400 == y / 400 + if (y + 1) % 400 == 0 then 1 else 0;
  }

  /** The estimate is the right year or the one after it, and the correction repairs it. */
  lemma YearIsRight(days: nat)
    ensures var (y, d) := YearAndDay(days);
      y >= 0 && 0 <= d < 365 + LeapDay(y + 1) && MarchStart(y) + d == days
    ensures var (y, d) := YearAndDay(days); y <= YearEstimate(days) <= y + 1
  {
    var year := YearEstimate(days);
    Drift(year);
    Drift(year + 1);
    MarchStep(year);
    if days < MarchStart(year) {
      assert year > 0;
      MarchStep(year - 1);
    }
  }

  lemma {:induction false} YearStartFormula(y: nat)
    ensures YearStart(y) + LeapDay(y) == MarchStart(y) + 1
  {
    if y > 0 {
      YearStartFormula(y - 1);
      MarchStep(y - 1);
    }
  }

  /** The month formula, counting months from March, gives a legal day of the month. */
  lemma MonthIsRight(year: nat, yday: nat)
    requires yday < 365 + LeapDay(year + 1)
    ensures var m, d := MonthOf(yday), DayOf(yday);
      && 1 <= m <= 12 && (m >= 11 <==> yday >= 306)
      && if m <= 10 then 1 <= d <= MonthLength(year, m + 2) && MonthStart(year, m + 2) + d - 1 == 59 + LeapDay(year) + yday
         else 1 <= d <= MonthLength(year + 1, m - 10) && MonthStart(year + 1, m - 10) + d - 1 == yday - 306
  {
    MonthTable(year);
    MonthTable(year + 1);
    var m := MonthOf(yday);
    assert m == 1 || m == 2 || m == 3 || m == 4 || m == 5 || m == 6 || m == 7 || m == 8 || m == 9 || m == 10 || m == 11 || m == 12;
  }

  /** The result is the one date whose day count is that of the time, with the time of day and the day of the week. */
  lemma GmTimeIsRight(t: nat)
    ensures var r := GmTime(t);
      && IsDate(r.date) && DayCount(r.date) == t / 86400
      && (forall d | IsDate(d) && DayCount(d) == t / 86400 :: d == r.date)
      && r.hour < 24 && r.min < 60 && r.sec < 60 && r.wday < 7
      && t == DayCount(r.date) * 86400 + r.hour * 3600 + r.min * 60 + r.sec
      && (r.wday - 4 - DayCount(r.date)) % 7 == 0
  {
    hide DateOf, DayCount;
    var r, n := GmTime(t), t % 86400;
    DateIsRight(t / 86400);
    Clock(n);
    forall d | IsDate(d) && DayCount(d) == t / 86400 ensures d == r.date { CountDeterminesDate(d, r.date); }
  }

  lemma Clock(n: nat)
    requires n < 86400
    ensures n / 3600 < 24 && n % 3600 / 60 < 60 && n == n / 3600 * 3600 + n % 3600 / 60 * 60 + n % 3600 % 60
  {
  }

  lemma DateIsRight(days: nat)
    ensures IsDate(DateOf(days)) && DayCount(DateOf(days)) == days
  {
    hide YearAndDay, MonthStart, MonthLength, YearStart, MonthOf, DayOf;
    var (year, yday) := YearAndDay(days + 719468);
    YearIsRight(days + 719468);
    MonthIsRight(year, yday);
    YearStartFormula(year);
    YearStartFormula(year + 1);
    YearStartFormula(1970);
    MarchStep(year);
    assert MarchStart(1970) == 719527 && !Leap(1970);
  }

  predicate Before(a: Tm, b: Tm) {
    Earlier(a.date, b.date) ||
    (a.date == b.date && (a.hour < b.hour || (a.hour == b.hour && (a.min < b.min || (a.min == b.min && a.sec < b.sec)))))
  }

  /** Later times come out later. */
  lemma GmTimeIncreases(t: nat, u: nat)
    requires t < u
    ensures Before(GmTime(t), GmTime(u))
  {
    hide GmTime;
    GmTimeIsRight(t);
    GmTimeIsRight(u);
    var a, b := GmTime(t), GmTime(u);
    if Earlier(b.date, a.date) { CountOrdersDates(b.date, a.date); }
  }
}
