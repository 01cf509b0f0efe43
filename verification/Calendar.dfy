/**
  The proleptic Gregorian calendar behind Go's `time` package, under a fixed offset.
  Days are numbered from 1 January of year 1 and months from `12 * year`.
 */
module Calendar {
  import opened Options
  import opened Waterfall
  import opened Buckets

  const DAY: int := 86_400 * SECOND

  predicate Leap(y: int) {
    y % 4 == 0 && (y % 100 != 0 || y % 400 == 0)
  }

  /** The day number of 1 January of year `y`. */
  function YearStart(y: int): int {
    365 * (y - 1) + (y - 1) / 4 - (y - 1) / 100 + (y - 1) / 400
  }

  function YearLength(y: int): int {
    if Leap(y) then 366 else 365
  }

  lemma DivisionSteps(y: int, d: int)
    requires d == 4 || d == 100 || d == 400
    ensures y / d == (y - 1) / d + if y % d == 0 then 1 else 0
  {
  }

  lemma LeapDays(y: int)
    ensures (if y % 4 == 0 then 1 else 0) - (if y % 100 == 0 then 1 else 0) + (if y % 400 == 0 then 1 else 0)
         == YearLength(y) - 365
  {
  }

  lemma YearsAbut(y: int)
    ensures YearStart(y + 1) == YearStart(y) + YearLength(y)
  {
    LeapDays(y);
    hide YearLength;
    DivisionSteps(y, 4);
    DivisionSteps(y, 100);
    DivisionSteps(y, 400);
  }

  /** Days of the year before month `m`, counted from 0. */
  function DaysBefore(leap: bool, m: int): int {
    var l := if leap then 1 else 0;
    if m <= 0 then 0 else if m == 1 then 31
    else if m == 2 then 59 + l else if m == 3 then 90 + l else if m == 4 then 120 + l
    else if m == 5 then 151 + l else if m == 6 then 181 + l else if m == 7 then 212 + l
    else if m == 8 then 243 + l else if m == 9 then 273 + l else if m == 10 then 304 + l
    else if m == 11 then 334 + l else 365 + l
  }

  function MonthLength(k: int): int {
    DaysBefore(Leap(k / 12), k % 12 + 1) - DaysBefore(Leap(k / 12), k % 12)
  }

  /** The day number on which month `k` starts: month `k % 12` (from 0) of year `k / 12`. */
  function MonthStart(k: int): int {
    YearStart(k / 12) + DaysBefore(Leap(k / 12), k % 12)
  }

  lemma MonthsAbut(k: int)
    ensures MonthStart(k + 1) == MonthStart(k) + MonthLength(k)
    ensures 28 <= MonthLength(k) <= 31
  {
    if k % 12 == 11 {
      YearsAbut(k / 12);
      assert (k + 1) / 12 == k / 12 + 1 && (k + 1) % 12 == 0;
    } else {
      assert (k + 1) / 12 == k / 12 && (k + 1) % 12 == k % 12 + 1;
    }
  }

  /** The lengths of the months, as everyone learns them. */
  lemma MonthLengths(k: int)
    ensures k % 12 in {3, 5, 8, 10} ==> MonthLength(k) == 30
    ensures k % 12 in {0, 2, 4, 6, 7, 9, 11} ==> MonthLength(k) == 31
    ensures k % 12 == 1 ==> MonthLength(k) == if Leap(k / 12) then 29 else 28
  {
  }

  lemma {:induction false} MonthStartsIncrease(j: int, k: int)
    requires j < k
    ensures MonthStart(j) + MonthLength(j) <= MonthStart(k)
    decreases k - j
  {
    hide MonthStart, MonthLength;
    MonthsAbut(j);
    if j + 1 < k {
      MonthsAbut(j + 1);
      MonthStartsIncrease(j + 1, k);
    }
  }

  /** The year of a day: whole 400-, 100-, 4- and 1-year cycles since year 1. */
  function YearOf(day: int): int {
    var c, r := day / 146_097, day % 146_097;
    var h := if r / 36_524 < 4 then r / 36_524 else 3;
    var r' := r - 36_524 * h;
    var q := r' / 1_461;
    var r'' := r' - 1_461 * q;
    var n := if r'' / 365 < 4 then r'' / 365 else 3;
    400 * c + 100 * h + 4 * q + n + 1
  }

  lemma CycleYear(c: int, h: int, q: int, n: int)
    requires 0 <= h < 4 && 0 <= q < 25 && 0 <= n < 4
    ensures YearStart(400 * c + 100 * h + 4 * q + n + 1) == 146_097 * c + 36_524 * h + 1_461 * q + 365 * n
  {
    var y := 400 * c + 100 * h + 4 * q + n;
    assert y / 4 == 100 * c + 25 * h + q;
    assert y / 100 == 4 * c + h;
    assert y / 400 == c;
  }

  lemma CycleLeap(c: int, h: int, q: int, n: int)
    requires 0 <= h < 4 && 0 <= q < 25 && 0 <= n < 4
    ensures Leap(400 * c + 100 * h + 4 * q + n + 1) <==> n == 3 && (q < 24 || h == 3)
  {
  }

  lemma YearOfContains(day: int)
    ensures YearStart(YearOf(day)) <= day < YearStart(YearOf(day) + 1)
  {
    var c, r := day / 146_097, day % 146_097;
    var h := if r / 36_524 < 4 then r / 36_524 else 3;
    var r' := r - 36_524 * h;
    var q := r' / 1_461;
    var r'' := r' - 1_461 * q;
    var n := if r'' / 365 < 4 then r'' / 365 else 3;
    assert YearOf(day) == 400 * c + 100 * h + 4 * q + n + 1;
    hide YearOf, YearStart, Leap;
    CycleYear(c, h, q, n);
    CycleLeap(c, h, q, n);
    YearsAbut(YearOf(day));
  }

  /** The month of a day. */
  function MonthOf(day: int): int {
    var y := YearOf(day);
    12 * y + MonthInYear(day - YearStart(y), Leap(y))
  }

  /** The month of the year, from 0, of the day `d` of a year, from 0. */
  function MonthInYear(d: int, leap: bool): (m: int)
    ensures 0 <= m < 12
    ensures 0 <= d < DaysBefore(leap, 12) ==> DaysBefore(leap, m) <= d < DaysBefore(leap, m + 1)
  {
    if d < DaysBefore(leap, 1) then 0 else if d < DaysBefore(leap, 2) then 1
    else if d < DaysBefore(leap, 3) then 2 else if d < DaysBefore(leap, 4) then 3
    else if d < DaysBefore(leap, 5) then 4 else if d < DaysBefore(leap, 6) then 5
    else if d < DaysBefore(leap, 7) then 6 else if d < DaysBefore(leap, 8) then 7
    else if d < DaysBefore(leap, 9) then 8 else if d < DaysBefore(leap, 10) then 9
    else if d < DaysBefore(leap, 11) then 10 else 11
  }

  /** A day lies in its month, and in no other. */
  lemma MonthOfContains(day: int)
    ensures MonthStart(MonthOf(day)) <= day < MonthStart(MonthOf(day)) + MonthLength(MonthOf(day))
  {
    YearOfContains(day);
    YearsAbut(YearOf(day));
    hide YearOf, YearStart, Leap, MonthInYear, DaysBefore;
    var y := YearOf(day);
    var m := MonthInYear(day - YearStart(y), Leap(y));
    assert MonthOf(day) / 12 == y && MonthOf(day) % 12 == m;
    assert DaysBefore(Leap(y), 12) == YearLength(y) by { YearInDays(y); }
  }

  lemma YearInDays(y: int)
    ensures DaysBefore(Leap(y), 12) == YearLength(y)
  {
  }

  lemma MonthOfIsUnique(day: int, k: int)
    requires MonthStart(k) <= day < MonthStart(k) + MonthLength(k)
    ensures MonthOf(day) == k
  {
    MonthOfContains(day);
    if MonthOf(day) < k {
      MonthStartsIncrease(MonthOf(day), k);
    } else if k < MonthOf(day) {
      MonthStartsIncrease(k, MonthOf(day));
    }
  }

  // ----- instants and dates in a location

  /** A fixed offset east of UTC in seconds; a nil location is UTC. */
  function Offset(loc: Option<int>): int {
    if loc.Some? then loc.value * SECOND else 0
  }

  /** The day on which `t` falls in `loc`. */
  function LocalDay(t: Instant, loc: Option<int>): int {
    (t + Offset(loc)) / DAY
  }

  function Year(t: Instant, loc: Option<int>): int {
    MonthOf(LocalDay(t, loc)) / 12
  }

  /** The month of the year, from 1. */
  function Month(t: Instant, loc: Option<int>): int {
    MonthOf(LocalDay(t, loc)) % 12 + 1
  }

  /** The day of the month, from 1. */
  function DayOfMonth(t: Instant, loc: Option<int>): int {
    LocalDay(t, loc) - MonthStart(MonthOf(LocalDay(t, loc))) + 1
  }

  /** `time.Date` at local midnight: months and days outside their range are carried over. */
  function Date(year: int, month: int, day: int, loc: Option<int>): Instant {
    (MonthStart(12 * year + month - 1) + day - 1) * DAY - Offset(loc)
  }

  /** `AddDate` for months and days: the date moves, the time of day stays. */
  function AddDate(t: Instant, months: int, days: int, loc: Option<int>): Instant {
    Date(Year(t, loc), Month(t, loc) + months, DayOfMonth(t, loc) + days, loc) + (t + Offset(loc)) % DAY
  }

  lemma DateIsLocalDay(year: int, month: int, day: int, loc: Option<int>)
    ensures LocalDay(Date(year, month, day, loc), loc) == MonthStart(12 * year + month - 1) + day - 1
  {
  }

  /** Reading a date's fields and building the date again gives back the local midnight. */
  lemma DateRoundTrip(t: Instant, loc: Option<int>, other: Option<int>)
    ensures 12 * Year(t, loc) + Month(t, loc) - 1 == MonthOf(LocalDay(t, loc))
    ensures 1 <= DayOfMonth(t, loc) <= MonthLength(MonthOf(LocalDay(t, loc)))
    ensures Date(Year(t, loc), Month(t, loc), DayOfMonth(t, loc), other) == LocalDay(t, loc) * DAY - Offset(other)
  {
    MonthOfContains(LocalDay(t, loc));
    hide MonthOf, MonthStart, MonthLength;
  }

  /** Under a fixed offset, adding days adds as many times 24 hours. */
  lemma AddDaysIsDuration(t: Instant, days: int, loc: Option<int>)
    ensures AddDate(t, 0, days, loc) == t + days * DAY
  {
    DateRoundTrip(t, loc, loc);
    hide MonthStart, MonthOf, MonthLength, Year, Month, DayOfMonth;
    var n := LocalDay(t, loc);
    assert AddDate(t, 0, days, loc) == (n + days) * DAY - Offset(loc) + (t + Offset(loc)) % DAY;
    assert (n + days) * DAY == n * DAY + days * DAY;
    assert n * DAY + (t + Offset(loc)) % DAY == t + Offset(loc);
  }
}
