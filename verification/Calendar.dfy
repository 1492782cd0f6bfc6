/** The proleptic Gregorian calendar of ECMA-262 (section 21.4.1) and `Date.UTC`. */
module Calendar {

  const SECONDS_PER_DAY := 86_400

  predicate IsLeap(year: int) {
    year % 4 == 0 && (year % 100 != 0 || year % 400 == 0)
  }

  function Fourths(year: int): int {
    (year - 1969) / 4
  }

  function Hundredths(year: int): int {
    (year - 1901) / 100
  }

  function FourHundredths(year: int): int {
    (year - 1601) / 400
  }

  /** The day number of 1 January. */
  function DayFromYear(year: int): int {
    365 * (year - 1970) + Fourths(year) - Hundredths(year) + FourHundredths(year)
  }

  function DaysInYear(year: int): int {
    if IsLeap(year) then 366 else 365
  }

  lemma YearLength(year: int)
    ensures DayFromYear(year + 1) == DayFromYear(year) + DaysInYear(year)
  {
    hide Fourths, Hundredths, FourHundredths;
    FourthsStep(year);
    HundredthsStep(year);
    FourHundredthsStep(year);
    CenturiesAreFourths(year);
  }

  lemma FourthsStep(year: int)
    ensures Fourths(year + 1) == Fourths(year) + if year % 4 == 0 then 1 else 0
  {
  }

  lemma HundredthsStep(year: int)
    ensures Hundredths(year + 1) == Hundredths(year) + if year % 100 == 0 then 1 else 0
  {
  }

  lemma FourHundredthsStep(year: int)
    ensures FourHundredths(year + 1) == FourHundredths(year) + if year % 400 == 0 then 1 else 0
  {
  }

  lemma CenturiesAreFourths(year: int)
    ensures (year % 400 == 0 ==> year % 100 == 0) && (year % 100 == 0 ==> year % 4 == 0)
  {
    if year % 400 == 0 {
      HundredTimes(4 * (year / 400));
    }
    if year % 100 == 0 {
      FourTimes(25 * (year / 100));
    }
  }

  lemma HundredTimes(n: int)
    ensures 100 * n % 100 == 0
  {
  }

  lemma FourTimes(n: int)
    ensures 4 * n % 4 == 0
  {
  }

  lemma {:induction false} YearsGrow(a: int, b: int)
    requires a <= b
    ensures DayFromYear(a) + 365 * (b - a) <= DayFromYear(b)
    decreases b - a
  {
    if a < b {
      YearsGrow(a, b - 1);
      YearLength(b - 1);
    }
  }

  predicate InYear(day: int, year: int) {
    DayFromYear(year) <= day < DayFromYear(year + 1)
  }

  function YearUp(day: int, year: int): (y: int)
    requires DayFromYear(year) <= day
    ensures InYear(day, y)
    decreases day - DayFromYear(year)
  {
    YearLength(year);
    if day < DayFromYear(year + 1) then year else YearUp(day, year + 1)
  }

  function YearDown(day: int, year: int): (y: int)
    requires day < DayFromYear(year + 1)
    ensures InYear(day, y)
    decreases DayFromYear(year + 1) - day
  {
    YearLength(year);
    if DayFromYear(year) <= day then year else YearDown(day, year - 1)
  }

  /** YearFromTime: the year that a day falls in. */
  function YearOf(day: int): (y: int)
    ensures InYear(day, y)
  {
    if DayFromYear(1970) <= day then YearUp(day, 1970) else YearDown(day, 1970)
  }

  lemma YearIsUnique(day: int, a: int, b: int)
    requires InYear(day, a) && InYear(day, b)
    ensures a == b
  {
    if a < b {
      YearsGrow(a + 1, b);
    } else if b < a {
      YearsGrow(b + 1, a);
    }
  }

  /** Days of the year before a month, counted from 0 for January to 12 for the end of the year. */
  function DaysBefore(month: int, leap: bool): int
    requires 0 <= month <= 12
  {
    [0, 31, 59, 90, 120, 151, 181, 212, 243, 273, 304, 334, 365][month] + if leap && month >= 2 then 1 else 0
  }

  function DaysInMonth(month: int, leap: bool): int
    requires 0 <= month < 12
  {
    DaysBefore(month + 1, leap) - DaysBefore(month, leap)
  }

  /** MonthFromTime, 0 for January. */
  function MonthOf(dayInYear: int, leap: bool): (m: int)
    requires 0 <= dayInYear < (if leap then 366 else 365)
    ensures 0 <= m < 12 && DaysBefore(m, leap) <= dayInYear < DaysBefore(m + 1, leap)
  {
    var l := if leap then 1 else 0;
    if dayInYear < 31 then 0
    else if dayInYear < 59 + l then 1
    else if dayInYear < 90 + l then 2
    else if dayInYear < 120 + l then 3
    else if dayInYear < 151 + l then 4
    else if dayInYear < 181 + l then 5
    else if dayInYear < 212 + l then 6
    else if dayInYear < 243 + l then 7
    else if dayInYear < 273 + l then 8
    else if dayInYear < 304 + l then 9
    else if dayInYear < 334 + l then 10
    else 11
  }

  lemma MonthIsUnique(dayInYear: int, leap: bool, a: int, b: int)
    requires 0 <= a < 12 && DaysBefore(a, leap) <= dayInYear < DaysBefore(a + 1, leap)
    requires 0 <= b < 12 && DaysBefore(b, leap) <= dayInYear < DaysBefore(b + 1, leap)
    ensures a == b
  {
  }

  /** A wall clock: `month` is 1 for January. */
  datatype Parts = Parts(year: int, month: int, day: int, hour: int, minute: int, second: int)

  /** What a calendar can show. */
  predicate IsDateTime(p: Parts) {
    && 1 <= p.month <= 12
    && 1 <= p.day <= DaysInMonth(p.month - 1, IsLeap(p.year))
    && 0 <= p.hour < 24
    && 0 <= p.minute < 60
    && 0 <= p.second < 60
  }

  /** The calendar date of a day number. */
  function DateOfDay(day: int): (p: Parts)
    ensures IsDateTime(p) && p.hour == 0 && p.minute == 0 && p.second == 0
    ensures InYear(day, p.year)
  {
    var year := YearOf(day);
    YearLength(year);
    var inYear := day - DayFromYear(year);
    var month := MonthOf(inYear, IsLeap(year));
    Parts(year, month + 1, inYear - DaysBefore(month, IsLeap(year)) + 1, 0, 0, 0)
  }

  /** The date and time of a number of seconds since the epoch. */
  function PartsOf(seconds: int): (p: Parts)
    ensures IsDateTime(p)
  {
    var time := seconds % SECONDS_PER_DAY;
    var date := DateOfDay(seconds / SECONDS_PER_DAY);
    date.(hour := time / 3600, minute := time / 60 % 60, second := time % 60)
  }

  /** MakeDay: months may overflow into years, and dates into months. `month` is 0 for January. */
  function MakeDay(year: int, month: int, date: int): int {
    var y := year + month / 12;
    DayFromYear(y) + DaysBefore(month % 12, IsLeap(y)) + date - 1
  }

  function MakeSeconds(hour: int, minute: int, second: int): int {
    hour * 3600 + minute * 60 + second
  }

  /** `Date.UTC(year, month, date, hour, minute, second)` in milliseconds; `month` is 0 for January,
      and a year from 0 to 99 stands for one of the twentieth century. */
  function DateUTC(year: int, month: int, date: int, hour: int, minute: int, second: int): int {
    var y := if 0 <= year <= 99 then 1900 + year else year;
    (MakeDay(y, month, date) * SECONDS_PER_DAY + MakeSeconds(hour, minute, second)) * 1000
  }

  /** The seconds since the epoch that a wall clock reads in UTC. */
  function SecondsOf(p: Parts): int {
    MakeDay(p.year, p.month - 1, p.day) * SECONDS_PER_DAY + MakeSeconds(p.hour, p.minute, p.second)
  }

  lemma DayOfDate(day: int)
    ensures var p := DateOfDay(day); MakeDay(p.year, p.month - 1, p.day) == day
  {
    hide MonthOf, YearOf, DayFromYear, IsLeap, DaysBefore;
  }

  lemma DateOfMakeDay(p: Parts)
    requires IsDateTime(p)
    ensures var q := DateOfDay(MakeDay(p.year, p.month - 1, p.day));
            q.year == p.year && q.month == p.month && q.day == p.day
  {
    hide MonthOf, YearOf, DayFromYear, IsLeap, DaysBefore;
    var leap := IsLeap(p.year);
    var day := MakeDay(p.year, p.month - 1, p.day);
    YearLength(p.year);
    MonthsFit(p.month - 1, leap);
    YearIsUnique(day, p.year, YearOf(day));
    var inYear := day - DayFromYear(p.year);
    MonthIsUnique(inYear, leap, p.month - 1, MonthOf(inYear, leap));
  }

  lemma MonthsFit(month: int, leap: bool)
    requires 0 <= month < 12
    ensures 0 <= DaysBefore(month, leap) < DaysBefore(month + 1, leap) <= if leap then 366 else 365
  {
  }

  lemma TimeOfDay(seconds: int)
    requires 0 <= seconds < SECONDS_PER_DAY
    ensures 0 <= seconds / 3600 < 24 && 0 <= seconds / 60 % 60 < 60 && 0 <= seconds % 60 < 60
    ensures MakeSeconds(seconds / 3600, seconds / 60 % 60, seconds % 60) == seconds
  {
  }

  lemma TimeIsUnique(hour: int, minute: int, second: int)
    requires 0 <= hour < 24 && 0 <= minute < 60 && 0 <= second < 60
    ensures var s := MakeSeconds(hour, minute, second);
            0 <= s < SECONDS_PER_DAY && s / 3600 == hour && s / 60 % 60 == minute && s % 60 == second
  {
    WholeHours(hour, minute * 60 + second);
    WholeMinutes(hour * 60 + minute, second);
    WholeMinutes(hour, minute);
  }

  lemma WholeHours(hours: int, rest: int)
    requires 0 <= rest < 3600
    ensures (hours * 3600 + rest) / 3600 == hours
  {
  }

  lemma WholeMinutes(minutes: int, rest: int)
    requires 0 <= rest < 60
    ensures (minutes * 60 + rest) / 60 == minutes && (minutes * 60 + rest) % 60 == rest
  {
  }

  /** Reading the calendar and counting the seconds back are inverse. */
  lemma SecondsOfParts(seconds: int)
    ensures SecondsOf(PartsOf(seconds)) == seconds
  {
    hide MakeSeconds, MakeDay;
    var day, time := seconds / SECONDS_PER_DAY, seconds % SECONDS_PER_DAY;
    DayOfDate(day);
    TimeOfDay(time);
  }

  lemma PartsOfSeconds(p: Parts)
    requires IsDateTime(p)
    ensures PartsOf(SecondsOf(p)) == p
  {
    hide MakeSeconds, MakeDay, DateOfDay;
    DateOfMakeDay(p);
    TimeIsUnique(p.hour, p.minute, p.second);
    var day, time := MakeDay(p.year, p.month - 1, p.day), MakeSeconds(p.hour, p.minute, p.second);
    DayAndTime(day, time);
  }

  lemma DayAndTime(day: int, time: int)
    requires 0 <= time < SECONDS_PER_DAY
    ensures (day * SECONDS_PER_DAY + time) / SECONDS_PER_DAY == day
    ensures (day * SECONDS_PER_DAY + time) % SECONDS_PER_DAY == time
  {
  }

  lemma EpochYear(year: int)
    requires year == 1970
    ensures DayFromYear(year) == 0
  {
  }

  lemma FirstOfYear(year: int)
    ensures MakeDay(year, 0, 1) == DayFromYear(year)
  {
    hide DayFromYear, IsLeap;
  }

  lemma EpochDay()
    ensures MakeDay(1970, 0, 1) == 0
  {
    hide MakeDay, DayFromYear;
    EpochYear(1970);
    FirstOfYear(1970);
  }

  lemma ClockOf(p: Parts, seconds: int)
    requires IsDateTime(p) && MakeDay(p.year, p.month - 1, p.day) * SECONDS_PER_DAY + p.hour * 3600 == seconds
    requires p.minute == 0 && p.second == 0
    ensures PartsOf(seconds) == p
  {
    hide MakeDay, PartsOf;
    PartsOfSeconds(p);
  }
}
