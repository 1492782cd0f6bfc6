/** The calendar apart from its tables: what one second, one day and one month later it reads. */
module CalendarLaws {
  import opened Calendar

  /** How long a month is, 1 for January. */
  function LengthOf(year: int, month: int): int
    requires 1 <= month <= 12
  {
    if month == 4 || month == 6 || month == 9 || month == 11 then 30
    else if month != 2 then 31
    else if year % 400 == 0 || (year % 4 == 0 && year % 100 != 0) then 29
    else 28
  }

  lemma MonthIsAsLong(year: int, month: int)
    requires 1 <= month <= 12
    ensures DaysInMonth(month - 1, IsLeap(year)) == LengthOf(year, month)
  {
    CenturiesAreFourths(year);
  }

  /** The first of the next month is as many days later, in every year. */
  lemma MonthLengths(year: int, month: int)
    requires 1 <= month <= 12
    ensures MakeDay(year, month, 1) - MakeDay(year, month - 1, 1) == LengthOf(year, month)
  {
    MonthIsAsLong(year, month);
    hide DayFromYear, IsLeap;
    MonthInYear(year, month - 1, 1);
    if month == 12 {
      YearLength(year);
      FirstOfNextYear(year);
    } else {
      MonthInYear(year, month, 1);
    }
  }

  lemma MonthInYear(year: int, month: int, date: int)
    requires 0 <= month < 12
    ensures MakeDay(year, month, date) == DayFromYear(year) + DaysBefore(month, IsLeap(year)) + date - 1
  {
    hide DayFromYear, IsLeap, DaysBefore;
    assert month / 12 == 0 && month % 12 == month;
  }

  lemma FirstOfNextYear(year: int)
    ensures MakeDay(year, 12, 1) == DayFromYear(year + 1)
  {
    hide DayFromYear, IsLeap;
  }

  /** The same in milliseconds of `Date.UTC`, and so for days, hours, minutes and seconds. */
  lemma UtcCounts(year: int, month: int, date: int, hour: int, minute: int, second: int)
    requires year >= 100
    ensures var t := DateUTC(year, month, date, hour, minute, second);
            && DateUTC(year, month, date + 1, hour, minute, second) - t == 86_400_000
            && DateUTC(year, month, date, hour + 1, minute, second) - t == 3_600_000
            && DateUTC(year, month, date, hour, minute + 1, second) - t == 60_000
            && DateUTC(year, month, date, hour, minute, second + 1) - t == 1000
    ensures 0 <= month < 12 ==>
              DateUTC(year, month + 1, 1, hour, minute, second) - DateUTC(year, month, 1, hour, minute, second)
              == LengthOf(year, month + 1) * 86_400_000
  {
    NextDate(year, month, date);
    if 0 <= month < 12 {
      MonthLengths(year, month + 1);
    }
    hide MakeDay, LengthOf;
  }

  lemma NextDate(year: int, month: int, date: int)
    ensures MakeDay(year, month, date + 1) == MakeDay(year, month, date) + 1
  {
    hide DayFromYear, IsLeap, DaysBefore;
  }

  lemma JanuaryIsLong(p: Parts)
    requires p.month == 1
    ensures DaysInMonth(p.month - 1, IsLeap(p.year)) == 31
  {
    hide IsLeap;
  }

  /** The epoch is midnight on 1 January 1970. */
  lemma EpochReads(p: Parts)
    requires p == Parts(1970, 1, 1, 0, 0, 0)
    ensures PartsOf(0) == p && DateUTC(p.year, p.month - 1, p.day, p.hour, p.minute, p.second) == 0
  {
    hide MakeDay, DayFromYear, MakeSeconds, PartsOf, DaysInMonth, DaysBefore, IsLeap, SecondsOf, DateOfDay, YearOf,
         Fourths, Hundredths, FourHundredths, InYear, MonthOf;
    EpochDay();
    JanuaryIsLong(p);
    ClockOf(p, 0);
    NoTimeOfDay();
  }

  lemma NoTimeOfDay()
    ensures MakeSeconds(0, 0, 0) == 0
  {
  }

  // ---------------------------------------------------------------------------------------
  // The ticking clock.

  /** What a calendar and a clock read one second later. */
  function Tick(p: Parts): Parts
    requires 1 <= p.month <= 12
  {
    if p.second < 59 then p.(second := p.second + 1)
    else if p.minute < 59 then p.(minute := p.minute + 1, second := 0)
    else if p.hour < 23 then p.(hour := p.hour + 1, minute := 0, second := 0)
    else if p.day < LengthOf(p.year, p.month) then Parts(p.year, p.month, p.day + 1, 0, 0, 0)
    else if p.month < 12 then Parts(p.year, p.month + 1, 1, 0, 0, 0)
    else Parts(p.year + 1, 1, 1, 0, 0, 0)
  }

  lemma TickIsDateTime(p: Parts)
    requires IsDateTime(p)
    ensures IsDateTime(Tick(p))
  {
    var q := Tick(p);
    MonthIsAsLong(p.year, p.month);
    MonthIsAsLong(q.year, q.month);
    hide DaysInMonth, IsLeap;
  }

  lemma TickIsASecond(p: Parts)
    requires IsDateTime(p)
    ensures SecondsOf(Tick(p)) == SecondsOf(p) + 1
  {
    hide MakeDay, MakeSeconds, DaysInMonth, IsLeap, LengthOf, Tick;
    if p.hour == 23 && p.minute == 59 && p.second == 59 {
      MidnightIsNextDay(p);
      LastSecond();
      NoTimeOfDay();
    } else {
      TickWithinDay(p);
    }
  }

  lemma LastSecond()
    ensures MakeSeconds(23, 59, 59) == 86_399
  {
  }

  lemma TickWithinDay(p: Parts)
    requires IsDateTime(p) && !(p.hour == 23 && p.minute == 59 && p.second == 59)
    ensures var q := Tick(p);
            && q.year == p.year && q.month == p.month && q.day == p.day
            && MakeSeconds(q.hour, q.minute, q.second) == MakeSeconds(p.hour, p.minute, p.second) + 1
  {
    hide DaysInMonth, IsLeap, LengthOf;
  }

  lemma MidnightIsNextDay(p: Parts)
    requires IsDateTime(p) && p.hour == 23 && p.minute == 59 && p.second == 59
    ensures var q := Tick(p);
            q.hour == 0 && q.minute == 0 && q.second == 0
            && MakeDay(q.year, q.month - 1, q.day) == MakeDay(p.year, p.month - 1, p.day) + 1
  {
    hide MakeDay, DaysInMonth, IsLeap, DayFromYear, LengthOf, DaysBefore;
    MonthIsAsLong(p.year, p.month);
    DaysCount(p.year, p.month - 1, p.day);
    DaysCount(p.year, p.month - 1, p.day + 1);
    MonthLengths(p.year, p.month);
    FirstOfNextYear(p.year);
    MonthInYear(p.year + 1, 0, 1);
    NothingBefore(IsLeap(p.year + 1));
  }

  lemma NothingBefore(leap: bool)
    ensures DaysBefore(0, leap) == 0
  {
  }

  lemma DaysCount(year: int, month: int, date: int)
    ensures MakeDay(year, month, date) == MakeDay(year, month, 1) + date - 1
  {
    hide DayFromYear, IsLeap, DaysBefore;
  }

  /** From 1970-01-01 00:00:00 at 0 on, the calendar ticks: this is all there is to say about it. */
  lemma ClockTicks(seconds: int)
    ensures PartsOf(seconds + 1) == Tick(PartsOf(seconds))
  {
    hide PartsOf, SecondsOf;
    var p := PartsOf(seconds);
    SecondsOfParts(seconds);
    TickIsDateTime(p);
    TickIsASecond(p);
    PartsOfSeconds(Tick(p));
  }
}
