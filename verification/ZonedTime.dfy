/** `time.ts`: local dates and wall clocks of a time zone, and the instants they name. */
module ZonedTime {
  import opened Calendar

  /** A time zone: its UTC offset in seconds at an instant, an instant being milliseconds since the
      epoch. `Intl` knows it; here it is any function whatsoever. */
  type Zone = int -> int

  /** What the zone's clocks read, as seconds of a calendar. */
  function LocalSeconds(zone: Zone, instant: int): int {
    instant / 1000 + zone(instant)
  }

  /** The formatter writes no era: a year before 1 is shown as its number before Christ. */
  function Shown(p: Parts): Parts {
    p.(year := if p.year > 0 then p.year else 1 - p.year)
  }

  /** The clock of the zone at an instant. */
  function PartsIn(instant: int, zone: Zone): Parts {
    Shown(PartsOf(LocalSeconds(zone, instant)))
  }

  function OffsetMsAt(instant: int, zone: Zone): int {
    var p := PartsIn(instant, zone);
    DateUTC(p.year, p.month - 1, p.day, p.hour, p.minute, p.second) - instant / 1000 * 1000
  }

  function StartOfDayIn(instant: int, zone: Zone): int {
    var p := PartsIn(instant, zone);
    var localMidnightAsUtc := DateUTC(p.year, p.month - 1, p.day, 0, 0, 0);
    var firstGuess := localMidnightAsUtc - OffsetMsAt(instant, zone);
    localMidnightAsUtc - OffsetMsAt(firstGuess, zone)
  }

  function ZonedTimeToUtc(year: int, month: int, day: int, hour: int, minute: int, zone: Zone): int {
    var asIfUtc := DateUTC(year, month - 1, day, hour, minute, 0);
    var firstGuess := asIfUtc - OffsetMsAt(asIfUtc, zone);
    asIfUtc - OffsetMsAt(firstGuess, zone)
  }

  // ---------------------------------------------------------------------------------------
  // Reading the offset off a formatted clock.

  function LocalYear(zone: Zone, instant: int): int {
    PartsOf(LocalSeconds(zone, instant)).year
  }

  /** The year `Date.UTC` takes a year for. */
  function TakenFor(year: int): int {
    if 0 <= year <= 99 then 1900 + year else year
  }

  /** By how many seconds `Date.UTC` mistakes the date that a clock reading `local` shows. */
  function Misreading(local: int): int {
    var p := Shown(PartsOf(local));
    (MakeDay(TakenFor(p.year), p.month - 1, p.day) - local / SECONDS_PER_DAY) * SECONDS_PER_DAY
  }

  /** The detour over `formatToParts` and `Date.UTC` gives the offset and that mistake. */
  lemma OffsetIsMisread(instant: int, zone: Zone)
    ensures OffsetMsAt(instant, zone) == (zone(instant) + Misreading(LocalSeconds(zone, instant))) * 1000
  {
    hide MakeDay, MakeSeconds, DateOfDay, TakenFor;
    var local := LocalSeconds(zone, instant);
    var p := PartsIn(instant, zone);
    TimeOfDay(local % SECONDS_PER_DAY);
    assert MakeSeconds(p.hour, p.minute, p.second) == local % SECONDS_PER_DAY;
    assert DateUTC(p.year, p.month - 1, p.day, p.hour, p.minute, p.second) ==
           (MakeDay(TakenFor(p.year), p.month - 1, p.day) * SECONDS_PER_DAY + local % SECONDS_PER_DAY) * 1000
      by { assert TakenFor(p.year) == if 0 <= p.year <= 99 then 1900 + p.year else p.year by { TakenForIs(p.year); } }
  }

  lemma TakenForIs(year: int)
    ensures TakenFor(year) == if 0 <= year <= 99 then 1900 + year else year
  {
  }

  /** So the offset is read correctly exactly when the clock shows a year from 100 on. */
  lemma OffsetIsRead(instant: int, zone: Zone)
    ensures OffsetMsAt(instant, zone) == zone(instant) * 1000 <==> LocalYear(zone, instant) >= 100
  {
    hide PartsOf, OffsetMsAt, Misreading;
    OffsetIsMisread(instant, zone);
    MisreadingSign(LocalSeconds(zone, instant));
  }

  lemma MisreadingSign(local: int)
    ensures if PartsOf(local).year >= 100 then Misreading(local) == 0 else Misreading(local) > 0
  {
    hide PartsOf, MakeDay, DayFromYear, InYear, DateOfDay;
    var day := local / SECONDS_PER_DAY;
    var p := PartsOf(local);
    DateOfParts(local);
    if p.year < 100 {
      var q := Shown(p);
      var y := TakenFor(q.year);
      YearIff(local, p.year + 1);
      YearsGrow(p.year + 1, y);
      DayNotBeforeYear(y, q.month - 1, q.day);
    }
  }

  lemma DayNotBeforeYear(year: int, month: int, date: int)
    requires 0 <= month < 12 && 1 <= date
    ensures MakeDay(year, month, date) >= DayFromYear(year)
  {
    MonthsFit(month, IsLeap(year));
  }

  lemma YearOfParts(seconds: int)
    ensures PartsOf(seconds).year == DateOfDay(seconds / SECONDS_PER_DAY).year
  {
    hide DateOfDay;
  }

  /** Which clock readings are of a year from `year` on. */
  lemma YearIff(seconds: int, year: int)
    ensures PartsOf(seconds).year >= year <==> seconds / SECONDS_PER_DAY >= DayFromYear(year)
    ensures PartsOf(seconds).year >= year <==> seconds >= DayFromYear(year) * SECONDS_PER_DAY
  {
    hide DateOfDay, DayFromYear;
    YearOfParts(seconds);
    var day := seconds / SECONDS_PER_DAY;
    var y := DateOfDay(day).year;
    assert InYear(day, y);
    if y >= year {
      YearsGrow(year, y);
    } else {
      YearsGrow(y + 1, year);
    }
  }

  lemma DateOfParts(local: int)
    ensures var p, day := PartsOf(local), local / SECONDS_PER_DAY;
            && MakeDay(p.year, p.month - 1, p.day) == day
            && PartsOf(day * SECONDS_PER_DAY) == p.(hour := 0, minute := 0, second := 0)
  {
    hide DateOfDay, MakeDay;
    DayOfDate(local / SECONDS_PER_DAY);
    DayAndTime(local / SECONDS_PER_DAY, 0);
  }

  /** Clocks that show the same, though one may be before Christ, read the same or are months apart. */
  lemma ShownNearby(a: int, b: int)
    requires -2 * SECONDS_PER_DAY <= a - b <= 2 * SECONDS_PER_DAY
    ensures Shown(PartsOf(a)) == Shown(PartsOf(b)) <==> a == b
  {
    hide PartsOf, DayFromYear, DaysBefore;
    var p, q := PartsOf(a), PartsOf(b);
    if Shown(p) == Shown(q) {
      if p.year == q.year {
        assert p == q;
        SecondsOfParts(a);
        SecondsOfParts(b);
      } else if p.year > q.year {
        MirroredYears(a, b);
      } else {
        MirroredYears(b, a);
      }
    }
  }

  lemma MirroredYears(a: int, b: int)
    requires Shown(PartsOf(a)) == Shown(PartsOf(b)) && PartsOf(a).year > PartsOf(b).year
    ensures a - b > 2 * SECONDS_PER_DAY
  {
    hide PartsOf, DayFromYear;
    var p, q := PartsOf(a), PartsOf(b);
    DateOfParts(a);
    DateOfParts(b);
    YearsGrow(q.year, p.year);
  }

  // ---------------------------------------------------------------------------------------
  // Zones.

  /** No offset reaches `m` seconds, which are at most a day. */
  ghost predicate OffsetsUnder(zone: Zone, m: int) {
    0 < m <= SECONDS_PER_DAY && forall t :: -m < zone(t) < m
  }

  /** From `lo` to `hi` the offset is `before`, and from the whole second `at` on it is `after`. */
  ghost predicate ChangesOnceTo(zone: Zone, m: int, lo: int, hi: int, before: int, at: int, after: int) {
    && at % 1000 == 0
    && -m < before < m
    && -m < after < m
    && forall t | lo <= t <= hi :: zone(t) == if t < at then before else after
  }

  /** At most one transition between two instants, among offsets under `m`. */
  ghost predicate AtMostOneTransition(zone: Zone, m: int, lo: int, hi: int) {
    exists before, at, after :: ChangesOnceTo(zone, m, lo, hi, before, at, after)
  }

  /** Both functions end the same way: the guess `clock - first offset` is corrected once. */
  function TwoPasses(clock: int, first: int, zone: Zone): int {
    (clock - zone((clock - first) * 1000)) * 1000
  }

  // ---------------------------------------------------------------------------------------
  // A wall clock as an instant.

  predicate IsWallClock(p: Parts) {
    IsDateTime(p) && p.second == 0
  }

  /** What `zonedTimeToUtc` returns. */
  function Named(p: Parts, zone: Zone): int {
    ZonedTimeToUtc(p.year, p.month, p.day, p.hour, p.minute, zone)
  }

  /** The zone's clock reads `p` at some instant: it does not when clocks go forward over it. */
  ghost predicate Occurs(p: Parts, zone: Zone) {
    exists t :: LocalSeconds(zone, t) == SecondsOf(p)
  }

  /** Where `zonedTimeToUtc` reads the offset, first and then again, the clock shows a year from 100 on. */
  predicate OffsetsAreRead(p: Parts, zone: Zone) {
    var clock := SecondsOf(p);
    LocalYear(zone, clock * 1000) >= 100 && LocalYear(zone, (clock - zone(clock * 1000)) * 1000) >= 100
  }

  /** From the year 101 on it always does. */
  lemma OffsetsAreReadFrom101(p: Parts, zone: Zone, m: int)
    requires IsWallClock(p) && p.year >= 101 && OffsetsUnder(zone, m)
    ensures OffsetsAreRead(p, zone)
  {
    hide PartsOf, SecondsOf;
    var clock := SecondsOf(p);
    PartsOfSeconds(p);
    YearIff(clock, 101);
    YearIff(LocalSeconds(zone, clock * 1000), 100);
    YearIff(LocalSeconds(zone, (clock - zone(clock * 1000)) * 1000), 100);
    YearLength(100);
  }

  /** The two passes, the mistakes of both readings included. */
  lemma NamedIs(p: Parts, zone: Zone, clock: int)
    requires IsWallClock(p) && DateUTC(p.year, p.month - 1, p.day, p.hour, p.minute, 0) == clock * 1000
    ensures var o0 := zone(clock * 1000) + Misreading(LocalSeconds(zone, clock * 1000));
            var guess := (clock - o0) * 1000;
            Named(p, zone) == (clock - zone(guess) - Misreading(LocalSeconds(zone, guess))) * 1000
  {
    hide PartsOf, OffsetMsAt, DateUTC, Misreading, LocalSeconds;
    OffsetIsMisread(clock * 1000, zone);
    var o0 := zone(clock * 1000) + Misreading(LocalSeconds(zone, clock * 1000));
    OffsetIsMisread((clock - o0) * 1000, zone);
  }

  /** Around one transition, two passes land on the clock time exactly when some whole second has it. */
  lemma TwoPassesLand(clock: int, zone: Zone, m: int, before: int, at: int, after: int)
    requires OffsetsUnder(zone, m)
    requires ChangesOnceTo(zone, m, (clock - m) * 1000, (clock + m) * 1000, before, at, after)
    ensures var r := TwoPasses(clock, zone(clock * 1000), zone);
            LocalSeconds(zone, r) == clock <==> ((clock - before) * 1000 < at || (clock - after) * 1000 >= at)
  {
    var o0 := zone(clock * 1000);
    var o1 := zone((clock - o0) * 1000);
    var r := (clock - o1) * 1000;
    assert r / 1000 == clock - o1;
  }

  lemma ClockTimeOccurs(clock: int, t: int, zone: Zone, m: int, before: int, at: int, after: int)
    requires OffsetsUnder(zone, m)
    requires ChangesOnceTo(zone, m, (clock - m) * 1000, (clock + m) * 1000, before, at, after)
    requires LocalSeconds(zone, t) == clock
    ensures (clock - before) * 1000 < at || (clock - after) * 1000 >= at
  {
    var offset := zone(t);
    assert (clock - offset) * 1000 <= t < (clock - offset) * 1000 + 1000;
  }

  /** For every wall clock of every year, in a zone whose offsets stay under `m` and with at most one
      transition within `m` of it: `zonedTimeToUtc` returns an instant at which the zone's clock reads
      exactly that wall clock if and only if there is such an instant, the year is at least 100, and so
      is the year shown where the offset is read. */
  lemma ZonedTimeIffOccurs(p: Parts, zone: Zone, m: int)
    requires IsWallClock(p) && OffsetsUnder(zone, m)
    requires AtMostOneTransition(zone, m, (SecondsOf(p) - m) * 1000, (SecondsOf(p) + m) * 1000)
    ensures PartsIn(Named(p, zone), zone) == p <==> p.year >= 100 && OffsetsAreRead(p, zone) && Occurs(p, zone)
  {
    hide PartsOf, SecondsOf, Named, TwoPasses, PartsIn, OffsetsAreRead;
    if p.year < 100 {
      OldYearsDoNotComeBack(p, zone, m);
    } else if !OffsetsAreRead(p, zone) {
      MisreadOffsetsMislead(p, zone, m);
    } else {
      ReadOffsetsNameIt(p, zone, m);
    }
  }

  /** When both offsets are read correctly. */
  lemma ReadOffsetsNameIt(p: Parts, zone: Zone, m: int)
    requires IsWallClock(p) && p.year >= 100 && OffsetsUnder(zone, m) && OffsetsAreRead(p, zone)
    requires AtMostOneTransition(zone, m, (SecondsOf(p) - m) * 1000, (SecondsOf(p) + m) * 1000)
    ensures Named(p, zone) == TwoPasses(SecondsOf(p), zone(SecondsOf(p) * 1000), zone)
    ensures PartsIn(Named(p, zone), zone) == p <==> Occurs(p, zone)
  {
    hide PartsOf, SecondsOf, Named, PartsIn, LocalSeconds;
    var clock := SecondsOf(p);
    NamedFrom100(p, zone);
    var r := Named(p, zone);
    var before, at, after :| ChangesOnceTo(zone, m, (clock - m) * 1000, (clock + m) * 1000, before, at, after);
    TwoPassesLand(clock, zone, m, before, at, after);
    TwoPassesStayNear(clock, zone, m);
    ReadsIff(p, r, zone);
    if Occurs(p, zone) {
      var t :| LocalSeconds(zone, t) == clock;
      ClockTimeOccurs(clock, t, zone, m, before, at, after);
    }
  }

  lemma ReadsIff(p: Parts, instant: int, zone: Zone)
    requires IsWallClock(p) && p.year >= 100
    requires -2 * SECONDS_PER_DAY <= LocalSeconds(zone, instant) - SecondsOf(p) <= 2 * SECONDS_PER_DAY
    ensures PartsIn(instant, zone) == p <==> LocalSeconds(zone, instant) == SecondsOf(p)
  {
    hide PartsOf, SecondsOf, LocalSeconds;
    PartsOfSeconds(p);
    ShownNearby(LocalSeconds(zone, instant), SecondsOf(p));
  }

  lemma TwoPassesStayNear(clock: int, zone: Zone, m: int)
    requires OffsetsUnder(zone, m)
    ensures var r := TwoPasses(clock, zone(clock * 1000), zone);
            -2 * SECONDS_PER_DAY <= LocalSeconds(zone, r) - clock <= 2 * SECONDS_PER_DAY
  {
    var o1 := zone((clock - zone(clock * 1000)) * 1000);
    assert (clock - o1) * 1000 / 1000 == clock - o1;
  }

  lemma UtcOfWallClock(p: Parts)
    requires IsWallClock(p) && p.year >= 100
    ensures DateUTC(p.year, p.month - 1, p.day, p.hour, p.minute, 0) == SecondsOf(p) * 1000
  {
    hide MakeDay, MakeSeconds;
  }

  lemma NamedFrom100(p: Parts, zone: Zone)
    requires IsWallClock(p) && p.year >= 100 && OffsetsAreRead(p, zone)
    ensures Named(p, zone) == TwoPasses(SecondsOf(p), zone(SecondsOf(p) * 1000), zone)
  {
    hide PartsOf, SecondsOf, Named, DateUTC, Misreading, LocalSeconds;
    var clock := SecondsOf(p);
    UtcOfWallClock(p);
    NamedIs(p, zone, clock);
    MisreadingSign(LocalSeconds(zone, clock * 1000));
    MisreadingSign(LocalSeconds(zone, (clock - zone(clock * 1000)) * 1000));
  }

  /** A year before 100 never comes back: `Date.UTC` takes it for one of the twentieth century. */
  lemma OldYearsDoNotComeBack(p: Parts, zone: Zone, m: int)
    requires IsWallClock(p) && p.year < 100 && OffsetsUnder(zone, m)
    ensures PartsIn(Named(p, zone), zone) != p
  {
    hide PartsOf, Named, LocalSeconds, MakeDay, MakeSeconds, DayFromYear, Misreading;
    if p.year > 0 {
      var y := 1900 + p.year;
      var clock := MakeDay(y, p.month - 1, p.day) * SECONDS_PER_DAY + MakeSeconds(p.hour, p.minute, 0);
      TimeIsUnique(p.hour, p.minute, 0);
      DayNotBeforeYear(y, p.month - 1, p.day);
      YearsGrow(1901, y);
      YearsGrow(1900, 1901);
      NamedIs(p, zone, clock);
      LateClocksAreRead(zone, m, clock);
      var r := TwoPasses(clock, zone(clock * 1000), zone);
      TwoPassesStayNear(clock, zone, m);
      YearIff(LocalSeconds(zone, r), 1900);
    }
  }

  lemma LateClocksAreRead(zone: Zone, m: int, clock: int)
    requires OffsetsUnder(zone, m) && clock >= DayFromYear(1901) * SECONDS_PER_DAY
    ensures Misreading(LocalSeconds(zone, clock * 1000)) == 0
    ensures Misreading(LocalSeconds(zone, (clock - zone(clock * 1000)) * 1000)) == 0
  {
    hide PartsOf, Misreading;
    var first, second := LocalSeconds(zone, clock * 1000), LocalSeconds(zone, (clock - zone(clock * 1000)) * 1000);
    YearIff(first, 100);
    YearIff(second, 100);
    MisreadingSign(first);
    MisreadingSign(second);
  }

  /** The first two days of the year 100 are those in which an offset can still be read in the year 99,
      by nineteen hundred years too much. */
  lemma MisreadOffsetsMislead(p: Parts, zone: Zone, m: int)
    requires IsWallClock(p) && p.year >= 100 && OffsetsUnder(zone, m) && !OffsetsAreRead(p, zone)
    ensures PartsIn(Named(p, zone), zone) != p
  {
    hide PartsOf, SecondsOf, Named, LocalSeconds, Misreading, DateUTC;
    var clock := SecondsOf(p);
    PartsOfSeconds(p);
    YearIff(clock, 100);
    YearIff(clock, 101);
    UtcOfWallClock(p);
    NamedIs(p, zone, clock);
    var first := LocalSeconds(zone, clock * 1000);
    LocalIsNear(zone, m, clock);
    MisreadingSign(first);
    YearIff(first, 100);
    var guess := (clock - zone(clock * 1000) - Misreading(first)) * 1000;
    var second := LocalSeconds(zone, guess);
    LocalIsNear(zone, m, guess / 1000);
    MisreadingSign(second);
    YearIff(second, 100);
    YearIff(first, 99);
    YearIff(second, 99);
    YearsGrow(99, 100);
    if Misreading(first) != 0 {
      OldYearsAreMisreadAlike(first);
      LongAgo(second);
    } else {
      OldYearsAreMisreadAlike(second);
    }
    var r := Named(p, zone) / 1000;
    LocalIsNear(zone, m, r);
    YearIff(LocalSeconds(zone, r * 1000), -1000);
  }

  lemma LocalIsNear(zone: Zone, m: int, seconds: int)
    requires OffsetsUnder(zone, m)
    ensures seconds - SECONDS_PER_DAY < LocalSeconds(zone, seconds * 1000) < seconds + SECONDS_PER_DAY
  {
  }

  /** The years 1 to 99 are all mistaken by as many days. */
  lemma OldYearsAreMisreadAlike(local: int)
    requires 1 <= PartsOf(local).year <= 99
    ensures Misreading(local) == (DayFromYear(1901) - DayFromYear(1)) * SECONDS_PER_DAY
  {
    hide PartsOf, DayFromYear, DaysBefore;
    var p := PartsOf(local);
    DateOfParts(local);
    SameCalendar(p.year);
    assert (p.month - 1) / 12 == 0;
  }

  lemma SameCalendar(year: int)
    requires 1 <= year <= 99
    ensures IsLeap(1900 + year) == IsLeap(year)
    ensures DayFromYear(1900 + year) - DayFromYear(year) == DayFromYear(1901) - DayFromYear(1)
  {
    SameLeapYears(year);
    assert (year - 69) / 4 == (year - 1969) / 4 + 475;
    assert (year - 1) / 100 == 0 && (year - 1901) / 100 == -19;
    assert (year + 299) / 400 == 0 && (year - 1601) / 400 == -4;
  }

  lemma SameLeapYears(year: int)
    requires 1 <= year <= 99
    ensures IsLeap(1900 + year) == IsLeap(year)
  {
  }

  /** More than a thousand years before Christ. */
  lemma LongAgo(local: int)
    requires local < DayFromYear(-1000) * SECONDS_PER_DAY
    ensures Misreading(local) > DayFromYear(1000) * SECONDS_PER_DAY - local - SECONDS_PER_DAY
  {
    hide PartsOf, MakeDay;
    YearIff(local, -1000);
    var p := Shown(PartsOf(local));
    DayNotBeforeYear(p.year, p.month - 1, p.day);
    YearsGrow(1000, p.year);
  }

  /** In a zone with a fixed offset, `Asia/Tehran` since 2022, every wall clock comes back, unless it or
      the offset's reading falls before the year 100. */
  lemma FixedOffsetZonedTime(p: Parts, zone: Zone, offset: int)
    requires IsWallClock(p)
    requires -SECONDS_PER_DAY < offset < SECONDS_PER_DAY && forall t :: zone(t) == offset
    ensures PartsIn(Named(p, zone), zone) == p <==> p.year >= 100 && PartsOf(SecondsOf(p) + offset).year >= 100
  {
    hide PartsOf, SecondsOf, Named, PartsIn;
    var clock := SecondsOf(p);
    PartsOfSeconds(p);
    var lo, hi := (clock - SECONDS_PER_DAY) * 1000, (clock + SECONDS_PER_DAY) * 1000;
    assert ChangesOnceTo(zone, SECONDS_PER_DAY, lo, hi, offset, 0, offset);
    ZonedTimeIffOccurs(p, zone, SECONDS_PER_DAY);
    assert LocalSeconds(zone, (clock - offset) * 1000) == clock;
    assert LocalSeconds(zone, clock * 1000) == clock + offset;
  }

  // ---------------------------------------------------------------------------------------
  // The start of a local day.

  /** 00:00:00 on the local date of an instant, as seconds of a calendar. */
  function MidnightOf(zone: Zone, instant: int): int {
    LocalSeconds(zone, instant) / SECONDS_PER_DAY * SECONDS_PER_DAY
  }

  /** The instants at which a local clock reads `midnight`, to the whole second. */
  ghost predicate Strikes(zone: Zone, midnight: int, t: int) {
    t % 1000 == 0 && LocalSeconds(zone, t) == midnight
  }

  ghost predicate MidnightStrikes(zone: Zone, instant: int) {
    exists t :: Strikes(zone, MidnightOf(zone, instant), t)
  }

  /** `Date.UTC` makes the same mistake, mostly none, about the date at the instant and the date at the
      first guess. */
  predicate ReadsAlike(instant: int, zone: Zone) {
    var guess := (MidnightOf(zone, instant) - zone(instant)) * 1000;
    Misreading(LocalSeconds(zone, guess)) == Misreading(LocalSeconds(zone, instant))
  }

  /** It does from the year 101 on, from 2 to 98, and in any year if the offset at the guess is the one
      at the instant. */
  lemma ReadsAlikeWhen(instant: int, zone: Zone, m: int)
    requires OffsetsUnder(zone, m)
    requires LocalYear(zone, instant) >= 101 || 2 <= LocalYear(zone, instant) <= 98 ||
             zone((MidnightOf(zone, instant) - zone(instant)) * 1000) == zone(instant)
    ensures ReadsAlike(instant, zone)
  {
    hide PartsOf, Misreading, DayFromYear;
    var local, midnight := LocalSeconds(zone, instant), MidnightOf(zone, instant);
    var guess := (midnight - zone(instant)) * 1000;
    var there := LocalSeconds(zone, guess);
    assert guess / 1000 == midnight - zone(instant);
    if zone(guess) == zone(instant) {
      MisreadingOfDate(local);
    } else {
      YearsGrow(1, 2);
      YearsGrow(99, 100);
      YearsGrow(100, 101);
      YearIff(local, 2);
      YearIff(local, 99);
      YearIff(local, 101);
      YearIff(there, 1);
      YearIff(there, 100);
      MisreadingSign(local);
      MisreadingSign(there);
      if LocalYear(zone, instant) <= 98 {
        OldYearsAreMisreadAlike(local);
        OldYearsAreMisreadAlike(there);
      }
    }
  }

  /** So in those years a whole local day is read alike. */
  lemma DayReadsAlike(instant: int, zone: Zone, m: int)
    requires OffsetsUnder(zone, m)
    requires LocalYear(zone, instant) >= 101 || 2 <= LocalYear(zone, instant) <= 98
    ensures forall other | MidnightOf(zone, other) == MidnightOf(zone, instant) :: ReadsAlike(other, zone)
  {
    hide PartsOf, ReadsAlike, DateOfDay;
    forall other | MidnightOf(zone, other) == MidnightOf(zone, instant)
      ensures ReadsAlike(other, zone)
    {
      YearOfParts(LocalSeconds(zone, other));
      YearOfParts(LocalSeconds(zone, instant));
      ReadsAlikeWhen(other, zone, m);
    }
  }

  /** The mistake depends on the date alone. */
  lemma MisreadingOfDate(local: int)
    ensures Misreading(local / SECONDS_PER_DAY * SECONDS_PER_DAY) == Misreading(local)
  {
    hide PartsOf, MakeDay;
    DateOfParts(local);
    DayAndTime(local / SECONDS_PER_DAY, 0);
  }

  /** The two passes, the mistakes of both readings included. */
  lemma StartOfDayIs(instant: int, zone: Zone)
    ensures var midnight := MidnightOf(zone, instant);
            var guess := (midnight - zone(instant)) * 1000;
            StartOfDayIn(instant, zone) ==
              (midnight - zone(guess)
               + Misreading(LocalSeconds(zone, instant)) - Misreading(LocalSeconds(zone, guess))) * 1000
  {
    hide PartsOf, OffsetMsAt, MakeDay, DateUTC, PartsIn, Misreading;
    var midnight := MidnightOf(zone, instant);
    MidnightIsMisread(zone, instant);
    OffsetIsMisread(instant, zone);
    var p := PartsIn(instant, zone);
    var firstGuess := DateUTC(p.year, p.month - 1, p.day, 0, 0, 0) - OffsetMsAt(instant, zone);
    assert firstGuess == (midnight - zone(instant)) * 1000;
    OffsetIsMisread(firstGuess, zone);
  }

  lemma StartOfDayIsTwoPasses(instant: int, zone: Zone)
    requires ReadsAlike(instant, zone)
    ensures StartOfDayIn(instant, zone) == TwoPasses(MidnightOf(zone, instant), zone(instant), zone)
  {
    hide StartOfDayIn, Misreading, MidnightOf, LocalSeconds;
    StartOfDayIs(instant, zone);
  }

  /** From the year 2 on the two mistakes differ only across the start of the year 100, and then the
      answer is nineteen hundred years off. */
  lemma UnlikeReadingsMislead(instant: int, zone: Zone, m: int)
    requires OffsetsUnder(zone, m) && LocalYear(zone, instant) >= 2 && !ReadsAlike(instant, zone)
    ensures PartsIn(StartOfDayIn(instant, zone), zone).year != LocalYear(zone, instant)
  {
    hide PartsOf, StartOfDayIn, Misreading, LocalSeconds, DayFromYear;
    var local, midnight := LocalSeconds(zone, instant), MidnightOf(zone, instant);
    var guess := (midnight - zone(instant)) * 1000;
    var there := LocalSeconds(zone, guess);
    StartOfDayIs(instant, zone);
    LocalIsNear(zone, m, guess / 1000);
    YearsGrow(1, 2);
    YearIff(local, 2);
    YearIff(there, 1);
    YearIff(local, 100);
    YearIff(there, 100);
    MisreadingSign(local);
    MisreadingSign(there);
    if LocalYear(zone, instant) >= 100 {
      OldYearsAreMisreadAlike(there);
    } else {
      OldYearsAreMisreadAlike(local);
      if PartsOf(there).year < 100 {
        OldYearsAreMisreadAlike(there);
        assert false;
      }
    }
    var r := StartOfDayIn(instant, zone) / 1000;
    LocalIsNear(zone, m, r);
    EraDays();
    YearIff(local, 101);
    YearIff(LocalSeconds(zone, r * 1000), -1000);
    YearIff(LocalSeconds(zone, r * 1000), 1900);
  }

  lemma EraDays()
    ensures DayFromYear(100) - (DayFromYear(1901) - DayFromYear(1)) + 4 < DayFromYear(-1000)
    ensures DayFromYear(100) - 4 + (DayFromYear(1901) - DayFromYear(1)) > DayFromYear(1900)
    ensures DayFromYear(101) > DayFromYear(100) + 4
  {
  }

  lemma MidnightIsMisread(zone: Zone, instant: int)
    ensures var p := PartsIn(instant, zone);
            DateUTC(p.year, p.month - 1, p.day, 0, 0, 0)
            == (MidnightOf(zone, instant) + Misreading(LocalSeconds(zone, instant))) * 1000
  {
    hide PartsOf, MakeDay, DateUTC, TakenFor, LocalSeconds;
    var local := LocalSeconds(zone, instant);
    var p := PartsIn(instant, zone);
    MidnightUTC(p);
    var day, shown := local / SECONDS_PER_DAY, MakeDay(TakenFor(p.year), p.month - 1, p.day);
    assert shown * SECONDS_PER_DAY == day * SECONDS_PER_DAY + (shown - day) * SECONDS_PER_DAY;
  }

  lemma MidnightUTC(p: Parts)
    ensures DateUTC(p.year, p.month - 1, p.day, 0, 0, 0) ==
            MakeDay(TakenFor(p.year), p.month - 1, p.day) * SECONDS_PER_DAY * 1000
  {
    hide MakeDay, MakeSeconds;
    NoTime();
    var day := MakeDay(TakenFor(p.year), p.month - 1, p.day);
    assert DateUTC(p.year, p.month - 1, p.day, 0, 0, 0) == (day * SECONDS_PER_DAY + MakeSeconds(0, 0, 0)) * 1000;
  }

  lemma NoTime()
    ensures MakeSeconds(0, 0, 0) == 0
  {
  }

  function Later(a: int, b: int): int {
    if a < b then b else a
  }

  /** At most one transition from `m` before midnight to `m` after it, and on to the instant. */
  ghost predicate OneTransitionSinceMidnight(zone: Zone, m: int, instant: int) {
    var midnight := MidnightOf(zone, instant);
    AtMostOneTransition(zone, m, (midnight - m) * 1000, Later((midnight + m) * 1000, instant))
  }

  /** At most one transition around a local day: in the window in which its times could be. */
  ghost predicate OneTransitionAroundDay(zone: Zone, m: int, instant: int) {
    var midnight := MidnightOf(zone, instant);
    AtMostOneTransition(zone, m, (midnight - m) * 1000, (midnight + SECONDS_PER_DAY + m) * 1000)
  }

  /** The offsets from `m` before midnight on, past `m` after it and past the instant. */
  ghost predicate DayChangesOnce(zone: Zone, m: int, instant: int, hi: int, before: int, at: int, after: int) {
    var midnight := MidnightOf(zone, instant);
    && hi >= instant
    && hi >= (midnight + m) * 1000
    && ChangesOnceTo(zone, m, (midnight - m) * 1000, hi, before, at, after)
  }

  /** Everything about `startOfDayIn` around one transition, on whole seconds. */
  lemma StartOfDayLands(instant: int, zone: Zone, m: int, hi: int, before: int, at: int, after: int)
    requires ReadsAlike(instant, zone) && OffsetsUnder(zone, m)
    requires DayChangesOnce(zone, m, instant, hi, before, at, after)
    ensures var r, midnight := StartOfDayIn(instant, zone), MidnightOf(zone, instant);
            var early, late := (midnight - before) * 1000, (midnight - after) * 1000;
            && (r == early || r == late)
            && (Strikes(zone, midnight, r) <==> early < at || late >= at)
            && (forall t :: Strikes(zone, midnight, t) <==> (t == early && early < at) || (t == late && late >= at))
            && (Strikes(zone, midnight, r) ==> r <= instant)
            && (early < at && late >= at ==> r == if instant < at then early else late)
            && (!(early < at && late >= at) ==> r == if late >= at then late else early)
  {
    hide PartsOf, StartOfDayIn, ReadsAlike;
    var midnight := MidnightOf(zone, instant);
    StartOfDayIsTwoPasses(instant, zone);
    DayWindow(instant, zone, m);
    var early, late := (midnight - before) * 1000, (midnight - after) * 1000;
    forall t
      ensures Strikes(zone, midnight, t) <==> (t == early && early < at) || (t == late && late >= at)
    {
      StrikesWhen(midnight, t, zone, m, hi, before, at, after);
    }
  }

  lemma DayWindow(instant: int, zone: Zone, m: int)
    requires OffsetsUnder(zone, m)
    ensures var midnight := MidnightOf(zone, instant);
            && midnight <= LocalSeconds(zone, instant) < midnight + SECONDS_PER_DAY
            && (midnight - m) * 1000 <= instant <= (midnight + SECONDS_PER_DAY + m) * 1000
  {
  }

  lemma StrikesWhen(midnight: int, t: int, zone: Zone, m: int, hi: int, before: int, at: int, after: int)
    requires OffsetsUnder(zone, m) && hi >= (midnight + m) * 1000
    requires ChangesOnceTo(zone, m, (midnight - m) * 1000, hi, before, at, after)
    ensures var early, late := (midnight - before) * 1000, (midnight - after) * 1000;
            Strikes(zone, midnight, t) <==> (t == early && early < at) || (t == late && late >= at)
  {
    if Strikes(zone, midnight, t) {
      assert t == (midnight - zone(t)) * 1000;
    }
    assert (midnight - before) * 1000 / 1000 == midnight - before;
    assert (midnight - after) * 1000 / 1000 == midnight - after;
  }

  /** With at most one transition since midnight: where both dates are read alike, `startOfDayIn` returns
      an instant that reads 00:00:00 on that date if and only if midnight strikes at all that day, and
      then it is not in the future; where they are not, from the year 2 on, it never does. */
  lemma StartOfDayIffMidnightStrikes(instant: int, zone: Zone, m: int)
    requires OffsetsUnder(zone, m) && OneTransitionSinceMidnight(zone, m, instant)
    ensures var r, p := StartOfDayIn(instant, zone), PartsIn(instant, zone);
            var right := PartsIn(r, zone) == p.(hour := 0, minute := 0, second := 0);
            && (ReadsAlike(instant, zone) ==> (right <==> MidnightStrikes(zone, instant)))
            && (ReadsAlike(instant, zone) && MidnightStrikes(zone, instant) ==> r <= instant)
            && (LocalYear(zone, instant) >= 2 ==>
                  (right <==> ReadsAlike(instant, zone) && MidnightStrikes(zone, instant)))
  {
    hide PartsOf, StartOfDayIn, ChangesOnceTo, PartsIn, DateUTC, Strikes, ReadsAlike;
    if ReadsAlike(instant, zone) {
      var midnight := MidnightOf(zone, instant);
      var hi := Later((midnight + m) * 1000, instant);
      var before, at, after :| ChangesOnceTo(zone, m, (midnight - m) * 1000, hi, before, at, after);
      StartOfDayLands(instant, zone, m, hi, before, at, after);
      ReadsMidnight(instant, zone, m, hi, before, at, after);
    } else if LocalYear(zone, instant) >= 2 {
      UnlikeReadingsMislead(instant, zone, m);
      assert PartsIn(instant, zone).year == LocalYear(zone, instant) by { ShownLater(instant, zone); }
    }
  }

  lemma ShownLater(instant: int, zone: Zone)
    requires LocalYear(zone, instant) > 0
    ensures PartsIn(instant, zone).year == LocalYear(zone, instant)
  {
  }

  lemma ReadsMidnight(instant: int, zone: Zone, m: int, hi: int, before: int, at: int, after: int)
    requires ReadsAlike(instant, zone) && OffsetsUnder(zone, m)
    requires DayChangesOnce(zone, m, instant, hi, before, at, after)
    ensures var r, p := StartOfDayIn(instant, zone), PartsIn(instant, zone);
            PartsIn(r, zone) == p.(hour := 0, minute := 0, second := 0) <==> Strikes(zone, MidnightOf(zone, instant), r)
  {
    hide PartsOf, StartOfDayIn, ReadsAlike;
    var r, midnight := StartOfDayIn(instant, zone), MidnightOf(zone, instant);
    StartOfDayLands(instant, zone, m, hi, before, at, after);
    DateOfParts(LocalSeconds(zone, instant));
    assert r % 1000 == 0 && midnight - m <= r / 1000 <= midnight + m by {
      assert (midnight - before) * 1000 / 1000 == midnight - before;
      assert (midnight - after) * 1000 / 1000 == midnight - after;
    }
    ShownNearby(LocalSeconds(zone, r), midnight);
  }

  /** Every instant of a local day gets the same answer if and only if midnight does not strike twice
      that day (it does when clocks go back over it). */
  lemma StartOfDayAgreesIffMidnightStrikesOnce(instant: int, zone: Zone, m: int)
    requires OffsetsUnder(zone, m) && OneTransitionAroundDay(zone, m, instant)
    requires forall other | MidnightOf(zone, other) == MidnightOf(zone, instant) :: ReadsAlike(other, zone)
    ensures (forall other | MidnightOf(zone, other) == MidnightOf(zone, instant) ::
               StartOfDayIn(other, zone) == StartOfDayIn(instant, zone))
            <==>
            (forall t, u | Strikes(zone, MidnightOf(zone, instant), t) && Strikes(zone, MidnightOf(zone, instant), u) ::
               t == u)
  {
    hide PartsOf, StartOfDayIn, ReadsAlike;
    var midnight := MidnightOf(zone, instant);
    var lo, hi := (midnight - m) * 1000, (midnight + SECONDS_PER_DAY + m) * 1000;
    var before, at, after :| ChangesOnceTo(zone, m, lo, hi, before, at, after);
    var early, late := (midnight - before) * 1000, (midnight - after) * 1000;
    DayWindow(instant, zone, m);
    StartOfDayLands(instant, zone, m, hi, before, at, after);
    if early < at && late >= at {
      assert Strikes(zone, midnight, early) && Strikes(zone, midnight, late) && early != late;
      StrikesTwice(instant, zone, m, before, at, after);
    } else {
      forall other | MidnightOf(zone, other) == midnight
        ensures StartOfDayIn(other, zone) == StartOfDayIn(instant, zone)
      {
        StrikesOnce(instant, other, zone, m, before, at, after);
      }
    }
  }

  lemma StrikesOnce(instant: int, other: int, zone: Zone, m: int, before: int, at: int, after: int)
    requires OffsetsUnder(zone, m) && MidnightOf(zone, other) == MidnightOf(zone, instant)
    requires ReadsAlike(instant, zone) && ReadsAlike(other, zone)
    requires var midnight := MidnightOf(zone, instant);
             var hi := (midnight + SECONDS_PER_DAY + m) * 1000;
             && ChangesOnceTo(zone, m, (midnight - m) * 1000, hi, before, at, after)
             && !((midnight - before) * 1000 < at <= (midnight - after) * 1000)
    ensures StartOfDayIn(other, zone) == StartOfDayIn(instant, zone)
  {
    hide PartsOf, StartOfDayIn, ReadsAlike, ChangesOnceTo, Strikes, LocalSeconds;
    var hi := (MidnightOf(zone, instant) + SECONDS_PER_DAY + m) * 1000;
    DayWindow(instant, zone, m);
    DayWindow(other, zone, m);
    StartOfDayLands(instant, zone, m, hi, before, at, after);
    StartOfDayLands(other, zone, m, hi, before, at, after);
  }

  /** Where midnight strikes twice, the two strikes are each their own start of day. */
  lemma StrikesTwice(instant: int, zone: Zone, m: int, before: int, at: int, after: int)
    requires OffsetsUnder(zone, m)
    requires forall other | MidnightOf(zone, other) == MidnightOf(zone, instant) :: ReadsAlike(other, zone)
    requires var midnight := MidnightOf(zone, instant);
             var hi := (midnight + SECONDS_PER_DAY + m) * 1000;
             && ChangesOnceTo(zone, m, (midnight - m) * 1000, hi, before, at, after)
             && (midnight - before) * 1000 < at <= (midnight - after) * 1000
    ensures var early, late := (MidnightOf(zone, instant) - before) * 1000, (MidnightOf(zone, instant) - after) * 1000;
            && MidnightOf(zone, early) == MidnightOf(zone, late) == MidnightOf(zone, instant)
            && StartOfDayIn(early, zone) == early && StartOfDayIn(late, zone) == late
  {
    hide PartsOf, StartOfDayIn, ReadsAlike;
    var midnight := MidnightOf(zone, instant);
    var early, late := (midnight - before) * 1000, (midnight - after) * 1000;
    var hi := (midnight + SECONDS_PER_DAY + m) * 1000;
    StrikesWhen(midnight, early, zone, m, hi, before, at, after);
    StrikesWhen(midnight, late, zone, m, hi, before, at, after);
    StrikeIsOfTheDay(zone, instant, early);
    StrikeIsOfTheDay(zone, instant, late);
    StartOfDayLands(early, zone, m, hi, before, at, after);
    StartOfDayLands(late, zone, m, hi, before, at, after);
  }

  lemma StrikeIsOfTheDay(zone: Zone, instant: int, t: int)
    requires Strikes(zone, MidnightOf(zone, instant), t)
    ensures MidnightOf(zone, t) == MidnightOf(zone, instant)
  {
    DayAndTime(LocalSeconds(zone, instant) / SECONDS_PER_DAY, 0);
  }

  /** The start of a day that has a midnight is its own start of day. */
  lemma StartOfDayIsStable(instant: int, zone: Zone, m: int)
    requires OffsetsUnder(zone, m) && ReadsAlike(instant, zone)
    requires OneTransitionSinceMidnight(zone, m, instant) && MidnightStrikes(zone, instant)
    ensures StartOfDayIn(StartOfDayIn(instant, zone), zone) == StartOfDayIn(instant, zone)
  {
    hide PartsOf, StartOfDayIn, Misreading;
    var r, midnight := StartOfDayIn(instant, zone), MidnightOf(zone, instant);
    var hi := Later((midnight + m) * 1000, instant);
    var before, at, after :| ChangesOnceTo(zone, m, (midnight - m) * 1000, hi, before, at, after);
    StartOfDayLands(instant, zone, m, hi, before, at, after);
    assert Strikes(zone, midnight, r);
    StrikeIsOfTheDay(zone, instant, r);
    assert (midnight - zone(r)) * 1000 == r;
    StartOfDayIsTwoPasses(r, zone);
  }

  // ---------------------------------------------------------------------------------------
  // Zones in which clocks are put forward or back by an hour at the epoch.

  function Forward(t: int): int {
    if t < 0 then 0 else 3600
  }

  function Back(t: int): int {
    if t < 0 then 3600 else 0
  }

  lemma ForwardChangesOnce()
    ensures OffsetsUnder(Forward, 7200) && forall lo, hi :: AtMostOneTransition(Forward, 7200, lo, hi)
  {
    forall lo, hi
      ensures AtMostOneTransition(Forward, 7200, lo, hi)
    {
      assert ChangesOnceTo(Forward, 7200, lo, hi, 0, 0, 3600);
    }
  }

  lemma BackChangesOnce()
    ensures OffsetsUnder(Back, 7200) && forall lo, hi :: AtMostOneTransition(Back, 7200, lo, hi)
  {
    forall lo, hi
      ensures AtMostOneTransition(Back, 7200, lo, hi)
    {
      assert ChangesOnceTo(Back, 7200, lo, hi, 3600, 0, 0);
    }
  }

  const SKIPPED := Parts(1970, 1, 1, 0, 30, 0)

  lemma SkippedSeconds()
    ensures IsWallClock(SKIPPED) && SecondsOf(SKIPPED) == 1800
  {
    hide MakeDay;
    assert MakeDay(1970, 0, 1) == 0 by { EpochDay(); }
    assert DaysInMonth(0, IsLeap(1970)) == 31;
    assert MakeSeconds(0, 30, 0) == 1800;
  }

  lemma ForwardReads(t: int)
    ensures LocalSeconds(Forward, t) != 0 && LocalSeconds(Forward, t) != 1800
    ensures MidnightOf(Forward, 0) == 0
  {
  }

  /** A wall clock that never occurs, and a day without a midnight. */
  lemma ForwardSkips()
    ensures OffsetsUnder(Forward, 7200) && forall lo, hi :: AtMostOneTransition(Forward, 7200, lo, hi)
    ensures IsWallClock(SKIPPED) && !Occurs(SKIPPED, Forward) && PartsIn(Named(SKIPPED, Forward), Forward) != SKIPPED
    ensures !MidnightStrikes(Forward, 0)
  {
    hide Named, PartsIn, PartsOf, OffsetsAreRead, IsWallClock, SecondsOf, AtMostOneTransition, OffsetsUnder,
         LocalSeconds, MidnightOf, Forward;
    ForwardChangesOnce();
    SkippedSeconds();
    forall t
      ensures LocalSeconds(Forward, t) != 0 && LocalSeconds(Forward, t) != 1800
    {
      ForwardReads(t);
    }
    ForwardReads(0);
    ZonedTimeIffOccurs(SKIPPED, Forward, 7200);
  }

  /** A midnight that strikes twice: the morning and the hour before it get different starts of day. */
  lemma BackRepeats()
    ensures OffsetsUnder(Back, 7200) && forall lo, hi :: AtMostOneTransition(Back, 7200, lo, hi)
    ensures Strikes(Back, MidnightOf(Back, 0), -3_600_000) && Strikes(Back, MidnightOf(Back, 0), 0)
    ensures MidnightOf(Back, -1) == MidnightOf(Back, 0)
    ensures StartOfDayIn(-1, Back) == -3_600_000 && StartOfDayIn(0, Back) == 0
  {
    hide StartOfDayIn, PartsOf, ReadsAlike;
    BackChangesOnce();
    Epoch();
    ReadsAlikeWhen(-1, Back, 7200);
    ReadsAlikeWhen(0, Back, 7200);
    StartOfDayIsTwoPasses(-1, Back);
    StartOfDayIsTwoPasses(0, Back);
  }

  // Before the year 2 the year before Christ that shows the same number can be hit by accident.

  /** 1 January of the year 1, 00:00:00, as seconds of a calendar. */
  const FIRST := -719_162 * SECONDS_PER_DAY

  /** Twelve hours behind long before, twelve hours ahead until an hour into the year 1, and then fourteen. */
  function Antipodal(t: int): int {
    if t < (FIRST - 100 * SECONDS_PER_DAY) * 1000 then -43_200
    else if t < (FIRST - 39_600) * 1000 then 43_200
    else 50_400
  }

  lemma FirstDays()
    ensures MakeDay(1, 0, 1) == -719_162 && MakeDay(0, 0, 1) == -719_528 && MakeDay(0, 11, 31) == -719_163
  {
    assert DayFromYear(1) == -719_162 && DayFromYear(0) == -719_528;
  }

  lemma LastDayOf1901()
    ensures MakeDay(1901, 11, 31) - (DayFromYear(1901) - DayFromYear(1)) == -718_798
  {
    assert DayFromYear(1) == -719_162 && !IsLeap(1901);
    hide DayFromYear, IsLeap;
  }

  lemma FirstClocks()
    ensures PartsOf(FIRST + 10_800) == Parts(1, 1, 1, 3, 0, 0)
    ensures PartsOf(FIRST - 7200) == Parts(0, 12, 31, 22, 0, 0)
    ensures PartsOf(FIRST - 366 * SECONDS_PER_DAY) == Parts(0, 1, 1, 0, 0, 0)
  {
    assert DaysInMonth(0, IsLeap(1)) == 31 && DaysInMonth(11, IsLeap(0)) == 31 && DaysInMonth(0, IsLeap(0)) == 31;
    hide MakeDay, PartsOf, DaysInMonth, IsLeap;
    FirstDays();
    ClockOf(Parts(1, 1, 1, 3, 0, 0), FIRST + 10_800);
    ClockOf(Parts(0, 12, 31, 22, 0, 0), FIRST - 7200);
    ClockOf(Parts(0, 1, 1, 0, 0, 0), FIRST - 366 * SECONDS_PER_DAY);
  }

  lemma FirstMisreadings()
    ensures Misreading(FIRST - 7200) == Misreading(FIRST + 10_800) + 365 * SECONDS_PER_DAY
  {
    FirstClocks();
    hide PartsOf, MakeDay, DayFromYear;
    OldYearsAreMisreadAlike(FIRST + 10_800);
    LastDayOf1901();
    assert (FIRST - 7200) / SECONDS_PER_DAY == -719_163;
  }

  /** There the two dates are read differently, and yet the answer, a year off, shows the right midnight. */
  lemma WrongYearIsHitByAccident()
    ensures var instant := (FIRST - 39_600) * 1000;
            && OffsetsUnder(Antipodal, SECONDS_PER_DAY)
            && OneTransitionSinceMidnight(Antipodal, SECONDS_PER_DAY, instant)
            && !ReadsAlike(instant, Antipodal)
            && PartsIn(StartOfDayIn(instant, Antipodal), Antipodal)
               == PartsIn(instant, Antipodal).(hour := 0, minute := 0, second := 0)
            && LocalSeconds(Antipodal, StartOfDayIn(instant, Antipodal)) == FIRST - 366 * SECONDS_PER_DAY
  {
    hide PartsOf, StartOfDayIn, Misreading;
    var instant := (FIRST - 39_600) * 1000;
    assert LocalSeconds(Antipodal, instant) == FIRST + 10_800 && MidnightOf(Antipodal, instant) == FIRST;
    var guess := (FIRST - 50_400) * 1000;
    assert LocalSeconds(Antipodal, guess) == FIRST - 7200;
    FirstMisreadings();
    FirstClocks();
    StartOfDayIs(instant, Antipodal);
    var r := StartOfDayIn(instant, Antipodal);
    assert r == (FIRST - 43_200 - 365 * SECONDS_PER_DAY) * 1000;
    assert r / 1000 == FIRST - 43_200 - 365 * SECONDS_PER_DAY;
    AntipodalChangesOnce(instant);
  }

  lemma AntipodalChangesOnce(instant: int)
    requires instant == (FIRST - 39_600) * 1000
    ensures OffsetsUnder(Antipodal, SECONDS_PER_DAY)
    ensures AtMostOneTransition(Antipodal, SECONDS_PER_DAY, (FIRST - SECONDS_PER_DAY) * 1000,
                                Later((FIRST + SECONDS_PER_DAY) * 1000, instant))
  {
    assert ChangesOnceTo(Antipodal, SECONDS_PER_DAY, (FIRST - SECONDS_PER_DAY) * 1000,
                         Later((FIRST + SECONDS_PER_DAY) * 1000, instant), 43_200, instant, 50_400);
  }

  lemma Epoch()
    ensures LocalYear(Back, -1) >= 101 && LocalYear(Back, 0) >= 101
  {
    hide PartsOf;
    YearIff(LocalSeconds(Back, -1), 101);
    YearIff(LocalSeconds(Back, 0), 101);
  }
}
