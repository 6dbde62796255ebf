/** Wall-clock times of a time zone (apps/web/lib/zoned-time.ts). A zone is its offset, in milliseconds,
  at each instant. */
module ZonedTime {
  import opened Wrappers
  import opened Calendar
  import opened CivilText

  const DAY_MS := 86400000

  type Zone = int -> int

  /** Components of a wall-clock time. */
  datatype Parts = Parts(date: Civil, hour: int, minute: int, second: int)

  function PartsOfWall(wall: int): Parts {
    var rest := wall % DAY_MS;
    Parts(DateOf(wall / DAY_MS), rest / 3600000, rest / 60000 % 60, rest / 1000 % 60)
  }

  function ZonedParts(t: int, zone: Zone): Parts { PartsOfWall(t / 1000 * 1000 + zone(t)) }

  /** `Date.UTC` reads the years 0 to 99 as 1900 to 1999. */
  function DateUtc(y: int, m: int, d: int, hour: int, minute: int, second: int): int
    requires Valid(Date(y, m, d))
  {
    var start := if 0 <= y <= 99 then DaysBeforeYear(y + 1900) + DaysBeforeMonth(y + 1900, m) - EPOCH
      else DaysBeforeYear(y) + DaysBeforeMonth(y, m) - EPOCH;
    (start + d - 1) * DAY_MS + hour * 3600000 + minute * 60000 + second * 1000
  }

  function UtcOfParts(p: Parts): int { DateUtc(p.date.y, p.date.m, p.date.d, p.hour, p.minute, p.second) }

  function OffsetMs(t: int, zone: Zone): int { UtcOfParts(ZonedParts(t, zone)) - t / 1000 * 1000 }

  /** First instant of the year 100: later years are not mistaken for those of the 20th century. */
  const YEAR_100 := DayNumber(Date(100, 1, 1)) * DAY_MS

  function OffsetsOf(zone: Zone): int -> int { (t: int) => OffsetMs(t, zone) }

  /** A guess corrected by the offset read where the offset at the guess itself leads. */
  function Corrected(guess: int, offset: int -> int): int { guess - offset(guess - offset(guess)) }

  /** The instant chosen for a wall time, guessed as UTC. */
  function WallInstant(guess: int, zone: Zone): int { Corrected(guess, OffsetsOf(zone)) }

  /** Read in the zone, the instant shows the wall time. */
  predicate ReadsAs(t: int, zone: Zone, wall: int) { t / 1000 * 1000 + zone(t) == wall }

  /** Within max of the wall time some instant reads as that wall time. */
  ghost predicate ReadableNear(zone: Zone, wall: int, max: int) {
    exists t :: wall - max <= t <= wall + max && ReadsAs(t, zone, wall)
  }

  ghost predicate Switches(zone: Zone, wall: int, max: int, change: int, before: int, after: int) {
    && change % 1000 == 0 && before % 1000 == 0 && after % 1000 == 0
    && -max <= before <= max && -max <= after <= max
    && forall t :: wall - max <= t <= wall + max ==> zone(t) == if t < change then before else after
  }

  /** Within max of the wall time the offset is in whole seconds, at most max, and changes at most once, on a second. */
  ghost predicate OneTransition(zone: Zone, wall: int, max: int) {
    exists change, before, after :: Switches(zone, wall, max, change, before, after)
  }

  lemma {:induction false} WholeGuess(y: int, m: int, d: int, hour: int, minute: int)
    requires Valid(Date(y, m, d))
    ensures DateUtc(y, m, d, hour, minute, 0) % 1000 == 0
  {
    var start := (if 0 <= y <= 99 then DaysBeforeYear(y + 1900) + DaysBeforeMonth(y + 1900, m)
      else DaysBeforeYear(y) + DaysBeforeMonth(y, m)) - EPOCH + d - 1;
    assert DateUtc(y, m, d, hour, minute, 0) == (start * 86400 + hour * 3600 + minute * 60) * 1000;
  }

  /** The choice of the program, with the offsets of the zone themselves. */
  function Choice(wall: int, zone: Zone): int {
    var first := zone(wall);
    var second := zone(wall - first);
    if second != first then wall - second else wall - first
  }

  lemma {:induction false} YearFrom(wall: int)
    requires wall >= YEAR_100
    ensures DateOf(wall / DAY_MS).y >= 100
  {
    var c := DateOf(wall / DAY_MS);
    OrderIsDayOrder(c, Date(100, 1, 1));
  }

  lemma {:induction false} UtcFromDay(p: Parts)
    requires p.date.y >= 100
    ensures UtcOfParts(p) == DayNumber(p.date) * DAY_MS + (p.hour * 3600000 + p.minute * 60000 + p.second * 1000)
  {
  }

  lemma {:induction false} WholeRest(wall: int)
    requires wall % 1000 == 0
    ensures wall % DAY_MS % 1000 == 0 && wall == wall / DAY_MS * DAY_MS + wall % DAY_MS
  {
    assert wall % DAY_MS == wall - wall / DAY_MS * 86400 * 1000;
  }

  lemma {:induction false} TimeOfDay(rest: int)
    requires 0 <= rest < DAY_MS && rest % 1000 == 0
    ensures rest / 3600000 * 3600000 + rest / 60000 % 60 * 60000 + rest / 1000 % 60 * 1000 == rest
    ensures 0 <= rest / 3600000 < 24
  {
    assert rest / 60000 / 60 == rest / 3600000;
    assert rest / 1000 / 60 == rest / 60000;
  }

  /** Splitting a wall time in whole seconds into its parts loses nothing. */
  lemma {:induction false} PartsRoundTrip(wall: int)
    requires wall >= YEAR_100 && wall % 1000 == 0
    ensures UtcOfParts(PartsOfWall(wall)) == wall
  {
    YearFrom(wall);
    UtcFromDay(PartsOfWall(wall));
    WholeRest(wall);
    TimeOfDay(wall % DAY_MS);
  }

  lemma {:induction false} OffsetIsZone(t: int, zone: Zone)
    requires zone(t) % 1000 == 0 && t / 1000 * 1000 + zone(t) >= YEAR_100
    ensures OffsetMs(t, zone) == zone(t)
  {
    PartsRoundTrip(t / 1000 * 1000 + zone(t));
  }

  lemma {:induction false} OffsetNear(zone: Zone, wall: int, max: int, change: int, before: int, after: int, t: int)
    requires Switches(zone, wall, max, change, before, after)
    requires wall - 2 * max >= YEAR_100 && wall - max <= t <= wall + max && t % 1000 == 0
    ensures OffsetMs(t, zone) == zone(t) && -max <= zone(t) <= max && zone(t) % 1000 == 0
  {
    assert zone(t) == if t < change then before else after;
    assert t / 1000 * 1000 == t;
    OffsetIsZone(t, zone);
  }

  lemma {:induction false} WholeSeconds(a: int, b: int)
    requires a % 1000 == 0 && b % 1000 == 0
    ensures (a - b) % 1000 == 0
  {
  }

  lemma {:induction false} SecondRead(zone: Zone, wall: int, max: int, change: int, before: int, after: int, t: int)
    requires wall % 1000 == 0 && max >= 0 && wall - 2 * max >= YEAR_100
    requires Switches(zone, wall, max, change, before, after) && t == wall - zone(wall)
    ensures OffsetMs(t, zone) == zone(t)
  {
    OffsetNear(zone, wall, max, change, before, after, wall);
    WholeSeconds(wall, zone(wall));
    OffsetNear(zone, wall, max, change, before, after, t);
  }

  lemma {:induction false} WallInstantIsChoice(zone: Zone, wall: int, max: int, change: int, before: int, after: int)
    requires wall % 1000 == 0 && max >= 0 && wall - 2 * max >= YEAR_100
    requires Switches(zone, wall, max, change, before, after)
    ensures WallInstant(wall, zone) == Choice(wall, zone)
  {
    OffsetNear(zone, wall, max, change, before, after, wall);
    SecondRead(zone, wall, max, change, before, after, wall - zone(wall));
  }

  /** Leaving seconds aside: the choice is near, and meets the wall time if either side of the transition does. */
  lemma {:induction false} ChoiceMeets(zone: Zone, wall: int, max: int, change: int, before: int, after: int)
    requires max >= 0 && Switches(zone, wall, max, change, before, after)
    ensures wall - max <= Choice(wall, zone) <= wall + max
    ensures Choice(wall, zone) == wall - before || Choice(wall, zone) == wall - after
    ensures wall - before < change || wall - after >= change ==> Choice(wall, zone) + zone(Choice(wall, zone)) == wall
  {
    var first := zone(wall);
    assert first == if wall < change then before else after;
    var second := zone(wall - first);
    assert second == if wall - first < change then before else after;
    assert zone(wall - second) == if wall - second < change then before else after;
  }

  lemma {:induction false} WholeReads(zone: Zone, wall: int, t: int)
    requires t % 1000 == 0 && t + zone(t) == wall
    ensures ReadsAs(t, zone, wall)
  {
    assert t / 1000 * 1000 == t;
  }

  lemma {:induction false} ChoiceFound(zone: Zone, wall: int, max: int, change: int, before: int, after: int)
    requires wall % 1000 == 0 && max >= 0 && Switches(zone, wall, max, change, before, after)
    ensures wall - max <= Choice(wall, zone) <= wall + max
    ensures wall - before < change || wall - after >= change ==> ReadsAs(Choice(wall, zone), zone, wall)
  {
    ChoiceMeets(zone, wall, max, change, before, after);
    WholeSeconds(wall, before);
    WholeSeconds(wall, after);
    if wall - before < change || wall - after >= change {
      WholeReads(zone, wall, Choice(wall, zone));
    }
  }

  lemma {:induction false} ReadsInWholeSeconds(
      zone: Zone, wall: int, max: int, change: int, before: int, after: int, t: int)
    requires wall % 1000 == 0 && Switches(zone, wall, max, change, before, after)
    requires wall - max <= t <= wall + max && ReadsAs(t, zone, wall)
    ensures wall - before < change || wall - after >= change
  {
    assert t < change <==> t / 1000 * 1000 < change;
  }

  /** An instant is found for the wall time exactly when the zone has one. */
  lemma {:induction false} WallTimeFound(zone: Zone, wall: int, max: int)
    requires wall % 1000 == 0 && max >= 0 && wall - 2 * max >= YEAR_100
    requires OneTransition(zone, wall, max)
    ensures ReadsAs(WallInstant(wall, zone), zone, wall) <==> ReadableNear(zone, wall, max)
  {
    var change, before, after :| Switches(zone, wall, max, change, before, after);
    WallInstantIsChoice(zone, wall, max, change, before, after);
    ChoiceFound(zone, wall, max, change, before, after);
    if t :| wall - max <= t <= wall + max && ReadsAs(t, zone, wall) {
      ReadsInWholeSeconds(zone, wall, max, change, before, after, t);
    }
  }

  /** t reads as the wall time if any instant near does, for every bound on the offsets. */
  ghost predicate FoundIfAny(t: int, zone: Zone, wall: int) {
    forall max :: max >= 0 && wall - 2 * max >= YEAR_100 && OneTransition(zone, wall, max) ==>
      (ReadsAs(t, zone, wall) <==> ReadableNear(zone, wall, max))
  }

  lemma {:induction false} FoundForEveryBound(zone: Zone, wall: int)
    requires wall % 1000 == 0
    ensures FoundIfAny(WallInstant(wall, zone), zone, wall)
  {
    forall max | max >= 0 && wall - 2 * max >= YEAR_100 && OneTransition(zone, wall, max)
      ensures ReadsAs(WallInstant(wall, zone), zone, wall) <==> ReadableNear(zone, wall, max)
    {
      WallTimeFound(zone, wall, max);
    }
  }

  /** Corrects a guess by the offset there, and once more if the offset at the result is another one. */
  method CorrectGuess(guess: int, offset: int -> int) returns (t: int)
    ensures t == Corrected(guess, offset)
  {
    var first := offset(guess);
    t := guess - first;
    var second := offset(t);
    if second != first {
      t := guess - second;
    }
  }

  lemma {:induction false} CorrectedIsFound(zone: Zone, wall: int)
    requires wall % 1000 == 0
    ensures FoundIfAny(Corrected(wall, OffsetsOf(zone)), zone, wall)
  {
    FoundForEveryBound(zone, wall);
  }

  /** The instant for a wall time: it reads back as the wall time exactly when some instant near does. */
  method WallTimeToDate(date: Civil, hour: int, minute: int, zone: Zone) returns (t: int)
    ensures var wall := DateUtc(date.y, date.m, date.d, hour, minute, 0);
      t == WallInstant(wall, zone) && FoundIfAny(t, zone, wall)
  {
    var guess := DateUtc(date.y, date.m, date.d, hour, minute, 0);
    WholeGuess(date.y, date.m, date.d, hour, minute);
    t := CorrectGuess(guess, OffsetsOf(zone));
    CorrectedIsFound(zone, guess);
  }

  // ---------------------------------------------------------------- inputs of the form AAAA-MM-JJTHH:mm

  datatype WallTime = WallTime(date: Civil, hour: int, minute: int)

  /** The pattern is not anchored at its end: what follows the minutes is ignored. */
  function ParseInput(v: string): Option<WallTime> {
    if |v| < 16 || v[4] != '-' || v[7] != '-' || v[10] != 'T' || v[13] != ':' then None
    else
      var y, m, d, hour, minute := Parse4(v, 0), Parse2(v, 5), Parse2(v, 8), Parse2(v, 11), Parse2(v, 14);
      if y.None? || m.None? || d.None? || hour.None? || minute.None? then None
      else if !Valid(Date(y.value, m.value, d.value)) || y.value < 100 || hour.value > 23 || minute.value > 59 then None
      else Some(WallTime(Date(y.value, m.value, d.value), hour.value, minute.value))
  }

  function WallOf(w: WallTime): int { DateUtc(w.date.y, w.date.m, w.date.d, w.hour, w.minute, 0) }

  function LocalInputToIso(v: string, zone: Zone): Option<int> {
    var w := ParseInput(v);
    if w.None? then None else Some(WallInstant(WallOf(w.value), zone))
  }

  function PrintInput(date: Civil, hour: int, minute: int): string
    requires FourDigitYear(date)
  {
    if 0 <= hour < 100 && 0 <= minute < 100 then Text(date) + ['T'] + Pad2(hour) + [':'] + Pad2(minute) else ""
  }

  /** Only years of four digits are printed here; an absent instant gives an empty text. */
  function IsoToLocalInput(t: Option<int>, zone: Zone): string
    requires t.Some? ==> FourDigitYear(ZonedParts(t.value, zone).date)
  {
    if t.None? then ""
    else
      var p := ZonedParts(t.value, zone);
      PrintInput(p.date, p.hour, p.minute)
  }

  lemma {:induction false} ParsePrints(v: string)
    requires ParseInput(v).Some?
    ensures var w := ParseInput(v).value;
      && 100 <= w.date.y <= 9999 && 0 <= w.hour <= 23 && 0 <= w.minute <= 59
      && PrintInput(w.date, w.hour, w.minute) == v[..16]
  {
    Parse4Prints(v, 0);
    Parse2Prints(v, 5);
    Parse2Prints(v, 8);
    Parse2Prints(v, 11);
    Parse2Prints(v, 14);
    var w := ParseInput(v).value;
    assert Text(w.date) == v[0..10];
  }

  /** The year 100 at least, four digits, an existing date and a time of day. */
  ghost predicate Printable(w: WallTime) { 100 <= w.date.y <= 9999 && 0 <= w.hour <= 23 && 0 <= w.minute <= 59 }

  lemma {:induction false} PrintedParts(v: string, w: WallTime)
    requires |v| >= 16 && Printable(w) && v[..16] == PrintInput(w.date, w.hour, w.minute)
    ensures v[0..4] == Pad4(w.date.y) && v[4] == '-' && v[5..7] == Pad2(w.date.m) && v[7] == '-'
    ensures v[8..10] == Pad2(w.date.d) && v[10] == 'T' && v[11..13] == Pad2(w.hour) && v[13] == ':'
    ensures v[14..16] == Pad2(w.minute)
  {
    var p := PrintInput(w.date, w.hour, w.minute);
    assert v[0..4] == p[0..4] && v[4] == p[4] && v[5..7] == p[5..7] && v[7] == p[7] && v[8..10] == p[8..10];
    assert v[10] == p[10] && v[11..13] == p[11..13] && v[13] == p[13] && v[14..16] == p[14..16];
  }

  /** What is printed is read back, whatever follows it. */
  lemma {:induction false} PrintedParses(v: string, w: WallTime)
    requires |v| >= 16 && Printable(w) && v[..16] == PrintInput(w.date, w.hour, w.minute)
    ensures ParseInput(v) == Some(w)
  {
    PrintedParts(v, w);
    Pad4Parses(v, 0, w.date.y);
    Pad2Parses(v, 5, w.date.m);
    Pad2Parses(v, 8, w.date.d);
    Pad2Parses(v, 11, w.hour);
    Pad2Parses(v, 14, w.minute);
  }

  /** An input is accepted exactly when it begins like a printed time of an existing date from the year 100 on. */
  lemma {:induction false} ParseIff(v: string)
    ensures ParseInput(v).Some? <==>
      (|v| >= 16 && exists w: WallTime :: Printable(w) && PrintInput(w.date, w.hour, w.minute) == v[..16])
  {
    if ParseInput(v).Some? {
      ParsePrints(v);
    } else if |v| >= 16 {
      forall w: WallTime | Printable(w) ensures PrintInput(w.date, w.hour, w.minute) != v[..16] {
        if PrintInput(w.date, w.hour, w.minute) == v[..16] {
          PrintedParses(v, w);
          assert false;
        }
      }
    }
  }

  /** `Date.UTC` reads a year below 100 as the one 1900 years later. */
  lemma {:induction false} EarlyYearsShift(y: int, m: int, d: int, hour: int, minute: int, second: int)
    requires 0 <= y <= 99 && Valid(Date(y, m, d)) && Valid(Date(y + 1900, m, d))
    ensures DateUtc(y, m, d, hour, minute, second) == DateUtc(y + 1900, m, d, hour, minute, second)
  {
  }

  lemma {:induction false} SplitDay(day: int, rest: int)
    requires 0 <= rest < DAY_MS
    ensures (day * DAY_MS + rest) / DAY_MS == day && (day * DAY_MS + rest) % DAY_MS == rest
  {
  }

  lemma {:induction false} WallIsDayAndTime(w: WallTime)
    requires w.date.y >= 100
    ensures WallOf(w) == DayNumber(w.date) * DAY_MS + (w.hour * 3600000 + w.minute * 60000)
  {
  }

  lemma {:induction false} SplitRest(hour: int, minute: int)
    requires 0 <= hour <= 23 && 0 <= minute <= 59
    ensures var rest := hour * 3600000 + minute * 60000;
      rest / 3600000 == hour && rest / 60000 % 60 == minute && rest / 1000 % 60 == 0
  {
    var rest := hour * 3600000 + minute * 60000;
    assert rest / 60000 == hour * 60 + minute;
    assert rest / 1000 == (hour * 60 + minute) * 60;
  }

  lemma {:induction false} PartsAt(wall: int, day: int, hour: int, minute: int)
    requires 0 <= hour <= 23 && 0 <= minute <= 59 && wall == day * DAY_MS + (hour * 3600000 + minute * 60000)
    ensures PartsOfWall(wall) == Parts(DateOf(day), hour, minute, 0)
  {
    SplitDay(day, hour * 3600000 + minute * 60000);
    SplitRest(hour, minute);
  }

  lemma {:induction false} WholeMinutes(wall: int, day: int, minutes: int)
    requires wall == day * DAY_MS + minutes * 60000
    ensures wall % 1000 == 0
  {
    assert wall == (day * 86400 + minutes * 60) * 1000;
  }

  /** A wall time splits back into the date, hour and minute it was made of. */
  lemma {:induction false} WallSplits(w: WallTime)
    requires w.date.y >= 100 && 0 <= w.hour <= 23 && 0 <= w.minute <= 59
    ensures PartsOfWall(WallOf(w)) == Parts(w.date, w.hour, w.minute, 0)
    ensures WallOf(w) % 1000 == 0
  {
    WallIsDayAndTime(w);
    PartsAt(WallOf(w), DayNumber(w.date), w.hour, w.minute);
    DateOfDayNumber(w.date);
    WholeMinutes(WallOf(w), DayNumber(w.date), w.hour * 60 + w.minute);
  }

  lemma {:induction false} ReadsBack(zone: Zone, w: WallTime, t: int)
    requires w.date.y >= 100 && 0 <= w.hour <= 23 && 0 <= w.minute <= 59 && ReadsAs(t, zone, WallOf(w))
    ensures ZonedParts(t, zone) == Parts(w.date, w.hour, w.minute, 0)
  {
    WallSplits(w);
  }

  /**
   A minute-precision input outside a clock gap comes back unchanged after the conversion to an instant and
   back, as long as no instant involved can fall before the year 100.
   */
  lemma {:induction false} InputRoundTrip(v: string, zone: Zone, max: int)
    requires ParseInput(v).Some? && max >= 0
    requires var wall := WallOf(ParseInput(v).value);
      && wall - 2 * max >= YEAR_100
      && OneTransition(zone, wall, max) && ReadableNear(zone, wall, max)
    ensures var t := LocalInputToIso(v, zone);
      && t.Some? && FourDigitYear(ZonedParts(t.value, zone).date)
      && IsoToLocalInput(t, zone) == v[..16]
  {
    var w := ParseInput(v).value;
    ParsePrints(v);
    WallSplits(w);
    WallTimeFound(zone, WallOf(w), max);
    ReadsBack(zone, w, WallInstant(WallOf(w), zone));
  }
}
