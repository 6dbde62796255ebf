/**
 The proleptic Gregorian calendar (section 5.7 and Appendix C of RFC 3339) with day numbers counted from
 1970-01-01, and the civil date arithmetic of apps/api/src/domain/civil-date.ts on top of it.
 */
module Calendar {
  datatype Date = Date(y: int, m: int, d: int)

  predicate Leap(y: int) { y % 4 == 0 && (y % 100 != 0 || y % 400 == 0) }

  function DaysInMonth(y: int, m: int): (n: int)
    requires 1 <= m <= 12
    ensures 28 <= n <= 31
  {
    if m == 2 then (if Leap(y) then 29 else 28) else if m == 4 || m == 6 || m == 9 || m == 11 then 30 else 31
  }

  lemma {:induction false} FourCenturies(q: int)
    ensures 400 * q % 4 == 0
  {
    assert 400 * q == 4 * (100 * q);
  }

  lemma {:induction false} LeapMeans(y: int)
    ensures Leap(y) <==> (y % 4 == 0 && y % 100 != 0) || y % 400 == 0
  {
    FourCenturies(y / 400);
    assert y % 400 == 0 ==> y == 400 * (y / 400);
  }

  /** The lengths of the months, February having a day more in the years that 4 divides, but 100 only if 400 does. */
  lemma {:induction false} MonthLengths(y: int, m: int)
    requires 1 <= m <= 12
    ensures DaysInMonth(y, m) == 31 <==> m in {1, 3, 5, 7, 8, 10, 12}
    ensures DaysInMonth(y, m) == 30 <==> m in {4, 6, 9, 11}
    ensures DaysInMonth(y, 2) == 29 <==> (y % 4 == 0 && y % 100 != 0) || y % 400 == 0
    ensures DaysInMonth(y, 2) == 28 || DaysInMonth(y, 2) == 29
  {
    LeapMeans(y);
  }

  predicate Valid(c: Date) { 1 <= c.m <= 12 && 1 <= c.d <= DaysInMonth(c.y, c.m) }

  /** A civil date. */
  type Civil = c: Date | Valid(c) witness Date(1970, 1, 1)

  // ---------------------------------------------------------------- day numbers

  function YearLength(y: int): int { if Leap(y) then 366 else 365 }

  /** Days from 0001-01-01 to the first day of the year. */
  function DaysBeforeYear(y: int): int {
    365 * (y - 1) + (y - 1) / 4 - (y - 1) / 100 + (y - 1) / 400
  }

  function DaysBeforeMonth(y: int, m: int): int
    requires 1 <= m <= 13
  {
    if m == 1 then 0 else DaysBeforeMonth(y, m - 1) + DaysInMonth(y, m - 1)
  }

  const EPOCH := 719162

  function DayNumber(c: Civil): int { DaysBeforeYear(c.y) + DaysBeforeMonth(c.y, c.m) + c.d - 1 - EPOCH }

  function NextDay(c: Civil): Civil {
    if c.d < DaysInMonth(c.y, c.m) then Date(c.y, c.m, c.d + 1)
    else if c.m < 12 then Date(c.y, c.m + 1, 1)
    else Date(c.y + 1, 1, 1)
  }

  function PreviousDay(c: Civil): Civil {
    if c.d > 1 then Date(c.y, c.m, c.d - 1)
    else if c.m > 1 then Date(c.y, c.m - 1, DaysInMonth(c.y, c.m - 1))
    else Date(c.y - 1, 12, 31)
  }

  lemma {:induction false} MonthsOfYear(y: int)
    ensures DaysBeforeMonth(y, 12) == YearLength(y) - 31
    ensures DaysBeforeMonth(y, 13) == YearLength(y)
  {
    var feb := DaysInMonth(y, 2);
    assert DaysBeforeMonth(y, 1) == 0;
    assert DaysBeforeMonth(y, 2) == 31;
    assert DaysBeforeMonth(y, 3) == 31 + feb;
    assert DaysBeforeMonth(y, 4) == 62 + feb;
    assert DaysBeforeMonth(y, 5) == 92 + feb;
    assert DaysBeforeMonth(y, 6) == 123 + feb;
    assert DaysBeforeMonth(y, 7) == 153 + feb;
    assert DaysBeforeMonth(y, 8) == 184 + feb;
    assert DaysBeforeMonth(y, 9) == 215 + feb;
    assert DaysBeforeMonth(y, 10) == 245 + feb;
    assert DaysBeforeMonth(y, 11) == 276 + feb;
    assert DaysBeforeMonth(y, 12) == 306 + feb;
  }

  lemma {:induction false} FourthStep(y: int)
    ensures y / 4 - (y - 1) / 4 == if y % 4 == 0 then 1 else 0
  {
  }

  lemma {:induction false} CenturyStep(y: int)
    ensures y / 100 - (y - 1) / 100 == if y % 100 == 0 then 1 else 0
    ensures y / 400 - (y - 1) / 400 == if y % 400 == 0 then 1 else 0
  {
  }

  lemma {:induction false} YearStep(y: int)
    ensures DaysBeforeYear(y + 1) == DaysBeforeYear(y) + YearLength(y)
  {
    FourthStep(y);
    CenturyStep(y);
    assert y % 400 == 0 ==> y % 100 == 0;
    assert y % 100 == 0 ==> y % 4 == 0;
  }

  lemma {:induction false} NextDayNumber(c: Civil)
    ensures DayNumber(NextDay(c)) == DayNumber(c) + 1
  {
    YearStep(c.y);
    MonthsOfYear(c.y);
  }

  lemma {:induction false} PreviousDayNumber(c: Civil)
    ensures DayNumber(PreviousDay(c)) == DayNumber(c) - 1
  {
    NextDayNumber(PreviousDay(c));
    assert NextDay(PreviousDay(c)) == c;
  }

  /** The civil date with a given day number. */
  function DateOf(n: int): (c: Civil)
    ensures DayNumber(c) == n
    decreases if n < 0 then -n else n
  {
    if n == 0 then
      assert DayNumber(Date(1970, 1, 1)) == 0;
      Date(1970, 1, 1)
    else if n > 0 then
      NextDayNumber(DateOf(n - 1));
      NextDay(DateOf(n - 1))
    else
      PreviousDayNumber(DateOf(n + 1));
      PreviousDay(DateOf(n + 1))
  }

  // ---------------------------------------------------------------- order

  /** Year, then month, then day: the order of AAAA-MM-JJ texts. */
  predicate Earlier(a: Date, b: Date) {
    a.y < b.y || (a.y == b.y && (a.m < b.m || (a.m == b.m && a.d < b.d)))
  }

  lemma {:induction false} MonthsGrow(y: int, m: int, m': int)
    requires 1 <= m <= m' <= 13
    ensures DaysBeforeMonth(y, m) + 28 * (m' - m) <= DaysBeforeMonth(y, m')
    decreases m' - m
  {
    if m < m' {
      MonthsGrow(y, m, m' - 1);
    }
  }

  lemma {:induction false} WithinYear(c: Civil)
    ensures 0 <= DaysBeforeMonth(c.y, c.m) + c.d - 1 < YearLength(c.y)
  {
    MonthsGrow(c.y, 1, c.m);
    MonthsGrow(c.y, c.m + 1, 13);
    MonthsOfYear(c.y);
  }

  lemma {:induction false} YearsGrow(y: int, y': int)
    requires y <= y'
    ensures DaysBeforeYear(y) <= DaysBeforeYear(y')
    decreases y' - y
  {
    if y < y' {
      YearsGrow(y, y' - 1);
      YearStep(y' - 1);
    }
  }

  lemma {:induction false} EarlierHasSmallerNumber(a: Civil, b: Civil)
    requires Earlier(a, b)
    ensures DayNumber(a) < DayNumber(b)
  {
    WithinYear(a);
    WithinYear(b);
    if a.y < b.y {
      YearStep(a.y);
      YearsGrow(a.y + 1, b.y);
    } else if a.m < b.m {
      MonthsGrow(a.y, a.m + 1, b.m);
    }
  }

  /** Chronological order is the order by year, month and day. */
  lemma {:induction false} OrderIsDayOrder(a: Civil, b: Civil)
    ensures Earlier(a, b) <==> DayNumber(a) < DayNumber(b)
    ensures a == b <==> DayNumber(a) == DayNumber(b)
  {
    if Earlier(a, b) {
      EarlierHasSmallerNumber(a, b);
    } else if Earlier(b, a) {
      EarlierHasSmallerNumber(b, a);
    }
  }

  /** Civil dates and day numbers correspond one to one. */
  lemma {:induction false} DateOfDayNumber(c: Civil)
    ensures DateOf(DayNumber(c)) == c
  {
    OrderIsDayOrder(DateOf(DayNumber(c)), c);
  }

  /** 0 is Sunday; 1970-01-01 was a Thursday. */
  function Weekday(n: int): (w: int)
    ensures 0 <= w < 7
  {
    (n + 4) % 7
  }

  /** 1970-01-01 was a Thursday, and the weekdays follow one another. */
  lemma {:induction false} WeekdaysFollow(n: int)
    ensures Weekday(DayNumber(Date(1970, 1, 1))) == 4
    ensures Weekday(n + 1) == (if Weekday(n) == 6 then 0 else Weekday(n) + 1)
  {
  }

  // ---------------------------------------------------------------- civil date arithmetic

  function MonthIndex(c: Date): int { 12 * c.y + c.m - 1 }

  /** The calendar library: month and year move, the day is lowered to the end of a shorter month. */
  function PlusMonths(c: Civil, months: int): Civil {
    var k := MonthIndex(c) + months;
    var y, m := k / 12, k % 12 + 1;
    Date(y, m, if c.d <= DaysInMonth(y, m) then c.d else DaysInMonth(y, m))
  }

  /** With the explicit check of the program: a day lost to a shorter month is its last day. */
  function AddCalendarMonths(c: Civil, months: int): Civil {
    var target := PlusMonths(c, months);
    var length := DaysInMonth(target.y, target.m);
    if target.d < c.d && length < c.d then Date(target.y, target.m, length) else target
  }

  function AddDays(c: Civil, days: int): Civil { DateOf(DayNumber(c) + days) }

  function DiffDays(a: Civil, b: Civil): int { DayNumber(b) - DayNumber(a) }

  /** Day number of the first day of a month, by month index. */
  function MonthStart(k: int): int { DayNumber(Date(k / 12, k % 12 + 1, 1)) }

  function MonthLength(k: int): int { DaysInMonth(k / 12, k % 12 + 1) }

  lemma {:induction false} MonthStep(k: int)
    ensures MonthStart(k + 1) == MonthStart(k) + MonthLength(k)
  {
    var y, m := k / 12, k % 12 + 1;
    if m == 12 {
      YearStep(y);
      MonthsOfYear(y);
      assert (k + 1) / 12 == y + 1 && (k + 1) % 12 == 0;
    } else {
      assert (k + 1) / 12 == y && (k + 1) % 12 == m;
    }
  }

  lemma {:induction false} MonthsAdvance(k: int, n: nat)
    ensures MonthStart(k + n) >= MonthStart(k) + 28 * n
    ensures n > 0 ==> MonthStart(k + n) >= MonthStart(k) + MonthLength(k) + 28 * (n - 1)
    decreases n
  {
    if n > 0 {
      MonthsAdvance(k, n - 1);
      MonthStep(k + n - 1);
    }
  }

  lemma {:induction false} NumberInMonth(c: Civil)
    ensures MonthIndex(c) / 12 == c.y && MonthIndex(c) % 12 + 1 == c.m
    ensures DayNumber(c) == MonthStart(MonthIndex(c)) + c.d - 1
    ensures c.d <= MonthLength(MonthIndex(c))
  {
  }

  lemma {:induction false} AddMonthsLands(c: Civil, months: int)
    ensures var r, k := AddCalendarMonths(c, months), MonthIndex(c) + months;
      && MonthIndex(r) == k
      && r.d == (if c.d <= MonthLength(k) then c.d else MonthLength(k))
      && DayNumber(r) == MonthStart(k) + r.d - 1
  {
    NumberInMonth(AddCalendarMonths(c, months));
  }

  /** The result is so many months on, on the same day or on the last one of a shorter month. */
  lemma {:induction false} AddMonthsMeans(c: Civil, months: int)
    ensures var r := AddCalendarMonths(c, months);
      && 12 * r.y + r.m == 12 * c.y + c.m + months
      && (r.d == c.d || (r.d < c.d && r.d == DaysInMonth(r.y, r.m)))
  {
    AddMonthsLands(c, months);
    NumberInMonth(AddCalendarMonths(c, months));
  }

  /** Months count for at least 28 days each, although the end of a month may be cut short. */
  lemma {:induction false} AddMonthsAdvances(c: Civil, months: nat)
    ensures DayNumber(AddCalendarMonths(c, months)) >= DayNumber(c) + 28 * months
    ensures months == 0 ==> AddCalendarMonths(c, months) == c
  {
    AddMonthsLands(c, months);
    NumberInMonth(c);
    MonthsAdvance(MonthIndex(c), months);
  }

  lemma {:induction false} MonthsInOrder(a: Civil, b: Civil)
    requires DayNumber(a) <= DayNumber(b)
    ensures MonthIndex(a) < MonthIndex(b) || (MonthIndex(a) == MonthIndex(b) && a.d <= b.d)
  {
    OrderIsDayOrder(b, a);
  }

  lemma {:induction false} LaterMonth(a: Civil, b: Civil)
    requires MonthIndex(a) < MonthIndex(b)
    ensures DayNumber(a) < DayNumber(b)
  {
    NumberInMonth(a);
    NumberInMonth(b);
    MonthsAdvance(MonthIndex(a), MonthIndex(b) - MonthIndex(a));
  }

  lemma {:induction false} SameMonth(a: Civil, b: Civil)
    requires MonthIndex(a) == MonthIndex(b) && a.d <= b.d
    ensures DayNumber(a) <= DayNumber(b)
  {
    NumberInMonth(a);
    NumberInMonth(b);
  }

  /** A later date never leads to an earlier due date. */
  lemma {:induction false} AddMonthsMonotone(a: Civil, b: Civil, months: int)
    requires DayNumber(a) <= DayNumber(b)
    ensures DayNumber(AddCalendarMonths(a, months)) <= DayNumber(AddCalendarMonths(b, months))
  {
    MonthsInOrder(a, b);
    AddMonthsLands(a, months);
    AddMonthsLands(b, months);
    if MonthIndex(a) < MonthIndex(b) {
      LaterMonth(AddCalendarMonths(a, months), AddCalendarMonths(b, months));
    } else {
      SameMonth(AddCalendarMonths(a, months), AddCalendarMonths(b, months));
    }
  }

  lemma {:induction false} AddDaysExact(c: Civil, days: int)
    ensures DiffDays(c, AddDays(c, days)) == days
    ensures AddDays(AddDays(c, days), -days) == c
  {
    DateOfDayNumber(c);
  }
}
