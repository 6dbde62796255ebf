/**
 The month grid of the due-date calendar (apps/web/lib/maintenance-calendar.ts) on the civil date functions of
 apps/web/lib/zoned-time.ts, which read and compare dates as texts.
 */
module MonthGrid {
  import opened Wrappers
  import opened Sorting
  import opened Calendar
  import opened CivilText

  datatype Item = Item(date: Civil, reference: string)

  datatype Slot = Slot(due: seq<Item>, interventions: seq<Item>)

  datatype CalendarDay = CalendarDay(date: Civil, inMonth: bool, due: seq<Item>, interventions: seq<Item>)

  // ---------------------------------------------------------------- dates as texts

  function Decimal(n: nat): string {
    if n < 10 then [Digit(n)] else Decimal(n / 10) + [Digit(n % 10)]
  }

  function YearText(y: int): string
    requires y >= 0
  {
    if y <= 9999 then Pad4(y) else Decimal(y)
  }

  /** A date as the program writes it, years beyond 9999 included. */
  function DateText(c: Civil): string
    requires c.y >= 0
  {
    YearText(c.y) + (['-'] + (Pad2(c.m) + (['-'] + Pad2(c.d))))
  }

  /** The text comparison of two dates. */
  predicate TextLess(a: Civil, b: Civil)
    requires a.y >= 0 && b.y >= 0
  {
    !StringLe(DateText(b), DateText(a))
  }

  /** Dates the program recognizes: four digits, and not a year that `Date.UTC` takes for one after 1900. */
  predicate Readable(c: Civil) { 100 <= c.y <= 9999 }

  /** An unrecognized date is returned as it is. */
  function AddCivilDays(c: Civil, days: int): Civil { if Readable(c) then AddDays(c, days) else c }

  function StartOfMonth(c: Civil, months: int): Civil {
    if !Readable(c) then c
    else
      var k := MonthIndex(c) + months;
      Date(k / 12, k % 12 + 1, 1)
  }

  function StartOfWeek(c: Civil): Civil {
    if !Readable(c) then c else AddCivilDays(c, -((Weekday(DayNumber(c)) + 6) % 7))
  }

  lemma {:induction false} ReadableByNumber(c: Civil)
    ensures Readable(c) <==> DayNumber(Date(100, 1, 1)) <= DayNumber(c) <= DayNumber(Date(9999, 12, 31))
  {
    OrderIsDayOrder(c, Date(100, 1, 1));
    OrderIsDayOrder(Date(9999, 12, 31), c);
  }

  lemma {:induction false} LessIsEarlier(a: Civil, b: Civil)
    requires FourDigitYear(a) && FourDigitYear(b)
    ensures TextLess(a, b) <==> DayNumber(a) < DayNumber(b)
  {
    TextOrder(b, a);
  }

  // ---------------------------------------------------------------- grouping by date

  function OnDate(date: Civil): Item -> bool { (i: Item) => i.date == date }

  ghost predicate Grouped(m: map<Civil, Slot>, due: seq<Item>, interventions: seq<Item>) {
    && (forall d :: d in m <==> |Filter(OnDate(d), due)| > 0 || |Filter(OnDate(d), interventions)| > 0)
    && (forall d :: d in m ==> m[d] == Slot(Filter(OnDate(d), due), Filter(OnDate(d), interventions)))
  }

  function SlotAt(m: map<Civil, Slot>, d: Civil): Slot { if d in m then m[d] else Slot([], []) }

  lemma {:induction false} OneMoreOn(d: Civil, items: seq<Item>, k: nat)
    requires k < |items|
    ensures Filter(OnDate(d), items[..k + 1]) == if items[k].date == d then Filter(OnDate(d), items[..k]) + [items[k]]
      else Filter(OnDate(d), items[..k])
  {
    assert items[..k + 1] == items[..k] + [items[k]];
    FilterAppend(OnDate(d), items[..k], [items[k]]);
    assert [items[k]][1..] == [];
    assert Filter(OnDate(d), [items[k]]) == if items[k].date == d then [items[k]] else [];
  }

  lemma {:induction false} OneMoreDue(m: map<Civil, Slot>, due: seq<Item>, k: nat, interventions: seq<Item>)
    requires k < |due| && Grouped(m, due[..k], interventions)
    ensures var d := due[k].date; var slot := SlotAt(m, d);
      Grouped(m[d := slot.(due := slot.due + [due[k]])], due[..k + 1], interventions)
  {
    forall d { OneMoreOn(d, due, k); }
  }

  lemma {:induction false} OneMoreIntervention(m: map<Civil, Slot>, due: seq<Item>, interventions: seq<Item>, k: nat)
    requires k < |interventions| && Grouped(m, due, interventions[..k])
    ensures var d := interventions[k].date; var slot := SlotAt(m, d);
      Grouped(m[d := slot.(interventions := slot.interventions + [interventions[k]])], due, interventions[..k + 1])
  {
    forall d { OneMoreOn(d, interventions, k); }
  }

  method GroupByDate(due: seq<Item>, interventions: seq<Item>) returns (byDate: map<Civil, Slot>)
    ensures Grouped(byDate, due, interventions)
  {
    byDate := map[];
    for k := 0 to |due|
      invariant Grouped(byDate, due[..k], [])
    {
      var item := due[k];
      OneMoreDue(byDate, due, k, []);
      var slot := SlotAt(byDate, item.date);
      byDate := byDate[item.date := slot.(due := slot.due + [item])];
    }
    assert due[..|due|] == due;
    for k := 0 to |interventions|
      invariant Grouped(byDate, due, interventions[..k])
    {
      var item := interventions[k];
      OneMoreIntervention(byDate, due, interventions, k);
      var slot := SlotAt(byDate, item.date);
      byDate := byDate[item.date := slot.(interventions := slot.interventions + [item])];
    }
    assert interventions[..|interventions|] == interventions;
  }

  // ---------------------------------------------------------------- the grid

  datatype Month = Month(y: int, m: int)

  predicate IsCalendarMonth(month: Month) { 0 <= month.y <= 9999 && 1 <= month.m <= 12 }

  function FirstDay(month: Month): Civil
    requires IsCalendarMonth(month)
  {
    Date(month.y, month.m, 1)
  }

  function MonthText(month: Month): string
    requires IsCalendarMonth(month)
  {
    Pad4(month.y) + (['-'] + Pad2(month.m))
  }

  /** `cursor.startsWith(month)` */
  predicate StartsWithMonth(c: Civil, month: Month)
    requires c.y >= 0 && IsCalendarMonth(month)
  {
    MonthText(month) <= DateText(c)
  }

  predicate InMonth(c: Civil, month: Month) { c.y == month.y && c.m == month.m }

  lemma {:induction false} StartsWithIsInMonth(c: Civil, month: Month)
    requires FourDigitYear(c) && IsCalendarMonth(month)
    ensures StartsWithMonth(c, month) <==> InMonth(c, month)
  {
    Pad4Order(c.y, month.y);
    Pad2Order(c.m, month.m);
    var t, p := DateText(c), MonthText(month);
    assert t[..4] == Pad4(c.y) && t[4] == '-' && t[5..7] == Pad2(c.m);
    assert p[..4] == Pad4(month.y) && p[4] == '-' && p[5..7] == Pad2(month.m);
    if StartsWithMonth(c, month) {
      assert t[..7] == p;
      assert t[..7][..4] == t[..4] && t[..7][5..7] == t[5..7];
    }
    if InMonth(c, month) {
      assert t[..7] == p;
    }
  }

  /** The cell of a date. */
  function CellFor(date: Civil, month: Month, due: seq<Item>, interventions: seq<Item>): CalendarDay {
    if InMonth(date, month) then CalendarDay(date, true, Filter(OnDate(date), due), Filter(OnDate(date), interventions))
    else CalendarDay(date, false, [], [])
  }

  /** Seven consecutive days from the given one. */
  ghost predicate WeekRight(week: seq<CalendarDay>, from: int, month: Month, due: seq<Item>, interventions: seq<Item>) {
    |week| == 7 && forall j :: 0 <= j < 7 ==> week[j] == CellFor(DateOf(from + j), month, due, interventions)
  }

  /** Consecutive weeks from the given day. */
  ghost predicate WeeksRight(
      weeks: seq<seq<CalendarDay>>, from: int, month: Month, due: seq<Item>, interventions: seq<Item>) {
    forall i :: 0 <= i < |weeks| ==> WeekRight(weeks[i], from + 7 * i, month, due, interventions)
  }

  /** The month is displayed: its first day can be read and the first day after it has four digits. */
  predicate Displayable(month: Month)
    requires IsCalendarMonth(month)
  {
    month.y >= 100 && !(month.y == 9999 && month.m == 12)
  }

  function Monday(month: Month): int
    requires IsCalendarMonth(month)
  {
    DayNumber(FirstDay(month)) - (Weekday(DayNumber(FirstDay(month))) + 6) % 7
  }

  function NextMonth(month: Month): Civil
    requires IsCalendarMonth(month)
  {
    StartOfMonth(FirstDay(month), 1)
  }

  /** The loop has built the weeks before the cursor. */
  ghost predicate Progress(
      weeks: seq<seq<CalendarDay>>, cursor: Civil, month: Month, due: seq<Item>, interventions: seq<Item>)
    requires IsCalendarMonth(month)
  {
    && Readable(cursor) && DayNumber(cursor) == Monday(month) + 7 * |weeks|
    && WeeksRight(weeks, Monday(month), month, due, interventions)
    && (|weeks| > 0 ==> Monday(month) + 7 * (|weeks| - 1) < DayNumber(NextMonth(month)))
  }

  /** A grid as it should be for a displayable month. */
  ghost predicate Grid(weeks: seq<seq<CalendarDay>>, month: Month, due: seq<Item>, interventions: seq<Item>)
    requires IsCalendarMonth(month)
  {
    && WeeksRight(weeks, Monday(month), month, due, interventions)
    && |weeks| > 0
    && Monday(month) + 7 * (|weeks| - 1) < DayNumber(NextMonth(month)) <= Monday(month) + 7 * |weeks|
  }

  lemma {:induction false} EarlyYear(month: Month)
    requires IsCalendarMonth(month) && month.y < 100
    ensures StartOfWeek(FirstDay(month)) == FirstDay(month) == NextMonth(month)
    ensures !TextLess(FirstDay(month), FirstDay(month))
  {
    LessIsEarlier(FirstDay(month), FirstDay(month));
  }

  lemma {:induction false} MondayBefore(n: int)
    ensures n - 6 <= n - (Weekday(n) + 6) % 7 <= n
    ensures Weekday(n - (Weekday(n) + 6) % 7) == 1
  {
  }

  lemma {:induction false} FirstMonday(month: Month)
    requires IsCalendarMonth(month)
    ensures DayNumber(FirstDay(month)) - 6 <= Monday(month) <= DayNumber(FirstDay(month))
    ensures Weekday(Monday(month)) == 1
  {
    MondayBefore(DayNumber(FirstDay(month)));
  }

  lemma {:induction false} AfterJanuary100(month: Month)
    requires IsCalendarMonth(month) && month.y >= 100 && month != Month(100, 1)
    ensures DayNumber(FirstDay(month)) >= DayNumber(Date(100, 1, 1)) + 31
  {
    OrderIsDayOrder(FirstDay(month), Date(100, 2, 1));
    NumberInMonth(Date(100, 2, 1));
    MonthStep(1200);
    NumberInMonth(Date(100, 1, 1));
  }

  lemma {:induction false} WeekStart(month: Month)
    requires IsCalendarMonth(month) && month.y >= 100 && month != Month(100, 1)
    ensures DayNumber(StartOfWeek(FirstDay(month))) == Monday(month) && Readable(StartOfWeek(FirstDay(month)))
  {
    FirstMonday(month);
    AfterJanuary100(month);
    ReadableByNumber(FirstDay(month));
    ReadableByNumber(StartOfWeek(FirstDay(month)));
  }

  lemma {:induction false} PlaceInYear(y: int, m: int)
    requires 1 <= m <= 12
    ensures (12 * y + m - 1) / 12 == y && (12 * y + m - 1) % 12 + 1 == m
  {
  }

  lemma {:induction false} StartsOfMonths(month: Month, k: int)
    requires IsCalendarMonth(month) && month.y >= 100 && k == 12 * month.y + month.m - 1
    ensures MonthStart(k) == DayNumber(FirstDay(month)) && MonthStart(k + 1) == DayNumber(NextMonth(month))
    ensures MonthLength(k) == DaysInMonth(month.y, month.m)
  {
    PlaceInYear(month.y, month.m);
    assert NextMonth(month) == Date((k + 1) / 12, (k + 1) % 12 + 1, 1);
  }

  lemma {:induction false} NextMonthNumber(month: Month)
    requires IsCalendarMonth(month) && month.y >= 100
    ensures DayNumber(NextMonth(month)) == DayNumber(FirstDay(month)) + DaysInMonth(month.y, month.m)
  {
    var k := 12 * month.y + month.m - 1;
    StartsOfMonths(month, k);
    MonthStep(k);
  }

  lemma {:induction false} NextMonthFollows(month: Month)
    requires IsCalendarMonth(month) && Displayable(month)
    ensures FourDigitYear(NextMonth(month)) && Readable(NextMonth(month))
    ensures DayNumber(NextMonth(month)) == DayNumber(FirstDay(month)) + DaysInMonth(month.y, month.m)
    ensures DayNumber(NextMonth(month)) + 31 <= DayNumber(Date(9999, 12, 31)) + 1
  {
    NextMonthNumber(month);
    ReadableByNumber(NextMonth(month));
    OrderIsDayOrder(Date(9999, 12, 1), NextMonth(month));
    NumberInMonth(Date(9999, 12, 1));
    NumberInMonth(Date(9999, 12, 31));
  }

  lemma {:induction false} LastYear(cursor: Civil)
    requires DayNumber(cursor) >= DayNumber(Date(9999, 12, 1)) - 6 && FourDigitYear(cursor)
    ensures cursor.y == 9999
  {
    OrderIsDayOrder(cursor, Date(9999, 11, 1));
    NumberInMonth(Date(9999, 11, 1));
    NumberInMonth(Date(9999, 12, 1));
    MonthStep(12 * 9999 + 10);
  }

  lemma {:induction false} TenThousand()
    ensures DateText(Date(10000, 1, 1))[0] == Digit(1)
  {
    assert Decimal(10000)[0] == Digit(1) by {
      assert Decimal(1) == [Digit(1)];
      assert Decimal(10) == [Digit(1)] + [Digit(0)];
      assert Decimal(100) == Decimal(10) + [Digit(0)];
      assert Decimal(1000) == Decimal(100) + [Digit(0)];
      assert Decimal(10000) == Decimal(1000) + [Digit(0)];
    }
  }

  /** "10000-01-01" comes before every date from the year 2000 on, as a text. */
  lemma {:induction false} EndOfDecember9999(cursor: Civil)
    requires DayNumber(cursor) >= DayNumber(Date(9999, 12, 1)) - 6 && FourDigitYear(cursor)
    ensures !TextLess(cursor, Date(10000, 1, 1))
  {
    LastYear(cursor);
    TenThousand();
    DigitOrder(1, 9);
    assert DateText(cursor)[0] == Digit(9);
  }

  lemma {:induction false} December9999(month: Month)
    requires month == Month(9999, 12)
    ensures NextMonth(month) == Date(10000, 1, 1)
    ensures StartOfWeek(FirstDay(month)).y >= 0 && !TextLess(StartOfWeek(FirstDay(month)), NextMonth(month))
  {
    WeekStart(month);
    FirstMonday(month);
    EndOfDecember9999(StartOfWeek(FirstDay(month)));
  }

  lemma {:induction false} CursorStart(month: Month)
    requires IsCalendarMonth(month) && month != Month(100, 1)
    ensures StartOfWeek(FirstDay(month)).y >= 0 && NextMonth(month).y >= 0
    ensures month.y >= 100 ==>
      DayNumber(StartOfWeek(FirstDay(month))) == Monday(month) && Readable(StartOfWeek(FirstDay(month)))
    ensures !Displayable(month) ==> !TextLess(StartOfWeek(FirstDay(month)), NextMonth(month))
    ensures Displayable(month) ==>
      Monday(month) <= DayNumber(NextMonth(month)) && TextLess(StartOfWeek(FirstDay(month)), NextMonth(month))
  {
    if month.y < 100 {
      EarlyYear(month);
    } else {
      WeekStart(month);
      if Displayable(month) {
        FirstMonday(month);
        NextMonthFollows(month);
        LessIsEarlier(StartOfWeek(FirstDay(month)), NextMonth(month));
      } else {
        December9999(month);
      }
    }
  }

  lemma {:induction false} CursorBelow(month: Month, cursor: Civil)
    requires IsCalendarMonth(month) && cursor.y >= 0 && NextMonth(month).y >= 0 && TextLess(cursor, NextMonth(month))
    requires Displayable(month) && Readable(cursor)
    ensures DayNumber(cursor) < DayNumber(NextMonth(month))
    ensures DayNumber(cursor) + 7 <= DayNumber(Date(9999, 12, 31))
  {
    NextMonthFollows(month);
    LessIsEarlier(cursor, NextMonth(month));
  }

  /** The days built so far are consecutive cells from the given one. */
  ghost predicate DaysRight(days: seq<CalendarDay>, from: int, month: Month, due: seq<Item>, interventions: seq<Item>) {
    forall j :: 0 <= j < |days| ==> days[j] == CellFor(DateOf(from + j), month, due, interventions)
  }

  lemma {:induction false} DaysOneMore(
      days: seq<CalendarDay>, day: CalendarDay, date: Civil, from: int, month: Month, due: seq<Item>,
      interventions: seq<Item>)
    requires DaysRight(days, from, month, due, interventions) && DayNumber(date) == from + |days|
    requires day == CellFor(date, month, due, interventions)
    ensures DaysRight(days + [day], from, month, due, interventions)
  {
    DateOfDayNumber(date);
  }

  lemma {:induction false} DayAfter(c: Civil)
    requires Readable(c) && DayNumber(c) < DayNumber(Date(9999, 12, 31))
    ensures Readable(AddCivilDays(c, 1)) && DayNumber(AddCivilDays(c, 1)) == DayNumber(c) + 1
  {
    ReadableByNumber(c);
    ReadableByNumber(AddCivilDays(c, 1));
  }

  method BuildDay(
      cursor: Civil, month: Month, byDate: map<Civil, Slot>, ghost due: seq<Item>, ghost interventions: seq<Item>)
    returns (day: CalendarDay)
    requires IsCalendarMonth(month) && Readable(cursor) && Grouped(byDate, due, interventions)
    ensures day == CellFor(cursor, month, due, interventions)
  {
    var inMonth := StartsWithMonth(cursor, month);
    var items := if inMonth && cursor in byDate then Some(byDate[cursor]) else None;
    day := CalendarDay(cursor, inMonth, if items.Some? then items.value.due else [],
      if items.Some? then items.value.interventions else []);
    StartsWithIsInMonth(cursor, month);
  }

  /** One turn of the outer loop: seven days, the cursor moving on. */
  method BuildWeek(
      from: Civil, month: Month, byDate: map<Civil, Slot>, ghost due: seq<Item>, ghost interventions: seq<Item>)
    returns (week: seq<CalendarDay>, cursor: Civil)
    requires IsCalendarMonth(month) && Readable(from) && DayNumber(from) + 7 <= DayNumber(Date(9999, 12, 31))
    requires Grouped(byDate, due, interventions)
    ensures WeekRight(week, DayNumber(from), month, due, interventions)
    ensures Readable(cursor) && DayNumber(cursor) == DayNumber(from) + 7
  {
    week, cursor := [], from;
    for i := 0 to 7
      invariant |week| == i && Readable(cursor) && DayNumber(cursor) == DayNumber(from) + i
      invariant DaysRight(week, DayNumber(from), month, due, interventions)
    {
      var day := BuildDay(cursor, month, byDate, due, interventions);
      DaysOneMore(week, day, cursor, DayNumber(from), month, due, interventions);
      week := week + [day];
      DayAfter(cursor);
      cursor := AddCivilDays(cursor, 1);
    }
  }

  lemma {:induction false} WeeksOneMore(
      weeks: seq<seq<CalendarDay>>, week: seq<CalendarDay>, from: int, month: Month, due: seq<Item>,
      interventions: seq<Item>)
    requires WeeksRight(weeks, from, month, due, interventions) &&
      WeekRight(week, from + 7 * |weeks|, month, due, interventions)
    ensures WeeksRight(weeks + [week], from, month, due, interventions)
  {
    var all := weeks + [week];
    forall i | 0 <= i < |all| ensures WeekRight(all[i], from + 7 * i, month, due, interventions) {
      if i < |weeks| {
        assert WeekRight(weeks[i], from + 7 * i, month, due, interventions);
      }
    }
  }

  lemma {:induction false} OneMoreWeek(
      weeks: seq<seq<CalendarDay>>, week: seq<CalendarDay>, before: Civil, after: Civil, month: Month,
      due: seq<Item>, interventions: seq<Item>)
    requires IsCalendarMonth(month) && Progress(weeks, before, month, due, interventions)
    requires WeekRight(week, DayNumber(before), month, due, interventions)
    requires Readable(after) && DayNumber(after) == DayNumber(before) + 7 &&
      DayNumber(before) < DayNumber(NextMonth(month))
    ensures Progress(weeks + [week], after, month, due, interventions)
  {
    WeeksOneMore(weeks, week, Monday(month), month, due, interventions);
  }

  /** For the month 0100-01 the loop of the program does not end, see `StuckInJanuary100`. */
  method BuildMonthGrid(month: Month, due: seq<Item>, interventions: seq<Item>) returns (weeks: seq<seq<CalendarDay>>)
    requires IsCalendarMonth(month) && month != Month(100, 1)
    ensures Displayable(month) ==> Grid(weeks, month, due, interventions)
    ensures !Displayable(month) ==> weeks == []
  {
    var nextMonth := NextMonth(month);
    var byDate := GroupByDate(due, interventions);
    weeks := [];
    var cursor := StartOfWeek(FirstDay(month));
    CursorStart(month);
    while TextLess(cursor, nextMonth)
      invariant cursor.y >= 0
      invariant !Displayable(month) ==> weeks == [] && !TextLess(cursor, nextMonth)
      invariant Displayable(month) ==> Progress(weeks, cursor, month, due, interventions)
      invariant |weeks| == 0 && Displayable(month) ==> TextLess(cursor, nextMonth)
      decreases DayNumber(nextMonth) - DayNumber(cursor)
    {
      CursorBelow(month, cursor);
      var week: seq<CalendarDay>;
      ghost var before := cursor;
      week, cursor := BuildWeek(cursor, month, byDate, due, interventions);
      OneMoreWeek(weeks, week, before, cursor, month, due, interventions);
      weeks := weeks + [week];
    }
    if Displayable(month) {
      NextMonthFollows(month);
      LessIsEarlier(cursor, nextMonth);
    }
  }

  // ---------------------------------------------------------------- what the grid shows

  lemma {:induction false} CellAt(
      weeks: seq<seq<CalendarDay>>, month: Month, due: seq<Item>, interventions: seq<Item>, i: int, j: int)
    requires IsCalendarMonth(month) && Grid(weeks, month, due, interventions) && 0 <= i < |weeks|
    ensures |weeks[i]| == 7
    ensures 0 <= j < 7 ==> weeks[i][j] == CellFor(DateOf(Monday(month) + 7 * i + j), month, due, interventions)
    ensures 0 <= j < 7 ==> DayNumber(weeks[i][j].date) == Monday(month) + 7 * i + j
  {
    assert WeekRight(weeks[i], Monday(month) + 7 * i, month, due, interventions);
  }

  lemma {:induction false} DayOfMonthNumber(month: Month, d: int)
    requires IsCalendarMonth(month) && Displayable(month) && 1 <= d <= DaysInMonth(month.y, month.m)
    ensures Monday(month) <= DayNumber(Date(month.y, month.m, d)) < DayNumber(NextMonth(month))
  {
    FirstMonday(month);
    NextMonthFollows(month);
    assert DayNumber(Date(month.y, month.m, d)) == DayNumber(FirstDay(month)) + d - 1;
  }

  lemma {:induction false} Quotient7(n: int, i: int, j: int)
    requires n == 7 * i + j && 0 <= j < 7
    ensures i == n / 7 && j == n % 7
  {
  }

  /** A cell shows the given date only at its place in the grid. */
  lemma {:induction false} CellOfDate(
      weeks: seq<seq<CalendarDay>>, month: Month, due: seq<Item>, interventions: seq<Item>, date: Civil, i: int,
      j: int)
    requires IsCalendarMonth(month) && Grid(weeks, month, due, interventions) && 0 <= i < |weeks| && 0 <= j < |weeks[i]|
    requires weeks[i][j].date == date
    ensures i == (DayNumber(date) - Monday(month)) / 7 && j == (DayNumber(date) - Monday(month)) % 7
  {
    CellAt(weeks, month, due, interventions, i, j);
    Quotient7(DayNumber(date) - Monday(month), i, j);
  }

  lemma {:induction false} OnlyCell(
      weeks: seq<seq<CalendarDay>>, month: Month, due: seq<Item>, interventions: seq<Item>, date: Civil)
    requires IsCalendarMonth(month) && Grid(weeks, month, due, interventions)
    ensures forall i, j :: 0 <= i < |weeks| && 0 <= j < |weeks[i]| && weeks[i][j].date == date ==>
      i == (DayNumber(date) - Monday(month)) / 7 && j == (DayNumber(date) - Monday(month)) % 7
  {
    forall i, j | 0 <= i < |weeks| && 0 <= j < |weeks[i]| && weeks[i][j].date == date
      ensures i == (DayNumber(date) - Monday(month)) / 7 && j == (DayNumber(date) - Monday(month)) % 7
    {
      CellOfDate(weeks, month, due, interventions, date, i, j);
    }
  }

  lemma {:induction false} Remainder7(n: int)
    ensures n == 7 * (n / 7) + n % 7 && 0 <= n % 7 < 7
  {
  }

  lemma {:induction false} WeekdayEvery7(n: int, i: int)
    ensures Weekday(n + 7 * i) == Weekday(n)
  {
    assert (n + 4 + 7 * i) % 7 == (n + 4) % 7;
  }

  lemma {:induction false} BeginsLikeFirst(
      weeks: seq<seq<CalendarDay>>, monday: int, month: Month, due: seq<Item>, interventions: seq<Item>, i: int)
    requires WeeksRight(weeks, monday, month, due, interventions) && 0 <= i < |weeks| && Weekday(monday) == 1
    ensures |weeks[i]| == 7 && Weekday(DayNumber(weeks[i][0].date)) == 1
  {
    assert WeekRight(weeks[i], monday + 7 * i, month, due, interventions);
    assert weeks[i][0] == CellFor(DateOf(monday + 7 * i + 0), month, due, interventions);
    WeekdayEvery7(monday, i);
  }

  lemma {:induction false} BeginsOnMonday(
      weeks: seq<seq<CalendarDay>>, month: Month, due: seq<Item>, interventions: seq<Item>, i: int)
    requires IsCalendarMonth(month) && Grid(weeks, month, due, interventions) && 0 <= i < |weeks|
    ensures |weeks[i]| == 7 && Weekday(DayNumber(weeks[i][0].date)) == 1
  {
    FirstMonday(month);
    BeginsLikeFirst(weeks, Monday(month), month, due, interventions, i);
  }

  lemma {:induction false} CellInGrid(
      weeks: seq<seq<CalendarDay>>, month: Month, due: seq<Item>, interventions: seq<Item>, date: Civil, i: int,
      j: int)
    requires IsCalendarMonth(month) && Grid(weeks, month, due, interventions)
    requires DayNumber(date) == Monday(month) + 7 * i + j && 0 <= i < |weeks| && 0 <= j < 7
    ensures |weeks[i]| == 7 && weeks[i][j] == CellFor(date, month, due, interventions)
  {
    CellAt(weeks, month, due, interventions, i, j);
    DateOfDayNumber(date);
  }

  /** Every day of the month has exactly one cell, in a week that begins on a Monday. */
  lemma {:induction false} DayShownOnce(
      weeks: seq<seq<CalendarDay>>, month: Month, due: seq<Item>, interventions: seq<Item>, d: int)
    returns (i: int, j: int)
    requires IsCalendarMonth(month) && Displayable(month) && Grid(weeks, month, due, interventions)
    requires 1 <= d <= DaysInMonth(month.y, month.m)
    ensures 0 <= i < |weeks| && 0 <= j < |weeks[i]| && |weeks[i]| == 7
    ensures weeks[i][j] == CellFor(Date(month.y, month.m, d), month, due, interventions)
    ensures forall i', j' ::
      0 <= i' < |weeks| && 0 <= j' < |weeks[i']| && weeks[i'][j'].date == Date(month.y, month.m, d) ==>
        i' == i && j' == j
    ensures Weekday(DayNumber(weeks[i][0].date)) == 1
  {
    var date := Date(month.y, month.m, d);
    DayOfMonthNumber(month, d);
    var n := DayNumber(date) - Monday(month);
    i, j := n / 7, n % 7;
    Remainder7(n);
    CellInGrid(weeks, month, due, interventions, date, i, j);
    BeginsOnMonday(weeks, month, due, interventions, i);
    OnlyCell(weeks, month, due, interventions, date);
  }

  /** A cell holds an item exactly when it is the cell of the item's date and that date is in the month. */
  lemma {:induction false} CellHolds(
      weeks: seq<seq<CalendarDay>>, month: Month, due: seq<Item>, interventions: seq<Item>, i: nat, j: nat,
      item: Item)
    requires IsCalendarMonth(month) && Grid(weeks, month, due, interventions) && i < |weeks| && j < 7
    ensures |weeks[i]| == 7
    ensures item in weeks[i][j].due <==> item in due && item.date == weeks[i][j].date && InMonth(item.date, month)
    ensures item in weeks[i][j].interventions <==>
      item in interventions && item.date == weeks[i][j].date && InMonth(item.date, month)
    ensures weeks[i][j].inMonth <==> InMonth(weeks[i][j].date, month)
  {
    assert WeekRight(weeks[i], Monday(month) + 7 * i, month, due, interventions);
    var date := weeks[i][j].date;
    FilterMember(OnDate(date), due, item);
    FilterMember(OnDate(date), interventions, item);
  }

  // ---------------------------------------------------------------- the list view

  function DatesOf(items: seq<Item>): seq<Civil> {
    if |items| == 0 then []
    else
      var before, d := DatesOf(items[..|items| - 1]), items[|items| - 1].date;
      if d in before then before else before + [d]
  }

  function ByDay(): (Civil, Civil) -> bool { (a: Civil, b: Civil) => DayNumber(a) <= DayNumber(b) }

  /** One entry for each of the dates. */
  function DayList(dates: seq<Civil>, due: seq<Item>, interventions: seq<Item>): (r: seq<CalendarDay>)
    ensures |r| == |dates|
    ensures forall k :: 0 <= k < |dates| ==>
      r[k] == CalendarDay(dates[k], true, Filter(OnDate(dates[k]), due), Filter(OnDate(dates[k]), interventions))
  {
    seq(|dates|, k requires 0 <= k < |dates| =>
      CalendarDay(dates[k], true, Filter(OnDate(dates[k]), due), Filter(OnDate(dates[k]), interventions)))
  }

  function AgendaDays(due: seq<Item>, interventions: seq<Item>): seq<CalendarDay> {
    DayList(Sort(ByDay(), DatesOf(due + interventions)), due, interventions)
  }

  lemma {:induction false} DatesOfItems(items: seq<Item>, d: Civil)
    ensures d in DatesOf(items) <==> exists i :: i in items && i.date == d
    decreases |items|
  {
    if |items| == 0 {
    } else {
      DatesOfItems(items[..|items| - 1], d);
      assert items == items[..|items| - 1] + [items[|items| - 1]];
      assert items[|items| - 1] in items;
    }
  }

  lemma {:induction false} HasItems(items: seq<Item>, date: Civil)
    ensures |Filter(OnDate(date), items)| > 0 <==> exists i :: i in items && i.date == date
  {
    FilterMembers(OnDate(date), items);
    if |Filter(OnDate(date), items)| > 0 {
      assert Filter(OnDate(date), items)[0] in Filter(OnDate(date), items);
    }
    if i :| i in items && i.date == date {
      assert i in Filter(OnDate(date), items);
    }
  }

  lemma {:induction false} Listed(dates: seq<Civil>, due: seq<Item>, interventions: seq<Item>, date: Civil)
    ensures var cell := CalendarDay(date, true, Filter(OnDate(date), due), Filter(OnDate(date), interventions));
      && (cell in DayList(dates, due, interventions) <==> date in dates)
      && forall day :: day in DayList(dates, due, interventions) && day.date == date ==> day == cell
  {
    var list := DayList(dates, due, interventions);
    if date in dates {
      var k :| 0 <= k < |dates| && dates[k] == date;
      assert list[k] in list;
    }
    forall day | day in list && day.date == date
      ensures day == CalendarDay(date, true, Filter(OnDate(date), due), Filter(OnDate(date), interventions)) &&
        date in dates
    {
      var k :| 0 <= k < |list| && list[k] == day;
      assert dates[k] == date;
    }
  }

  /** The list shows the items of a date exactly when its cell in the grid has items, and shows the same ones. */
  lemma {:induction false} AgendaAgrees(due: seq<Item>, interventions: seq<Item>, month: Month, date: Civil)
    requires InMonth(date, month)
    ensures var cell := CellFor(date, month, due, interventions);
      && (cell in AgendaDays(due, interventions) <==> |cell.due| + |cell.interventions| > 0)
      && forall day :: day in AgendaDays(due, interventions) && day.date == date ==> day == cell
  {
    var dates := Sort(ByDay(), DatesOf(due + interventions));
    DatesOfItems(due + interventions, date);
    SortMembers(ByDay(), DatesOf(due + interventions));
    HasItems(due, date);
    HasItems(interventions, date);
    assert forall i :: i in due + interventions <==> i in due || i in interventions;
    Listed(dates, due, interventions, date);
  }

  lemma {:induction false} DatesOnce(items: seq<Item>, d: Civil)
    ensures multiset(DatesOf(items))[d] <= 1
    decreases |items|
  {
    if |items| == 0 {
    } else {
      DatesOnce(items[..|items| - 1], d);
    }
  }

  lemma {:induction false} LaterDate(a: Civil, b: Civil)
    requires DayNumber(a) <= DayNumber(b) && a != b
    ensures DayNumber(a) < DayNumber(b)
  {
    DateOfDayNumber(a);
    DateOfDayNumber(b);
  }

  lemma {:induction false} SortedDates(items: seq<Item>, i: nat, j: nat)
    requires i < j < |Sort(ByDay(), DatesOf(items))|
    ensures DayNumber(Sort(ByDay(), DatesOf(items))[i]) < DayNumber(Sort(ByDay(), DatesOf(items))[j])
  {
    var all := DatesOf(items);
    var dates := Sort(ByDay(), all);
    SortSorted(ByDay(), all);
    SortPermutes(ByDay(), all);
    forall d ensures multiset(dates)[d] <= 1 {
      DatesOnce(items, d);
    }
    OnceEach(dates, i, j);
    assert ByDay()(dates[i], dates[j]);
    LaterDate(dates[i], dates[j]);
  }

  /** The list goes from earlier to later days, each once. */
  lemma {:induction false} AgendaInOrder(due: seq<Item>, interventions: seq<Item>, i: nat, j: nat)
    requires i < j < |AgendaDays(due, interventions)|
    ensures var list := AgendaDays(due, interventions); DayNumber(list[i].date) < DayNumber(list[j].date)
  {
    SortedDates(due + interventions, i, j);
  }

  /** The list has a day exactly when some item has its date. */
  lemma {:induction false} AgendaDates(due: seq<Item>, interventions: seq<Item>, date: Civil)
    ensures (exists day :: day in AgendaDays(due, interventions) && day.date == date) <==>
      exists item :: (item in due || item in interventions) && item.date == date
  {
    var all := DatesOf(due + interventions);
    SortMembers(ByDay(), all);
    DatesOfItems(due + interventions, date);
    assert forall i :: i in due + interventions <==> i in due || i in interventions;
    Listed(Sort(ByDay(), all), due, interventions, date);
    if day :| day in AgendaDays(due, interventions) && day.date == date {
      var list := AgendaDays(due, interventions);
      var k :| 0 <= k < |list| && list[k] == day;
      assert Sort(ByDay(), all)[k] == date;
    }
  }

  // ---------------------------------------------------------------- the months without a grid

  lemma {:induction false} YearEnd99()
    ensures DayNumber(Date(99, 12, 28)) == DayNumber(FirstDay(Month(100, 1))) - 4
    ensures Weekday(DayNumber(FirstDay(Month(100, 1)))) == 5
  {
    MonthsOfYear(99);
    YearStep(99);
    assert DaysBeforeMonth(100, 1) == 0;
    assert DayNumber(Date(100, 1, 1)) == -683003;
  }

  lemma {:induction false} WeekOf(c: Civil, w: int)
    requires Readable(c) && Weekday(DayNumber(c)) == w
    ensures StartOfWeek(c) == DateOf(DayNumber(c) - (w + 6) % 7)
  {
    assert StartOfWeek(c) == AddDays(c, -((w + 6) % 7));
  }

  lemma {:induction false} WeekFrom(month: Month, monday: Civil)
    requires IsCalendarMonth(month) && month.y >= 100
    requires Weekday(DayNumber(FirstDay(month))) == 5 && DayNumber(monday) == DayNumber(FirstDay(month)) - 4
    ensures StartOfWeek(FirstDay(month)) == monday
  {
    WeekOf(FirstDay(month), 5);
    DateOfDayNumber(monday);
  }

  lemma {:induction false} MondayOf99()
    ensures StartOfWeek(FirstDay(Month(100, 1))) == Date(99, 12, 28)
  {
    YearEnd99();
    WeekFrom(Month(100, 1), Date(99, 12, 28));
  }

  lemma {:induction false} MonthAfterJanuary100()
    ensures NextMonth(Month(100, 1)) == Date(100, 2, 1)
  {
  }

  /**
   For the month 0100-01 the cursor starts in the year 99, which the program does not recognize: it stays
   where it is, before the next month, and the loop never ends.
   */
  lemma {:induction false} StuckInJanuary100()
    ensures var cursor := StartOfWeek(FirstDay(Month(100, 1)));
      && cursor == Date(99, 12, 28)
      && AddCivilDays(cursor, 1) == cursor
      && TextLess(cursor, NextMonth(Month(100, 1)))
  {
    MondayOf99();
    MonthAfterJanuary100();
    OrderIsDayOrder(Date(99, 12, 28), Date(100, 2, 1));
    LessIsEarlier(Date(99, 12, 28), Date(100, 2, 1));
  }
}
