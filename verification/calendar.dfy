/** The calendar screen (components/EventCalendarView.tsx): a Sunday-first month grid with
    each day's events, the list for the selected day, and month stepping. */
module EventCalendar {
  import opened Options
  import opened Types
  import opened Lists
  import opened Dates
  import opened DateStrings
  import opened Store

  /** isSameDay(new Date(event.date), day): the event's date reads as exactly that day. */
  function OnDay(day: Date): Event -> bool
  {
    (e: Event) => ParseDate(e.date) == Some(day)
  }

  /** The predicate `selectedDate && isSameDay(...)`, false throughout when nothing is selected. */
  function OnSelectedDay(selected: Option<Date>): Event -> bool
  {
    (e: Event) => selected.Some? && ParseDate(e.date) == selected
  }

  /** selectedDayEvents: the events of the selected day, in list order. */
  function SelectedDayEvents(events: seq<Event>, selected: Option<Date>): (r: seq<Event>)
    ensures selected.None? ==> r == []
    ensures selected.Some? ==> forall e :: e in r <==> e in events && ParseDate(e.date) == selected
    ensures |r| <= |events|
  {
    var r := Filter(events, OnSelectedDay(selected));
    if selected.None? then
      FilterKeepsNone(events, OnSelectedDay(selected));
      r
    else r
  }

  /** eventsOnDay for one grid cell. */
  function EventsOnDay(events: seq<Event>, day: Date): (r: seq<Event>)
    ensures forall e :: e in r <==> e in events && ParseDate(e.date) == Some(day)
  {
    Filter(events, OnDay(day))
  }

  // ---- The month grid ----

  /** The days of renderCells: eachDayOfInterval from startOfWeek(startOfMonth(current)) to
      endOfWeek(endOfMonth(startOfMonth(current))). */
  function MonthGrid(current: Date): (days: seq<Date>)
    requires ValidDate(current)
    ensures |days| > 0 && ValidDate(days[0])
    ensures days[0] == StartOfWeek(StartOfMonth(current))
    ensures days[|days| - 1] == EndOfWeek(EndOfMonth(current))
    ensures forall i :: 0 <= i < |days| ==> ValidDate(days[i]) && DayNumber(days[i]) == DayNumber(days[0]) + i
  {
    var monthStart := StartOfMonth(current);
    var monthEnd := EndOfMonth(monthStart);
    EachDayOfInterval(StartOfWeek(monthStart), EndOfWeek(monthEnd))
  }

  /** The grid starts on the Sunday on or before the 1st and ends on the Saturday on or
      after the last day of the month. */
  lemma GridEnds(current: Date)
    requires ValidDate(current)
    ensures var g := MonthGrid(current);
      && Weekday(g[0]) == 0 && Weekday(g[|g| - 1]) == 6
      && DayNumber(g[0]) <= DayNumber(StartOfMonth(current)) < DayNumber(g[0]) + 7
      && DayNumber(g[|g| - 1]) - 7 < DayNumber(EndOfMonth(current)) <= DayNumber(g[|g| - 1])
  {
  }

  /** The grid is whole weeks, four to six of them. */
  lemma GridShape(current: Date)
    requires ValidDate(current)
    ensures |MonthGrid(current)| % 7 == 0 && 28 <= |MonthGrid(current)| <= 42
  {
    var g := MonthGrid(current);
    GridEnds(current);
    var first, last := g[0], g[|g| - 1];
    WeekdayDecompose(first);
    WeekdayDecompose(last);
    var weeks := WholeWeeks((DayNumber(first) + 1) / 7, (DayNumber(last) + 1) / 7,
      DayNumber(first), DayNumber(last), DaysInMonth(current.year, current.month),
      DayNumber(StartOfMonth(current)), DayNumber(EndOfMonth(current)));
    MultipleOfSeven(weeks);
  }

  lemma WholeWeeks(q1: int, q2: int, first: int, last: int, length: int, monthStart: int, monthEnd: int)
    returns (weeks: int)
    requires 28 <= length <= 31 && monthEnd == monthStart + length - 1
    requires first + 1 == 7 * q1 && last + 1 == 7 * q2 + 6
    requires monthStart - 6 <= first <= monthStart && monthEnd <= last <= monthEnd + 6
    ensures last - first + 1 == 7 * weeks && 4 <= weeks <= 6
  {
    weeks := q2 - q1 + 1;
  }

  lemma MultipleOfSeven(k: int)
    ensures (7 * k) % 7 == 0
  {
  }

  /** Every day of the month has a cell. */
  lemma GridCoversMonth(current: Date, d: Date)
    requires ValidDate(current) && ValidDate(d) && SameMonth(d, current)
    ensures d in MonthGrid(current)
  {
    var g := MonthGrid(current);
    GridEnds(current);
    var i := DayNumber(d) - DayNumber(g[0]);
    assert DayNumber(d) == DayNumber(StartOfMonth(current)) + d.day - 1;
    DayNumberInjective(g[i], d);
  }

  /** A cell is drawn as outside the month exactly when it is one of the leading days before
      the 1st or the trailing days after the last. */
  lemma GridPadding(current: Date)
    requires ValidDate(current)
    ensures var g, lead := MonthGrid(current), Weekday(StartOfMonth(current));
      forall i :: 0 <= i < |g| ==>
        (!SameMonth(g[i], StartOfMonth(current))
         <==> i < lead || i >= lead + DaysInMonth(current.year, current.month))
  {
    var g := MonthGrid(current);
    var monthStart := StartOfMonth(current);
    GridEnds(current);
    assert DayNumber(monthStart) - DayNumber(g[0]) == Weekday(monthStart) by {
      StartOfWeekOffset(monthStart);
    }
    forall i | 0 <= i < |g|
      ensures !SameMonth(g[i], monthStart)
              <==> i < Weekday(monthStart) || i >= Weekday(monthStart) + DaysInMonth(current.year, current.month)
    {
      SameMonthIffBetween(g[i], monthStart);
    }
  }

  lemma StartOfWeekOffset(d: Date)
    requires ValidDate(d)
    ensures DayNumber(d) - DayNumber(StartOfWeek(d)) == Weekday(d)
  {
  }

  /** One square of the grid. */
  datatype Cell = Cell(day: Date, outsideMonth: bool, isToday: bool, isSelected: bool, events: seq<Event>)

  /** renderCells: for each grid day, whether it lies outside the shown month, whether it is
      today or the selected day, and the titles listed in it (its events). */
  function RenderCells(events: seq<Event>, current: Date, today: Date, selected: Option<Date>): (cells: seq<Cell>)
    requires ValidDate(current)
    ensures |cells| == |MonthGrid(current)|
    ensures forall i :: 0 <= i < |cells| ==> cells[i].day == MonthGrid(current)[i]
    ensures forall i :: 0 <= i < |cells| ==>
              forall e :: e in cells[i].events <==> e in events && ParseDate(e.date) == Some(cells[i].day)
    ensures forall i :: 0 <= i < |cells| ==> (cells[i].isSelected <==> selected == Some(cells[i].day))
    ensures forall i :: 0 <= i < |cells| ==> (cells[i].isToday <==> cells[i].day == today)
    ensures forall i :: 0 <= i < |cells| ==>
              (cells[i].outsideMonth <==> !SameMonth(cells[i].day, StartOfMonth(current)))
  {
    var g := MonthGrid(current);
    var monthStart := StartOfMonth(current);
    seq(|g|, i requires 0 <= i < |g| =>
      Cell(g[i], !SameMonth(g[i], monthStart), g[i] == today, selected == Some(g[i]), EventsOnDay(events, g[i])))
  }

  /** The shaded cells are exactly the leading days before the 1st and the trailing days
      after the month's last day. */
  lemma ShadedCells(events: seq<Event>, current: Date, today: Date, selected: Option<Date>)
    requires ValidDate(current)
    ensures var cells, lead := RenderCells(events, current, today, selected), Weekday(StartOfMonth(current));
      forall i :: 0 <= i < |cells| ==>
        (cells[i].outsideMonth <==> i < lead || i >= lead + DaysInMonth(current.year, current.month))
  {
    GridPadding(current);
  }

  /** An event whose day lies within the grid is listed in exactly one cell, the one for
      its day. */
  lemma EventInExactlyOneCell(events: seq<Event>, current: Date, today: Date, selected: Option<Date>, e: Event)
    requires ValidDate(current) && e in events && ParseDate(e.date).Some?
    ensures var g, cells := MonthGrid(current), RenderCells(events, current, today, selected);
      DayNumber(g[0]) <= DayNumber(ParseDate(e.date).value) <= DayNumber(g[|g| - 1]) ==>
      && (exists i :: 0 <= i < |cells| && e in cells[i].events)
      && (forall i, j :: 0 <= i < |cells| && 0 <= j < |cells| && e in cells[i].events && e in cells[j].events ==> i == j)
  {
    var g := MonthGrid(current);
    var cells := RenderCells(events, current, today, selected);
    var d := ParseDate(e.date).value;
    if DayNumber(g[0]) <= DayNumber(d) <= DayNumber(g[|g| - 1]) {
      var k := DayNumber(d) - DayNumber(g[0]);
      DayNumberInjective(g[k], d);
      assert e in cells[k].events;
      forall i, j | 0 <= i < |cells| && 0 <= j < |cells| && e in cells[i].events && e in cells[j].events
        ensures i == j
      {
        assert cells[i].day == d && cells[j].day == d;
      }
    }
  }

  /** Clicking a cell selects its day, and the side panel then lists exactly that cell's events. */
  lemma ClickedCellMatchesPanel(events: seq<Event>, current: Date, today: Date, selected: Option<Date>)
    requires ValidDate(current)
    ensures var cells := RenderCells(events, current, today, selected);
      forall i :: 0 <= i < |cells| ==> SelectedDayEvents(events, Some(cells[i].day)) == cells[i].events
  {
    var cells := RenderCells(events, current, today, selected);
    forall i | 0 <= i < |cells|
      ensures SelectedDayEvents(events, Some(cells[i].day)) == cells[i].events
    {
      var p, q := OnSelectedDay(Some(cells[i].day)), OnDay(cells[i].day);
      assert forall e :: p(e) == q(e);
      SameFilter(events, p, q);
    }
  }

  lemma {:induction false} SameFilter(s: seq<Event>, p: Event -> bool, q: Event -> bool)
    requires forall e :: p(e) == q(e)
    ensures Filter(s, p) == Filter(s, q)
  {
    if |s| > 0 {
      SameFilter(s[1..], p, q);
    }
  }

  // ---- Month stepping ----

  /** The chevron buttons: subMonths(currentMonth, 1) and addMonths(currentMonth, 1). */
  function PreviousMonth(current: Date): (r: Date)
    requires ValidDate(current)
    ensures ValidDate(r)
    ensures r.year * 12 + r.month == current.year * 12 + current.month - 1
  {
    AddMonths(current, -1)
  }

  function NextMonth(current: Date): (r: Date)
    requires ValidDate(current)
    ensures ValidDate(r)
    ensures r.year * 12 + r.month == current.year * 12 + current.month + 1
  {
    AddMonths(current, 1)
  }

  /** Forward then back, or back then forward, shows the same month again. */
  lemma MonthStepRoundTrip(current: Date)
    requires ValidDate(current)
    ensures SameMonth(PreviousMonth(NextMonth(current)), current)
    ensures SameMonth(NextMonth(PreviousMonth(current)), current)
  {
    var a, b := PreviousMonth(NextMonth(current)), NextMonth(PreviousMonth(current));
    assert a.year * 12 + a.month == current.year * 12 + current.month;
    assert b.year * 12 + b.month == current.year * 12 + current.month;
  }

  /** The grid depends on the month alone, so a month shown again is drawn identically. */
  lemma GridDependsOnMonthOnly(a: Date, b: Date)
    requires ValidDate(a) && ValidDate(b) && SameMonth(a, b)
    ensures MonthGrid(a) == MonthGrid(b)
  {
    assert StartOfMonth(a) == StartOfMonth(b);
  }

  /** Month stepping forgets nothing but the day-of-month: forward then back keeps the
      month, and the day becomes the smaller of the original day and the length of the
      month passed through; back then forward likewise through the previous month. */
  lemma MonthStepDayDrift(d: Date)
    requires ValidDate(d)
    ensures var n := NextMonth(d);
      SameMonth(PreviousMonth(n), d)
      && PreviousMonth(n).day == if d.day <= DaysInMonth(n.year, n.month) then d.day else DaysInMonth(n.year, n.month)
    ensures var p := PreviousMonth(d);
      SameMonth(NextMonth(p), d)
      && NextMonth(p).day == if d.day <= DaysInMonth(p.year, p.month) then d.day else DaysInMonth(p.year, p.month)
  {
    MonthStepRoundTrip(d);
  }

  /** The remembered day-of-month is clamped on the way through a shorter month and does
      not come back: January 31st, forward, then back, is January 29th (2024). */
  lemma MonthStepClampsDay()
    ensures NextMonth(Date(2024, 1, 31)) == Date(2024, 2, 29)
    ensures PreviousMonth(NextMonth(Date(2024, 1, 31))) == Date(2024, 1, 29)
  {
  }

  // ---- Adding an event ----

  /** handleAddEvent: the form's fields, unchanged, with a clock-reading id added. */
  function HandleAddEvent(draft: EventDraft, now: string): (e: Event)
    ensures e.id == now
    ensures e.artistName == draft.artistName && e.title == draft.title
    ensures e.date == draft.date && e.eventType == draft.eventType
  {
    WithId(draft, now)
  }

  /** The id handleAddEvent chooses is replaced by the one addEvent chooses: the stored
      event is the draft with the store's id. */
  lemma StoredEventCarriesStoreId(st: Store, draft: EventDraft, formId: string, storeId: string)
    ensures AddEvent(st, HandleAddEvent(draft, formId), storeId).events == st.events + [WithId(draft, storeId)]
  {
  }
}
