/** The dashboard (components/Dashboard.tsx): two counters and the events of the coming
    week, earliest first. `today` is the calendar day of the clock reading the screen takes. */
module Dashboard {
  import opened Options
  import opened Types
  import opened Lists
  import opened Dates
  import opened DateStrings
  import opened Store

  /** The number the sort compares: the event's day number. An event whose date does not
      parse never reaches the sort, so its key is arbitrary. */
  function SortKey(e: Event): int
  {
    match ParseDate(e.date)
    case Some(d) => DayNumber(d)
    case None => 0
  }

  /** isWithinInterval(startOfDay(event day), {start: today, end: addDays(today, 7)}),
      both ends included; an unparseable date is never within. */
  predicate InUpcomingWindow(today: Date, e: Event)
  {
    && ValidDate(today)
    && ParseDate(e.date).Some?
    && DayNumber(today) <= DayNumber(ParseDate(e.date).value) <= DayNumber(AddDays(today, 7))
  }

  function Upcoming(today: Date): Event -> bool
  {
    (e: Event) => InUpcomingWindow(today, e)
  }

  /** upcomingEvents: the events of the next seven days, sorted by date. */
  function UpcomingEvents(events: seq<Event>, today: Date): (r: seq<Event>)
    requires ValidDate(today)
    ensures forall e :: e in r ==> e in events
    ensures forall e :: e in r ==>
              ParseDate(e.date).Some?
              && DayNumber(today) <= DayNumber(ParseDate(e.date).value) <= DayNumber(today) + 7
    ensures forall e :: e in events && ParseDate(e.date).Some?
              && DayNumber(today) <= DayNumber(ParseDate(e.date).value) <= DayNumber(today) + 7
              ==> e in r
    ensures forall i, j :: 0 <= i < j < |r| ==>
              DayNumber(ParseDate(r[i].date).value) <= DayNumber(ParseDate(r[j].date).value)
    ensures |r| <= |events|
  {
    var inWindow := Filter(events, Upcoming(today));
    var r := SortBy(inWindow, SortKey);
    WindowFacts(r, today);
    r
  }

  lemma WindowFacts(r: seq<Event>, today: Date)
    requires ValidDate(today)
    requires forall e :: e in r ==> InUpcomingWindow(today, e)
    requires SortedBy(r, SortKey)
    ensures forall e :: e in r ==>
              ParseDate(e.date).Some?
              && DayNumber(today) <= DayNumber(ParseDate(e.date).value) <= DayNumber(today) + 7
    ensures forall i, j :: 0 <= i < j < |r| ==>
              DayNumber(ParseDate(r[i].date).value) <= DayNumber(ParseDate(r[j].date).value)
  {
    forall i, j | 0 <= i < j < |r|
      ensures && ParseDate(r[i].date).Some? && ParseDate(r[j].date).Some?
              && DayNumber(ParseDate(r[i].date).value) <= DayNumber(ParseDate(r[j].date).value)
    {
      assert r[i] in r && r[j] in r;
      assert SortKey(r[i]) <= SortKey(r[j]);
    }
  }

  /** The upcoming list holds each in-window event exactly as often as the event list does:
      it is a reordering of the in-window events. */
  lemma UpcomingIsPermutation(events: seq<Event>, today: Date)
    requires ValidDate(today)
    ensures forall e :: multiset(UpcomingEvents(events, today))[e]
                        == if InUpcomingWindow(today, e) then multiset(events)[e] else 0
  {
    FilterMultiplicity(events, Upcoming(today));
  }

  /** Events on the same day keep their list order (the sort is stable). */
  lemma UpcomingKeepsSameDayOrder(events: seq<Event>, today: Date, day: int)
    requires ValidDate(today)
    ensures Filter(UpcomingEvents(events, today), HasKey(SortKey, day))
         == Filter(Filter(events, Upcoming(today)), HasKey(SortKey, day))
  {
    SortKeepsTies(Filter(events, Upcoming(today)), SortKey, day);
  }

  /** "No events scheduled in the next 7 days" is shown exactly when no event falls in
      the window. */
  lemma NoUpcomingIff(events: seq<Event>, today: Date)
    requires ValidDate(today)
    ensures UpcomingEvents(events, today) == [] <==> forall e :: e in events ==> !InUpcomingWindow(today, e)
  {
    var r := UpcomingEvents(events, today);
    if r != [] {
      assert r[0] in r;
    }
  }

  /** The three figures the dashboard shows. */
  datatype Summary = Summary(artistCount: nat, eventCount: nat, upcoming: seq<Event>)

  function Summarize(st: Store, today: Date): (s: Summary)
    requires ValidDate(today)
    ensures s.artistCount == |st.myArtists| && s.eventCount == |st.events|
    ensures s.upcoming == UpcomingEvents(st.events, today)
    ensures |s.upcoming| <= s.eventCount
  {
    Summary(|st.myArtists|, |st.events|, UpcomingEvents(st.events, today))
  }

  /** Adding an artist raises the artist counter by one, unless the name is already
      tracked; the event counter stays. */
  lemma CountersAfterAddArtist(st: Store, artist: Artist, today: Date)
    requires ValidDate(today)
    ensures Summarize(AddArtist(st, artist), today).artistCount
         == Summarize(st, today).artistCount + (if Tracks(st.myArtists, artist.name) then 0 else 1)
    ensures Summarize(AddArtist(st, artist), today).eventCount == Summarize(st, today).eventCount
  {
  }

  /** Removing a tracked artist lowers the artist counter by one and the event counter by
      the number of that artist's events. */
  lemma CountersAfterRemoveArtist(st: Store, name: string, today: Date)
    requires ValidDate(today) && UniqueNames(st.myArtists) && Tracks(st.myArtists, name)
    ensures Summarize(RemoveArtist(st, name), today).artistCount == Summarize(st, today).artistCount - 1
    ensures Summarize(RemoveArtist(st, name), today).eventCount
         == Summarize(st, today).eventCount - |Filter(st.events, ByArtist(name))|
  {
    RemoveTrackedArtistCount(st, name);
    RemoveArtistEventCount(st, name);
  }

  /** Adding an event raises the event counter by one; removing an id lowers it by the
      number of events carrying that id. The artist counter stays. */
  lemma CountersAfterEventChanges(st: Store, event: Event, id: string, today: Date)
    requires ValidDate(today)
    ensures Summarize(AddEvent(st, event, id), today).eventCount == Summarize(st, today).eventCount + 1
    ensures Summarize(RemoveEvent(st, id), today).eventCount
         == Summarize(st, today).eventCount - |Filter(st.events, IdIs(id))|
    ensures Summarize(AddEvent(st, event, id), today).artistCount == Summarize(st, today).artistCount
    ensures Summarize(RemoveEvent(st, id), today).artistCount == Summarize(st, today).artistCount
  {
    RemoveEventCount(st, id);
  }
}
