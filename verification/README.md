# Fan tracker core, modelled in Dafny

The app tracks a fan's favourite artists and their events: concerts, releases, TV
appearances. This project models its pure logic and proves properties of it:

- **The collection** (`Store`, App.tsx). Two immutable lists, `myArtists` and `events`,
  change through `addArtist`, `removeArtist` (which cascades to the artist's events),
  `addEvent` and `removeEvent`.
- **The dashboard** (`Dashboard`). It shows the artist and event counters and the
  events of the next seven days, filtered and then sorted by date.
- **The calendar screen** (`EventCalendar`, `EventForm`). It covers the events of the
  selected day, the Sunday-first month grid with each cell's events, month stepping, and
  the add-event form: its initial state, its validation and its reset.
- **The records** (`Types`, types.ts): `Artist`, `Event` with its four-valued type,
  `Omit<Event, 'id'>` as `EventDraft`, and the five-valued `View`.

The app gets its calendar arithmetic from date-fns and JavaScript `Date`. Here that is
replaced by the `Dates` module, which uses the proleptic Gregorian leap rule. `DayNumber`
counts days from 0001-01-01, and `Weekday` is `(DayNumber + 1) % 7` with Sunday = 0.
An event's `date` stays a string, as in the app. For days in years 1 to 9999 the date
input writes either "" or "YYYY-MM-DD", and `DateStrings.ParseDate` reads the latter as a
calendar day. Any other string reads as no day, so it matches no day and no window. For ""
that is exactly JavaScript's Invalid Date; for other forms see "## Left out".

`Lists` holds the two array operations the app is built from: `filter`, and the stable
`sort` that ECMAScript 2019 requires.

Three inputs come in as parameters: the clock reading (`today`), the id the app takes
from `Date.now().toString()` (`freshId`, `now`), and the selected day.

## Model

| member | source | states |
|---|---|---|
| Types.WithId | components/EventCalendarView.tsx:78-81 | the event built from a draft carries the given id and every draft field unchanged |
| Types.ParseEventType | types.ts:14 | only the four literals "Live", "Release", "TV Appearance", "Other" read as an event type, each as the type whose label it is |
| Types.EventTypeRoundTrip | types.ts:14 | each event type's label reads back as that type, so the four labels are distinct |
| Types.ParseView | types.ts:17 | only the five view names read as a view, each as the view it names |
| Types.ViewRoundTrip | types.ts:17 | each view's name reads back as that view, so the five names are distinct |
| Lists.Filter | App.tsx:25-26 | the result holds exactly the elements that satisfy the predicate and is never longer than the input |
| Lists.FilterMultiplicity | components/Dashboard.tsx:16-20 | a kept value occurs as often as in the input; a dropped value does not occur |
| Lists.FilterConcat | App.tsx:34 | filtering a concatenation is the concatenation of the filtered parts, so kept elements keep their relative order |
| Lists.FilterKeepsOrder | App.tsx:25-26 | two kept elements appear in the result at increasing positions, equal to the counts of kept elements before them |
| Lists.FilterKeepsAll | App.tsx:34 | a filter that rejects nothing returns the list unchanged |
| Lists.FilterKeepsNone | components/EventCalendarView.tsx:21 | a filter that accepts nothing returns the empty list |
| Lists.FilterIdempotent | App.tsx:34 | filtering twice by one predicate equals filtering once |
| Lists.FilterSplitsLength | App.tsx:26 | the kept and the dropped elements together number the input's length |
| Lists.SortBy | components/Dashboard.tsx:21 | the result is in non-decreasing key order and is a permutation of the input |
| Lists.SortKeepsTies | components/Dashboard.tsx:21 | elements with equal keys keep their input order after sorting (stability) |
| Dates.YearLength | components/Dashboard.tsx:14 | consecutive years start 366 days apart exactly in leap years (divisible by 4 and not by 100, or by 400), otherwise 365 |
| Dates.DayNumberOrder | components/Dashboard.tsx:21 | day numbers order valid days exactly as the calendar does, so comparing them is comparing the dates' times |
| Dates.DayNumberInjective | components/EventCalendarView.tsx:54 | two valid days are the same day exactly when their day numbers agree, which is what isSameDay tests |
| Dates.NextDay | components/EventCalendarView.tsx:49 | the following day is a valid date whose day number is one more |
| Dates.PrevDay | components/EventCalendarView.tsx:47 | the preceding day is a valid date whose day number is one less |
| Dates.AddDays | components/Dashboard.tsx:14 | adding k days yields a valid date k day numbers later |
| Dates.SubDays | components/EventCalendarView.tsx:47 | subtracting k days yields a valid date k day numbers earlier |
| Dates.StartOfWeek | components/EventCalendarView.tsx:47 | the result is a Sunday, on or at most six days before the given day |
| Dates.EndOfWeek | components/EventCalendarView.tsx:48 | the result is a Saturday, on or at most six days after the given day |
| Dates.StartOfMonth | components/EventCalendarView.tsx:45 | the result is day 1 of the same month |
| Dates.EndOfMonth | components/EventCalendarView.tsx:46 | the result lies in the same month, one month-length minus one day after its first day |
| Dates.SameMonth | components/EventCalendarView.tsx:59 | isSameMonth: the two days have the same year and month (definition; Dates.SameMonthIffBetween relates it to day numbers) |
| Dates.SameMonthIffBetween | components/EventCalendarView.tsx:59 | a valid day shares a month with d exactly when it lies between that month's first and last days |
| Dates.EachDayOfInterval | components/EventCalendarView.tsx:49 | the result runs from start to end, one valid day per day number, with no gaps |
| Dates.AddMonths | components/EventCalendarView.tsx:25-29 | the result is valid and k months later, and its day is the same day clamped to the target month's length |
| DateStrings.ParseDate | types.ts:13 | a string that parses yields a valid day with a four-digit year |
| DateStrings.FormatDate | components/EventCalendarView.tsx:140 | the written date is ten characters: the era year in four digits, a dash, the month in two digits, a dash, the day in two digits |
| DateStrings.EraYear | components/EventCalendarView.tsx:140 | "yyyy" prints a positive year; years from 1 on are printed as themselves, year 0 and earlier counted back as years BC |
| DateStrings.ParseFormat | components/EventCalendarView.tsx:140 | a written day of years 1 to 9999 reads back as the same day |
| DateStrings.YearZeroIsWrittenAsOne | components/EventCalendarView.tsx:140 | year 0 is written "0001-01-01", which reads back as a day of year 1 |
| DateStrings.FormatParse | types.ts:13 | a string that reads as a day of years 1 to 9999 is exactly that day written out, so each such day has one string |
| Store.FindArtist | App.tsx:19 | returns nothing exactly when no artist has the name; otherwise the first artist with that name |
| Store.AddArtist | App.tsx:18-22 | a tracked name leaves the store unchanged, and a new name appends the artist after the existing ones; afterwards the name is tracked, names stay distinct, and events still name tracked artists |
| Store.AddArtistIdempotent | App.tsx:18-22 | adding the same artist twice equals adding it once |
| Store.RemoveArtist | App.tsx:24-27 | no artist with the name remains, and exactly the other artists and the events of other artists survive; distinct names and "every event names a tracked artist" are preserved |
| Store.RemoveArtistKeepsArtistOrder | App.tsx:25 | any two surviving artists keep their relative order |
| Store.RemoveArtistKeepsEventOrder | App.tsx:26 | any two surviving events keep their relative order |
| Store.RemoveArtistIdempotent | App.tsx:24-27 | removing a name twice equals removing it once |
| Store.RemoveUnknownArtist | App.tsx:24-27 | removing a name no artist or event uses changes nothing |
| Store.RemoveUndoesAddArtist | App.tsx:18-27 | removing a newly added artist that no event names restores the store |
| Store.RemoveArtistEventCount | App.tsx:26 | the cascade removes exactly as many events as name the artist |
| Store.RemoveTrackedArtistCount | App.tsx:25 | with distinct names, removing a tracked artist shortens the list by exactly one |
| Store.AddEvent | App.tsx:29-31 | the old events stay as a prefix, followed by one new event equal to the input except for the fresh id; artists are untouched; "every event names a tracked artist" holds afterwards iff it held before and the event's artist is tracked |
| Store.RemoveEvent | App.tsx:33-35 | exactly the events with a different id survive, the list never grows, and artists are untouched |
| Store.RemoveEventKeepsOrder | App.tsx:34 | surviving events keep their relative order |
| Store.RemoveEventIdempotent | App.tsx:33-35 | removing an id twice equals removing it once |
| Store.RemoveAbsentEvent | App.tsx:33-35 | removing an id no event carries changes nothing |
| Store.RemoveEventCount | App.tsx:34 | the list shrinks by exactly the number of events carrying the id |
| Store.RemoveUndoesAddEvent | App.tsx:29-35 | removing, by its id, an event just added under an unused id restores the store |
| Dashboard.InUpcomingWindow | components/Dashboard.tsx:17-19 | the event's date parses and its day lies from today through today plus seven days, both ends included (definition; Dashboard.UpcomingEvents states it as day numbers) |
| Dashboard.SortKey | components/Dashboard.tsx:21 | the comparator's number: the day number of the event's date (definition; Dates.DayNumberOrder makes it the date order) |
| Dashboard.UpcomingEvents | components/Dashboard.tsx:13-21 | every listed event comes from the list and has a parseable date in [today, today+7], inclusive; every such event is listed; the list is in non-decreasing date order and no longer than the event list |
| Dashboard.UpcomingIsPermutation | components/Dashboard.tsx:16-21 | the list holds each in-window event as often as the event list does, and nothing else |
| Dashboard.UpcomingKeepsSameDayOrder | components/Dashboard.tsx:21 | events on the same day appear in their event-list order |
| Dashboard.NoUpcomingIff | components/Dashboard.tsx:48-64 | the "no events" message shows exactly when no event falls in the window |
| Dashboard.Summarize | components/Dashboard.tsx:16-38 | the artist counter is the number of tracked artists, the event counter the number of events, and the list is the upcoming events, so it never outnumbers the event counter |
| Dashboard.CountersAfterAddArtist | components/Dashboard.tsx:33 | adding an artist raises the artist counter by one unless the name is tracked, and leaves the event counter alone |
| Dashboard.CountersAfterRemoveArtist | components/Dashboard.tsx:33-38 | removing a tracked artist lowers the artist counter by one and the event counter by that artist's event count |
| Dashboard.CountersAfterEventChanges | components/Dashboard.tsx:38 | adding an event raises the event counter by one; removing an id lowers it by the number of events with that id; the artist counter stays |
| EventCalendar.OnSelectedDay | components/EventCalendarView.tsx:21 | `selectedDate && isSameDay(...)`: false with no selection, otherwise the event's date reads as the selected day (definition) |
| EventCalendar.OnDay | components/EventCalendarView.tsx:54 | isSameDay(new Date(event.date), day): the event's date reads as that day (definition) |
| EventCalendar.SelectedDayEvents | components/EventCalendarView.tsx:21 | empty when no day is selected; otherwise exactly the events whose date is the selected day |
| EventCalendar.EventsOnDay | components/EventCalendarView.tsx:54 | exactly the events whose date reads as the given day |
| EventCalendar.MonthGrid | components/EventCalendarView.tsx:44-49 | a non-empty run of consecutive valid days from the week-start of the 1st to the week-end of the last day |
| EventCalendar.GridEnds | components/EventCalendarView.tsx:45-48 | the grid starts on the Sunday on or before the 1st and ends on the Saturday on or after the month's last day |
| EventCalendar.GridShape | components/EventCalendarView.tsx:45-49 | the grid's length is a multiple of 7 between 28 and 42 |
| EventCalendar.GridCoversMonth | components/EventCalendarView.tsx:45-49 | every day of the month is a cell of the grid |
| EventCalendar.GridPadding | components/EventCalendarView.tsx:59 | a cell is outside the month exactly when it is a leading day before the 1st or a trailing day after the last |
| EventCalendar.RenderCells | components/EventCalendarView.tsx:53-63 | one cell per grid day; each cell lists exactly the events of its day, is shaded exactly when its day is outside the shown month, and is marked selected or today exactly when its day is |
| EventCalendar.ShadedCells | components/EventCalendarView.tsx:59 | the shaded cells are exactly the leading ones before the 1st and the trailing ones after the month's last day |
| EventCalendar.EventInExactlyOneCell | components/EventCalendarView.tsx:53-54 | an event dated inside the grid is listed in one cell and in no other |
| EventCalendar.ClickedCellMatchesPanel | components/EventCalendarView.tsx:61 | after clicking a cell, the side panel lists exactly the events the cell lists |
| EventCalendar.PreviousMonth | components/EventCalendarView.tsx:25 | the result is a valid date in the month before |
| EventCalendar.NextMonth | components/EventCalendarView.tsx:29 | the result is a valid date in the month after |
| EventCalendar.MonthStepRoundTrip | components/EventCalendarView.tsx:25-29 | next then previous, or previous then next, returns to the same year and month |
| EventCalendar.GridDependsOnMonthOnly | components/EventCalendarView.tsx:45-49 | two dates of the same month give the same grid |
| EventCalendar.MonthStepDayDrift | components/EventCalendarView.tsx:25-29 | for every day, forward then back keeps the month and yields the smaller of the day and the next month's length; the same for back then forward with the previous month |
| EventCalendar.MonthStepClampsDay | components/EventCalendarView.tsx:25-29 | the remembered day can drift: January 31st 2024, forward then back, is January 29th |
| EventCalendar.HandleAddEvent | components/EventCalendarView.tsx:77-83 | the event passed on has every form field unchanged plus the clock id |
| EventCalendar.StoredEventCarriesStoreId | App.tsx:30 | the stored event is the draft with addEvent's id, whatever id handleAddEvent chose |
| EventForm.FirstArtistName | components/EventCalendarView.tsx:139 | the first artist's name, which is tracked, or "" when there are no artists |
| EventForm.InitialForm | components/EventCalendarView.tsx:138-141 | the form opens with an empty title, the first artist, type Live, and a date that reads back as the selected day, or today when none is selected |
| EventForm.HasEmptyField | components/EventCalendarView.tsx:145 | `!title \|\| !artistName \|\| !date`: one of the three text fields is the empty string (definition) |
| EventForm.Submit | components/EventCalendarView.tsx:143-154 | nothing is saved exactly when the title, artist or date is empty, and then the form is unchanged and stays open; otherwise the four fields are saved as they are, the title is cleared, the artist and type are reset, the date is kept, and the form closes |
| EventForm.NoDoubleSave | components/EventCalendarView.tsx:149-150 | submitting the reset fields again saves nothing; in the app closing unmounts the form, so this state is never submitted and the reset alone already rules out a second save |
| EventForm.SaveStoresFormFields | components/EventCalendarView.tsx:149 | a saved form adds one event with the form's fields and the store's id; if its artist is tracked, every event still names a tracked artist |
| EventForm.OpenFormIsConsistent | components/EventCalendarView.tsx:156-158 | when the form is shown (at least one artist), it opens on a tracked artist and a filled date, and saving it untouched is refused |

## Left out

- Rendering is left out: JSX, CSS classes, icons, `alert`, the show/hide toggle of the
  form, and the per-keystroke `onChange` assignments. None of it holds logic beyond
  assigning a value.
- `renderView` in App.tsx is left out. It picks the component for the current `View`;
  the model keeps `View` as a datatype and not the component mapping.
- Persistence through `useLocalStorage` is left out. App.tsx:13-15 uses it to store the
  two lists and the wallpaper URL. The hook is not part of this model, and no operation
  here depends on it: each takes the lists as given.
- React's state batching and stale closures are left out. Each operation is applied to
  the state it receives.
- services/geminiService.ts is left out: it is a network call followed by JSON parsing.
- components/ArtistSearchView.tsx, components/SettingsView.tsx, components/Header.tsx and
  components/MyArtistsView.tsx are left out: they hold UI state around that call, the
  wallpaper URL, and navigation.
- Ids from `Date.now().toString()` are parameters. The model does not claim ids are
  unique, because the code does not enforce it.
- Time zones are left out. `new Date("YYYY-MM-DD")` is UTC midnight while `startOfDay`
  and `isSameDay` work in local time, so west of UTC an event may land on the previous
  day. The model compares calendar days as written.
- DateStrings.ParseDate: reads only "YYYY-MM-DD". It rejects an in-format string whose
  day does not exist, such as "2024-02-30", which some engines roll over into the next
  month. It also rejects the engine-specific fallback forms `new Date` may accept, such as
  "2024/03/05" or "2024-3-5". The date input never writes either kind. Years of five or
  more digits, which the date input accepts (such as "10000-01-01"), also read as no day.
- DateStrings.FormatDate: requires a year from 0 to 9999. Years before 0 and after 9999
  are not modelled; "yyyy" would also write years -9998 to -1 with four digits, as era
  years BC.
- Dates: years are unbounded integers. A JavaScript `Date` covers only about 275760
  years either side of 1970, and past that `addMonths`/`subMonths` give an Invalid Date
  and `format` throws. The model keeps returning valid days there.
- EventForm.InitialForm: requires the selected day and today to lie in years 1 to 9999,
  where the written date reads back as the same day (year 0 does not; see
  DateStrings.YearZeroIsWrittenAsOne).
- Dates.EachDayOfInterval: requires the interval not to end before it starts. What
  date-fns does otherwise depends on its version. The only call site, the month grid,
  always has start on or before end.
- Dashboard.UpcomingEvents: `today` is a calendar day given as a parameter. The clock
  reading and the `startOfDay` truncation are not modelled.
