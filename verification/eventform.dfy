/** The "Add New Event" form inside the calendar screen (EventForm in
    components/EventCalendarView.tsx): its initial fields, the all-fields-filled check on
    submit, and the reset after a save. */
module EventForm {
  import opened Options
  import opened Types
  import opened Dates
  import opened DateStrings
  import opened Store
  import opened EventCalendar

  /** The four controlled inputs. */
  datatype FormState = FormState(title: string, artistName: string, date: string, eventType: EventType)

  /** `myArtists[0]?.name || ''`: the artist preselected in the drop-down. */
  function FirstArtistName(artists: seq<Artist>): (name: string)
    ensures |artists| > 0 ==> name == artists[0].name && Tracks(artists, name)
    ensures |artists| == 0 ==> name == ""
  {
    if |artists| > 0 then
      assert artists[0] in artists;
      artists[0].name
    else ""
  }

  /** A day the date input can show as itself: a real day whose year "yyyy" writes as
      those four digits. */
  predicate Showable(d: Date)
  {
    ValidDate(d) && CommonEraYear(d)
  }

  /** The form as it opens: empty title, the first artist, the selected day (or today)
      written as yyyy-MM-dd, and type Live. */
  function InitialForm(artists: seq<Artist>, preselected: Option<Date>, today: Date): (f: FormState)
    requires Showable(today)
    requires preselected.Some? ==> Showable(preselected.value)
    ensures f.title == "" && f.eventType == Live
    ensures f.artistName == FirstArtistName(artists)
    ensures ParseDate(f.date) == Some(preselected.ValueOr(today))
  {
    var day := preselected.ValueOr(today);
    ParseFormat(day);
    FormState("", FirstArtistName(artists), FormatDate(day), Live)
  }

  /** What a submit leaves behind: the form's fields afterwards, the draft handed to
      addEvent if any, and whether the form was closed. */
  datatype SubmitOutcome = SubmitOutcome(form: FormState, saved: Option<EventDraft>, closed: bool)

  /** Any of title, artist or date left empty. */
  predicate HasEmptyField(f: FormState)
  {
    f.title == "" || f.artistName == "" || f.date == ""
  }

  /** handleSubmit: with a field empty, only an alert (the form stays as it was and stays
      open); otherwise addEvent receives exactly the four fields, the title is cleared,
      the artist goes back to the first one and the type to Live, the date is kept, and
      the form closes. Closing unmounts the form, so the reset fields are discarded and
      the next opening starts from InitialForm. */
  function Submit(f: FormState, artists: seq<Artist>): (o: SubmitOutcome)
    ensures o.saved.None? <==> HasEmptyField(f)
    ensures o.saved.None? ==> o.form == f && !o.closed
    ensures o.saved.Some? ==> o.saved.value == EventDraft(f.artistName, f.title, f.date, f.eventType)
    ensures o.saved.Some? ==> o.closed && o.form == FormState("", FirstArtistName(artists), f.date, Live)
  {
    if f.title == "" || f.artistName == "" || f.date == "" then
      SubmitOutcome(f, None, false)
    else
      var draft := EventDraft(f.artistName, f.title, f.date, f.eventType);
      SubmitOutcome(f.(title := "", artistName := FirstArtistName(artists), eventType := Live), Some(draft), true)
  }

  /** Submitting the post-save fields again saves nothing: the cleared title is caught.
      In the app this state is never submitted, since closing the form unmounts it and the
      next opening starts from InitialForm; the lemma shows the reset alone already
      prevents a second save. */
  lemma NoDoubleSave(f: FormState, artists: seq<Artist>)
    requires Submit(f, artists).saved.Some?
    ensures Submit(Submit(f, artists).form, artists).saved.None?
  {
  }

  /** A saved draft, passed through handleAddEvent and stored by addEvent, adds one event whose fields are the form's and whose
      id is the store's; if the chosen artist is tracked, every event still names a
      tracked artist. */
  lemma SaveStoresFormFields(st: Store, f: FormState, formId: string, storeId: string)
    requires Submit(f, st.myArtists).saved.Some?
    ensures var e := WithId(Submit(f, st.myArtists).saved.value, storeId);
      && AddEvent(st, HandleAddEvent(Submit(f, st.myArtists).saved.value, formId), storeId).events == st.events + [e]
      && e.title == f.title && e.artistName == f.artistName && e.date == f.date && e.eventType == f.eventType
    ensures EventsReferToArtists(st) && Tracks(st.myArtists, f.artistName) ==>
      EventsReferToArtists(AddEvent(st, HandleAddEvent(Submit(f, st.myArtists).saved.value, formId), storeId))
  {
  }

  /** With at least one artist (the only case the form is shown in), the form opens on a
      tracked artist and a filled-in date; only the title is missing, so saving the
      untouched form is refused. */
  lemma OpenFormIsConsistent(artists: seq<Artist>, preselected: Option<Date>, today: Date)
    requires |artists| > 0 && Showable(today)
    requires preselected.Some? ==> Showable(preselected.value)
    ensures Tracks(artists, InitialForm(artists, preselected, today).artistName)
    ensures InitialForm(artists, preselected, today).date != ""
    ensures Submit(InitialForm(artists, preselected, today), artists).saved.None?
  {
  }
}
