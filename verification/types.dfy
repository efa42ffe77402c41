/** The records and tags shared by every screen (types.ts). */
module Types {
  import opened Options

  /** A tracked artist. Artists are told apart by `name`: the collection keeps names
      distinct and events refer to their artist by this string. */
  datatype Artist = Artist(name: string, genre: string, description: string, officialWebsite: string)

  /** The four kinds of event; `TVAppearance` is the one spelled "TV Appearance". */
  datatype EventType = Live | Release | TVAppearance | Other

  /** A dated occurrence. `date` is the calendar day as written by the date input,
      "YYYY-MM-DD" with no time component; `artistName` is the only link to an artist. */
  datatype Event = Event(id: string, artistName: string, title: string, date: string, eventType: EventType)

  /** An event before it has an id (`Omit<Event, 'id'>`). */
  datatype EventDraft = EventDraft(artistName: string, title: string, date: string, eventType: EventType)

  /** The five screens, one shown at a time. */
  datatype View = Dashboard | Calendar | MyArtists | Search | Settings

  /** The draft with `id` added and every other field copied. */
  function WithId(d: EventDraft, id: string): (e: Event)
    ensures e.id == id
    ensures EventDraft(e.artistName, e.title, e.date, e.eventType) == d
  {
    Event(id, d.artistName, d.title, d.date, d.eventType)
  }

  /** The string literal each event type is stored and shown as. */
  function EventTypeLabel(t: EventType): string
  {
    match t
    case Live => "Live"
    case Release => "Release"
    case TVAppearance => "TV Appearance"
    case Other => "Other"
  }

  /** Reads a stored type label back; anything but the four literals is not an event type. */
  function ParseEventType(s: string): (r: Option<EventType>)
    ensures r.Some? ==> EventTypeLabel(r.value) == s
  {
    if s == "Live" then Some(Live)
    else if s == "Release" then Some(Release)
    else if s == "TV Appearance" then Some(TVAppearance)
    else if s == "Other" then Some(Other)
    else None
  }

  /** Every event type survives being written as its label and read back, so the four
      labels are distinct and the union type has exactly four members. */
  lemma EventTypeRoundTrip(t: EventType)
    ensures ParseEventType(EventTypeLabel(t)) == Some(t)
  {
  }

  /** The string literal each view is named by. */
  function ViewKey(v: View): string
  {
    match v
    case Dashboard => "dashboard"
    case Calendar => "calendar"
    case MyArtists => "my-artists"
    case Search => "search"
    case Settings => "settings"
  }

  /** Reads a view name back; anything but the five literals is not a view. */
  function ParseView(s: string): (r: Option<View>)
    ensures r.Some? ==> ViewKey(r.value) == s
  {
    if s == "dashboard" then Some(Dashboard)
    else if s == "calendar" then Some(Calendar)
    else if s == "my-artists" then Some(MyArtists)
    else if s == "search" then Some(Search)
    else if s == "settings" then Some(Settings)
    else None
  }

  /** Every view survives being named and read back: the five names are distinct. */
  lemma ViewRoundTrip(v: View)
    ensures ParseView(ViewKey(v)) == Some(v)
  {
  }
}
