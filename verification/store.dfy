/** The app's two persisted lists and the four callbacks that replace them (App.tsx).
    Every update builds a new list from the old one; nothing is changed in place. */
module Store {
  import opened Options
  import opened Types
  import opened Lists

  datatype Store = Store(myArtists: seq<Artist>, events: seq<Event>)

  /** `artists.find(a => a.name === name)`: the first artist with that name, if any. */
  function FindArtist(artists: seq<Artist>, name: string): (r: Option<Artist>)
    ensures r.None? <==> !Tracks(artists, name)
    ensures r.Some? ==> exists i :: 0 <= i < |artists| && artists[i] == r.value && r.value.name == name
                          && forall j :: 0 <= j < i ==> artists[j].name != name
  {
    if |artists| == 0 then None
    else if artists[0].name == name then Some(artists[0])
    else
      var r := FindArtist(artists[1..], name);
      assert forall a :: a in artists[1..] ==> a in artists;
      assert artists == [artists[0]] + artists[1..];
      if r.Some? then
        var i :| 0 <= i < |artists[1..]| && artists[1..][i] == r.value && r.value.name == name
                 && forall j :: 0 <= j < i ==> artists[1..][j].name != name;
        assert artists[i + 1] == r.value;
        r
      else r
  }

  /** Some artist in the list has this name. */
  predicate Tracks(artists: seq<Artist>, name: string)
  {
    exists a :: a in artists && a.name == name
  }

  /** No two artists in the list share a name. */
  predicate UniqueNames(artists: seq<Artist>)
  {
    forall i, j :: 0 <= i < j < |artists| ==> artists[i].name != artists[j].name
  }

  /** Every event names an artist that is in the list. */
  predicate EventsReferToArtists(st: Store)
  {
    forall e :: e in st.events ==> Tracks(st.myArtists, e.artistName)
  }

  function NameIsNot(name: string): Artist -> bool
  {
    (a: Artist) => a.name != name
  }

  function NameIs(name: string): Artist -> bool
  {
    (a: Artist) => a.name == name
  }

  function NotByArtist(name: string): Event -> bool
  {
    (e: Event) => e.artistName != name
  }

  function ByArtist(name: string): Event -> bool
  {
    (e: Event) => e.artistName == name
  }

  function IdIsNot(id: string): Event -> bool
  {
    (e: Event) => e.id != id
  }

  function IdIs(id: string): Event -> bool
  {
    (e: Event) => e.id == id
  }

  /** addArtist: appends the artist unless one with the same name is already tracked. */
  function AddArtist(st: Store, artist: Artist): (r: Store)
    ensures r.events == st.events
    ensures Tracks(st.myArtists, artist.name) ==> r == st
    ensures !Tracks(st.myArtists, artist.name) ==> r.myArtists == st.myArtists + [artist]
    ensures Tracks(r.myArtists, artist.name)
    ensures UniqueNames(st.myArtists) ==> UniqueNames(r.myArtists)
    ensures EventsReferToArtists(st) ==> EventsReferToArtists(r)
  {
    if FindArtist(st.myArtists, artist.name).None? then
      var r := st.(myArtists := st.myArtists + [artist]);
      assert artist in r.myArtists;
      assert forall a :: a in st.myArtists ==> a in r.myArtists;
      r
    else
      st
  }

  /** removeArtist: drops the artist with that name and, in the same step, every event
      that refers to it. */
  function RemoveArtist(st: Store, name: string): (r: Store)
    ensures !Tracks(r.myArtists, name)
    ensures forall a :: a in r.myArtists <==> a in st.myArtists && a.name != name
    ensures forall e :: e in r.events <==> e in st.events && e.artistName != name
    ensures UniqueNames(st.myArtists) ==> UniqueNames(r.myArtists)
    ensures EventsReferToArtists(st) ==> EventsReferToArtists(r)
  {
    var r := Store(Filter(st.myArtists, NameIsNot(name)), Filter(st.events, NotByArtist(name)));
    if UniqueNames(st.myArtists) then
      FilterKeepsUniqueNames(st.myArtists, NameIsNot(name));
      r
    else r
  }

  lemma {:induction false} FilterKeepsUniqueNames(s: seq<Artist>, p: Artist -> bool)
    requires UniqueNames(s)
    ensures UniqueNames(Filter(s, p))
  {
    if |s| > 0 {
      var rest := Filter(s[1..], p);
      FilterKeepsUniqueNames(s[1..], p);
      if p(s[0]) {
        var r := [s[0]] + rest;
        forall i, j | 0 <= i < j < |r| ensures r[i].name != r[j].name {
          if i == 0 {
            assert r[j] in s[1..];
            var k :| 0 <= k < |s[1..]| && s[1..][k] == r[j];
            assert s[k + 1] == r[j];
          } else {
            assert r[i] == rest[i - 1] && r[j] == rest[j - 1];
          }
        }
      }
    }
  }

  /** addEvent: appends the event with its id replaced by `freshId` (the app passes
      the current clock reading). */
  function AddEvent(st: Store, event: Event, freshId: string): (r: Store)
    ensures r.myArtists == st.myArtists
    ensures |r.events| == |st.events| + 1 && r.events[..|st.events|] == st.events
    ensures r.events[|st.events|].id == freshId
    ensures r.events[|st.events|] == event.(id := freshId)
    ensures EventsReferToArtists(r) <==> EventsReferToArtists(st) && Tracks(st.myArtists, event.artistName)
  {
    var added := event.(id := freshId);
    var r := st.(events := st.events + [added]);
    assert added in r.events;
    assert forall e :: e in r.events <==> e in st.events || e == added;
    r
  }

  /** removeEvent: keeps every event whose id differs. */
  function RemoveEvent(st: Store, id: string): (r: Store)
    ensures r.myArtists == st.myArtists
    ensures forall e :: e in r.events <==> e in st.events && e.id != id
    ensures |r.events| <= |st.events|
    ensures EventsReferToArtists(st) ==> EventsReferToArtists(r)
  {
    st.(events := Filter(st.events, IdIsNot(id)))
  }

  // ---- Properties relating the operations ----

  /** Adding an artist twice is adding it once. */
  lemma AddArtistIdempotent(st: Store, artist: Artist)
    ensures AddArtist(AddArtist(st, artist), artist) == AddArtist(st, artist)
  {
  }

  /** Removing by name twice is removing once. */
  lemma RemoveArtistIdempotent(st: Store, name: string)
    ensures RemoveArtist(RemoveArtist(st, name), name) == RemoveArtist(st, name)
  {
    FilterIdempotent(st.myArtists, NameIsNot(name));
    FilterIdempotent(st.events, NotByArtist(name));
  }

  /** Removing a name nobody uses changes nothing. */
  lemma RemoveUnknownArtist(st: Store, name: string)
    requires !Tracks(st.myArtists, name)
    requires forall e :: e in st.events ==> e.artistName != name
    ensures RemoveArtist(st, name) == st
  {
    FilterKeepsAll(st.myArtists, NameIsNot(name));
    FilterKeepsAll(st.events, NotByArtist(name));
  }

  /** Removing an artist just added, before any event refers to it, restores the store. */
  lemma RemoveUndoesAddArtist(st: Store, artist: Artist)
    requires !Tracks(st.myArtists, artist.name)
    requires forall e :: e in st.events ==> e.artistName != artist.name
    ensures RemoveArtist(AddArtist(st, artist), artist.name) == st
  {
    var p := NameIsNot(artist.name);
    FilterConcat(st.myArtists, [artist], p);
    FilterKeepsAll(st.myArtists, p);
    assert Filter([artist], p) == [] by {
      assert [artist][1..] == [];
    }
    FilterKeepsAll(st.events, NotByArtist(artist.name));
  }

  /** removeArtist keeps the surviving artists in their original relative order. */
  lemma RemoveArtistKeepsArtistOrder(st: Store, name: string, i: int, j: int)
    requires 0 <= i < j < |st.myArtists| && st.myArtists[i].name != name && st.myArtists[j].name != name
    ensures var r := RemoveArtist(st, name);
      exists i', j' :: 0 <= i' < j' < |r.myArtists| && r.myArtists[i'] == st.myArtists[i] && r.myArtists[j'] == st.myArtists[j]
  {
    var r := RemoveArtist(st, name);
    FilterKeepsOrder(st.myArtists, NameIsNot(name), i, j);
    var i', j' := |Filter(st.myArtists[..i], NameIsNot(name))|, |Filter(st.myArtists[..j], NameIsNot(name))|;
    assert r.myArtists[i'] == st.myArtists[i] && r.myArtists[j'] == st.myArtists[j];
  }

  /** removeArtist keeps the surviving events in their original relative order. */
  lemma RemoveArtistKeepsEventOrder(st: Store, name: string, k: int, l: int)
    requires 0 <= k < l < |st.events| && st.events[k].artistName != name && st.events[l].artistName != name
    ensures var r := RemoveArtist(st, name);
      exists k', l' :: 0 <= k' < l' < |r.events| && r.events[k'] == st.events[k] && r.events[l'] == st.events[l]
  {
    var r := RemoveArtist(st, name);
    FilterKeepsOrder(st.events, NotByArtist(name), k, l);
    var k', l' := |Filter(st.events[..k], NotByArtist(name))|, |Filter(st.events[..l], NotByArtist(name))|;
    assert r.events[k'] == st.events[k] && r.events[l'] == st.events[l];
  }

  /** removeArtist deletes exactly the events that name the artist: the number of events
      falls by the number of that artist's events. */
  lemma RemoveArtistEventCount(st: Store, name: string)
    ensures |RemoveArtist(st, name).events| == |st.events| - |Filter(st.events, ByArtist(name))|
  {
    FilterSplitsLength(st.events, NotByArtist(name), ByArtist(name));
  }

  /** With distinct names, removing a tracked artist lowers the artist count by exactly one. */
  lemma RemoveTrackedArtistCount(st: Store, name: string)
    requires UniqueNames(st.myArtists) && Tracks(st.myArtists, name)
    ensures |RemoveArtist(st, name).myArtists| == |st.myArtists| - 1
  {
    FilterSplitsLength(st.myArtists, NameIsNot(name), NameIs(name));
    OneArtistPerName(st.myArtists, name);
  }

  lemma {:induction false} OneArtistPerName(s: seq<Artist>, name: string)
    requires UniqueNames(s) && Tracks(s, name)
    ensures |Filter(s, NameIs(name))| == 1
  {
    assert s == [s[0]] + s[1..];
    if s[0].name == name {
      assert !Tracks(s[1..], name) by {
        forall a | a in s[1..] ensures a.name != name {
          var k :| 0 <= k < |s[1..]| && s[1..][k] == a;
          assert s[k + 1] == a;
        }
      }
      FilterKeepsNone(s[1..], NameIs(name));
    } else {
      assert UniqueNames(s[1..]) by {
        forall i, j | 0 <= i < j < |s[1..]| ensures s[1..][i].name != s[1..][j].name {
          assert s[1..][i] == s[i + 1] && s[1..][j] == s[j + 1];
        }
      }
      var a :| a in s && a.name == name;
      assert a in s[1..];
      OneArtistPerName(s[1..], name);
    }
  }

  /** Removing by id twice is removing once. */
  lemma RemoveEventIdempotent(st: Store, id: string)
    ensures RemoveEvent(RemoveEvent(st, id), id) == RemoveEvent(st, id)
  {
    FilterIdempotent(st.events, IdIsNot(id));
  }

  /** Removing an id no event has changes nothing. */
  lemma RemoveAbsentEvent(st: Store, id: string)
    requires forall e :: e in st.events ==> e.id != id
    ensures RemoveEvent(st, id) == st
  {
    FilterKeepsAll(st.events, IdIsNot(id));
  }

  /** removeEvent deletes every event carrying the id and nothing else. */
  lemma RemoveEventCount(st: Store, id: string)
    ensures |RemoveEvent(st, id).events| == |st.events| - |Filter(st.events, IdIs(id))|
  {
    FilterSplitsLength(st.events, IdIsNot(id), IdIs(id));
  }

  /** removeEvent keeps the surviving events in their original relative order. */
  lemma RemoveEventKeepsOrder(st: Store, id: string, k: int, l: int)
    requires 0 <= k < l < |st.events| && st.events[k].id != id && st.events[l].id != id
    ensures var r := RemoveEvent(st, id);
      exists k', l' :: 0 <= k' < l' < |r.events| && r.events[k'] == st.events[k] && r.events[l'] == st.events[l]
  {
    var r := RemoveEvent(st, id);
    FilterKeepsOrder(st.events, IdIsNot(id), k, l);
    var k', l' := |Filter(st.events[..k], IdIsNot(id))|, |Filter(st.events[..l], IdIsNot(id))|;
    assert r.events[k'] == st.events[k] && r.events[l'] == st.events[l];
  }

  /** Removing, by its id, an event just added under an id no other event has restores
      the store. */
  lemma RemoveUndoesAddEvent(st: Store, event: Event, freshId: string)
    requires forall e :: e in st.events ==> e.id != freshId
    ensures RemoveEvent(AddEvent(st, event, freshId), freshId) == st
  {
    var p := IdIsNot(freshId);
    var added := event.(id := freshId);
    assert AddEvent(st, event, freshId).events == st.events + [added];
    FilterConcat(st.events, [added], p);
    FilterKeepsAll(st.events, p);
    assert Filter([added], p) == [] by {
      assert [added][1..] == [];
    }
  }
}
