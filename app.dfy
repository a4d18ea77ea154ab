/**
 * The page script's data rules (assets/app.js): the user's initials, the
 * choice between the external content bundle and the built-in mock data,
 * the cross-tab session update, the calendar's fallback events and the
 * tour gallery's photo list. The page's globals `monasteries`,
 * `virtualTours` and `currentUser` are the fields of `Page`.
 */
module App {
  import opened Js
  import Text
  import opened Storage

  // ---------------------------------------------------------------------
  // Initials
  // ---------------------------------------------------------------------

  /** `(v || '').trim()` for a name field that holds text. */
  function TrimmedText(v: Option<Json>): string {
    Text.Trim(TextOf(v))
  }

  /**
   * `getUserInitials(user)`: "U" without a user; otherwise the upper-cased
   * first letter of the trimmed first name, else of the email, else "U",
   * followed by that of the trimmed last name when there is one.
   */
  function UserInitials(user: Option<Record>): (r: string)
    ensures user.None? ==> r == "U"
    ensures 1 <= |r| <= 2
    ensures |r| == 2 <==> user.Some? && TrimmedText(Get(user.value, "lastName")) != ""
  {
    if user.None? then "U" else [FirstInitial(user.value)] + LastInitial(user.value)
  }

  function FirstInitial(u: Record): char {
    var fn := TrimmedText(Get(u, "firstName"));
    var email := TextOf(Get(u, "email"));
    if fn != "" then Text.UpperChar(fn[0]) else if email != "" then Text.UpperChar(email[0]) else 'U'
  }

  function LastInitial(u: Record): string {
    var ln := TrimmedText(Get(u, "lastName"));
    if ln != "" then [Text.UpperChar(ln[0])] else []
  }

  /** No lower-case letter survives in the initials. */
  lemma InitialsUpperCase(user: Option<Record>)
    ensures forall i :: 0 <= i < |UserInitials(user)| ==> !('a' <= UserInitials(user)[i] <= 'z')
  {
    if user.Some? {
      var r := UserInitials(user);
      assert r == [FirstInitial(user.value)] + LastInitial(user.value);
      assert !('a' <= FirstInitial(user.value) <= 'z');
    }
  }

  /** Names that start with a letter give their two upper-cased first letters. */
  lemma InitialsOfFullName(u: Record, first: string, last: string)
    requires Get(u, "firstName") == Some(Str(first)) && Get(u, "lastName") == Some(Str(last))
    requires first != "" && !Text.IsSpace(first[0]) && last != "" && !Text.IsSpace(last[0])
    ensures UserInitials(Some(u)) == [Text.UpperChar(first[0]), Text.UpperChar(last[0])]
  {
    Text.TrimKeepsFirst(first);
    Text.TrimKeepsFirst(last);
    FirstInitialOf(u, first);
    LastInitialOf(u, last);
    InitialsFrom(u, Text.UpperChar(first[0]), Text.UpperChar(last[0]));
  }

  lemma InitialsFrom(u: Record, a: char, b: char)
    requires FirstInitial(u) == a && LastInitial(u) == [b]
    ensures UserInitials(Some(u)) == [a, b]
  {
    assert UserInitials(Some(u)) == [FirstInitial(u)] + LastInitial(u);
  }

  lemma FirstInitialOf(u: Record, first: string)
    requires Get(u, "firstName") == Some(Str(first)) && Text.Trim(first) != ""
    ensures FirstInitial(u) == Text.UpperChar(Text.Trim(first)[0])
  {
    assert TrimmedText(Get(u, "firstName")) == Text.Trim(first);
  }

  lemma LastInitialOf(u: Record, last: string)
    requires Get(u, "lastName") == Some(Str(last)) && Text.Trim(last) != ""
    ensures LastInitial(u) == [Text.UpperChar(Text.Trim(last)[0])]
  {
    assert TrimmedText(Get(u, "lastName")) == Text.Trim(last);
  }

  /**
   * Any first name with text in it gives the upper-cased first letter of its
   * trimmed form, leading white space or not; without a last name that is
   * the whole of the initials.
   */
  lemma InitialsOfFirstName(u: Record, first: string)
    requires Get(u, "firstName") == Some(Str(first)) && Text.Trim(first) != ""
    ensures UserInitials(Some(u))[0] == Text.UpperChar(Text.Trim(first)[0])
    ensures TrimmedText(Get(u, "lastName")) == "" ==> UserInitials(Some(u)) == [Text.UpperChar(Text.Trim(first)[0])]
  {
    FirstInitialOf(u, first);
    assert UserInitials(Some(u)) == [FirstInitial(u)] + LastInitial(u);
  }

  /** Without a usable first name the email's first letter stands in, and without either "U". */
  lemma InitialsFallBack(u: Record)
    requires TrimmedText(Get(u, "firstName")) == ""
    ensures var email := TextOf(Get(u, "email"));
            UserInitials(Some(u))[0] == if email != "" then Text.UpperChar(email[0]) else 'U'
  {
  }

  // ---------------------------------------------------------------------
  // Choosing the content
  // ---------------------------------------------------------------------

  /** `v.k` for a value that may not be an object: anything else has no properties. */
  function Prop(v: Json, k: string): Option<Json> {
    if v.Obj? then Get(v.fields, k) else None
  }

  /** `Array.isArray(v)`. */
  predicate IsArray(v: Option<Json>) {
    v.Some? && v.value.Arr?
  }

  /** `Array.isArray(content[k]) && content[k].length ? content[k] : mock`. */
  function ContentList(content: Json, k: string, mock: seq<Json>): seq<Json> {
    if IsArray(Prop(content, k)) && Prop(content, k).value.items != [] then Prop(content, k).value.items else mock
  }

  /**
   * The bundle's list is used exactly when it is a non-empty array; in
   * every other case the mock list is, so the page never shows an empty
   * list while the mocks are not empty.
   */
  lemma ContentListChoice(content: Json, k: string, mock: seq<Json>)
    ensures IsArray(Prop(content, k)) && Prop(content, k).value.items != [] ==>
              ContentList(content, k, mock) == Prop(content, k).value.items
    ensures ContentList(content, k, mock) != mock ==> Prop(content, k) == Some(Arr(ContentList(content, k, mock)))
    ensures mock != [] ==> ContentList(content, k, mock) != []
  {
  }

  /** `saveToLocalStorage(key, v)` seen as a function of the contents: kept only if the browser accepts it. */
  function Saved(cells: map<string, Cell>, accepts: (map<string, Cell>, string, Json) -> bool, key: string, v: Json)
    : map<string, Cell>
  {
    if accepts(cells, key, v) then cells[key := Encoded(v)] else cells
  }

  /** The store after the bundle's archives and events have been copied into it. */
  function CopyBundle(cells: map<string, Cell>, accepts: (map<string, Cell>, string, Json) -> bool, content: Json)
    : map<string, Cell>
  {
    var c1 := if IsArray(Prop(content, "archives")) then Saved(cells, accepts, "archives", Prop(content, "archives").value) else cells;
    if IsArray(Prop(content, "events")) then Saved(c1, accepts, "calendarEvents", Prop(content, "events").value) else c1
  }

  /** A save changes at most its own key, and only to the value saved. */
  lemma SavedTouchesOnlyKey(cells: map<string, Cell>, accepts: (map<string, Cell>, string, Json) -> bool,
                            key: string, v: Json, k: string)
    ensures var out := Saved(cells, accepts, key, v);
            k != key ==> (k in out <==> k in cells) && (k in cells ==> out[k] == cells[k])
    ensures var out := Saved(cells, accepts, key, v);
            key in out && !(key in cells && cells[key] == out[key]) ==> out[key] == Encoded(v)
  {
  }

  /**
   * Only `archives` and `calendarEvents` can change, each only when the
   * bundle has an array for it, and then to that array.
   */
  lemma CopyBundleWrites(cells: map<string, Cell>, accepts: (map<string, Cell>, string, Json) -> bool, content: Json, k: string)
    ensures var out := CopyBundle(cells, accepts, content);
            k != "archives" && k != "calendarEvents" ==> (k in out <==> k in cells) && (k in cells ==> out[k] == cells[k])
    ensures var out := CopyBundle(cells, accepts, content);
            "archives" in out && !("archives" in cells && cells["archives"] == out["archives"]) ==>
              IsArray(Prop(content, "archives")) && out["archives"] == Encoded(Prop(content, "archives").value)
    ensures var out := CopyBundle(cells, accepts, content);
            "calendarEvents" in out && !("calendarEvents" in cells && cells["calendarEvents"] == out["calendarEvents"]) ==>
              IsArray(Prop(content, "events")) && out["calendarEvents"] == Encoded(Prop(content, "events").value)
  {
    var c1 := if IsArray(Prop(content, "archives")) then Saved(cells, accepts, "archives", Prop(content, "archives").value) else cells;
    if IsArray(Prop(content, "archives")) {
      SavedTouchesOnlyKey(cells, accepts, "archives", Prop(content, "archives").value, k);
      SavedTouchesOnlyKey(cells, accepts, "archives", Prop(content, "archives").value, "calendarEvents");
    }
    if IsArray(Prop(content, "events")) {
      SavedTouchesOnlyKey(c1, accepts, "calendarEvents", Prop(content, "events").value, k);
      SavedTouchesOnlyKey(c1, accepts, "calendarEvents", Prop(content, "events").value, "archives");
    }
  }

  /** The text of `currentUser` as read at start-up: absent or empty leaves the session as it was. */
  function SessionAtStart(cells: map<string, Cell>, current: Json): Json {
    if "currentUser" !in cells then current
    else match cells["currentUser"]
      case Blank => current
      case Garbled => Null
      case Encoded(v) => v
  }

  // ---------------------------------------------------------------------
  // The cross-tab session rule
  // ---------------------------------------------------------------------

  /**
   * The session a `storage` event for `currentUser` carries: its new text
   * parsed, or null when the key was removed (`None`), the text is empty
   * or it does not parse.
   */
  function SessionFromEvent(newValue: Option<Cell>): Json {
    match newValue
    case None => Null
    case Some(Blank) => Null
    case Some(Garbled) => Null
    case Some(Encoded(v)) => v
  }

  /**
   * The listener adopts what `getFromLocalStorage('currentUser', null)`
   * would read in the tab that made the change: the same parsed value,
   * and null where the reader falls back to its default.
   */
  lemma EventMatchesRead(cells: map<string, Cell>, newValue: Option<Cell>)
    ensures var after := if newValue.Some? then cells["currentUser" := newValue.value] else cells - {"currentUser"};
            SessionFromEvent(newValue) == Read(after, "currentUser", Null)
  {
  }

  // ---------------------------------------------------------------------
  // The calendar
  // ---------------------------------------------------------------------

  function Event(date: string, title: string, desc: string, badge: string, color: string): Json {
    Obj(map["date" := Str(date), "title" := Str(title), "desc" := Str(desc), "badge" := Str(badge), "color" := Str(color)])
  }

  /** The four festival dates `loadCalendar` shows when no events are stored. */
  const BuiltInEvents: seq<Json> := [
    Event("Mar 15", "Losar Festival", "Tibetan New Year celebration at Rumtek Monastery", "Festival", "bg-prayer-red"),
    Event("Apr 22", "Buddha Jayanti", "Birth anniversary of Buddha across all monasteries", "Sacred Day", "bg-monastery-gold"),
    Event("Jun 08", "Hemis Festival", "Masked dance ceremony honoring Guru Padmasambhava", "Ceremony", "bg-prayer-blue"),
    Event("Sep 12", "Drupka Teshi", "First sermon of Buddha commemoration", "Teaching", "bg-prayer-green")
  ]

  /** `getFromLocalStorage('calendarEvents', null) || [ …four events… ]`. */
  function CalendarEvents(cells: map<string, Cell>): Json {
    var stored := Read(cells, "calendarEvents", Null);
    if Truthy(Some(stored)) then stored else Arr(BuiltInEvents)
  }

  /**
   * The built-in events are shown exactly when the stored value is
   * missing, empty, unreadable or falsy; otherwise the stored value is.
   */
  lemma CalendarFallback(cells: map<string, Cell>)
    ensures "calendarEvents" !in cells ==> CalendarEvents(cells) == Arr(BuiltInEvents) && |BuiltInEvents| == 4
    ensures CalendarEvents(cells) == Arr(BuiltInEvents) || CalendarEvents(cells) == cells["calendarEvents"].value
    ensures CalendarEvents(cells) != Arr(BuiltInEvents) ==>
              "calendarEvents" in cells && cells["calendarEvents"].Encoded? && Truthy(Some(cells["calendarEvents"].value))
  {
  }

  /**
   * A list of events written to the store is what the calendar shows, even
   * an empty one: an empty array is truthy, so it does not bring back the
   * built-in events.
   */
  lemma StoredEventsShown(cells: map<string, Cell>, events: seq<Json>)
    ensures CalendarEvents(cells["calendarEvents" := Encoded(Arr(events))]) == Arr(events)
  {
    ReadAfterWrite(cells, "calendarEvents", Arr(events), "calendarEvents", Null);
  }

  // ---------------------------------------------------------------------
  // The tour gallery
  // ---------------------------------------------------------------------

  /** At most this many photos are shown in a tour's gallery. */
  const MaxPhotos: nat := 8

  /** The message of the TypeError `tour.monasteryId` throws when no tour has the id. */
  const NoTour := "Cannot read properties of undefined (reading 'monasteryId')"

  /** What `.slice(0, 8).map(…)` throws on a truthy `photos` that is not an array. */
  const NotAList := "photos.slice(...).map is not a function"

  /** A gallery: the image sources in order; `None` is an `undefined` source. */
  type Photos = seq<Option<Json>>

  /**
   * `(monastery?.photos || [tour.image]).slice(0, 8)`: the first eight
   * photos of the tour's monastery, or the tour's own image when the
   * monastery is unknown or has no photos.
   */
  function PhotosOf(tour: Json, monastery: Option<Json>): (r: Result<Photos>)
    ensures r.Ok? ==> |r.value| <= MaxPhotos
    ensures var list := if monastery.Some? then Prop(monastery.value, "photos") else None;
            && (!Truthy(list) ==> r == Ok([Prop(tour, "image")]))
            && (Truthy(list) && list.value.Arr? ==>
                  r.Ok? && |r.value| == Min(|list.value.items|, MaxPhotos)
                  && forall i :: 0 <= i < |r.value| ==> r.value[i] == Some(list.value.items[i]))
            && (Truthy(list) && !list.value.Arr? ==> r == Err(NotAList))
  {
    var list := if monastery.Some? then Prop(monastery.value, "photos") else None;
    if !Truthy(list) then Ok([Prop(tour, "image")])
    else if list.value.Arr? then
      var items := list.value.items;
      Ok(seq(Min(|items|, MaxPhotos), i requires 0 <= i < Min(|items|, MaxPhotos) => Some(items[i])))
    else Err(NotAList)
  }

  /** `list.find(x => x.id === id)`: the first member with the id. */
  function FindById(list: seq<Json>, id: Json): (r: Option<Json>)
    ensures r.Some? ==> r.value in list && Prop(r.value, "id") == Some(id)
    ensures r.Some? ==> exists i :: 0 <= i < |list| && list[i] == r.value &&
                          forall j :: 0 <= j < i ==> Prop(list[j], "id") != Some(id)
    ensures r.None? <==> forall j :: 0 <= j < |list| ==> Prop(list[j], "id") != Some(id)
  {
    match FirstWhere(list, (x: Json) => Prop(x, "id") == Some(id))
    case Some(i) => Some(list[i])
    case None => None
  }

  /** With two members sharing an id, `find` returns the earlier one. */
  lemma FirstOfSharedId(a: Json, b: Json, id: Json)
    requires Prop(a, "id") == Some(id) && Prop(b, "id") == Some(id)
    ensures FindById([a, b], id) == Some(a)
  {
    assert [a, b][0] == a;
  }

  /**
   * `monasteries.find(m => m.id === tour.monasteryId)`. When the tour has
   * no `monasteryId` the test is `m.id === undefined`, which is met by the
   * first monastery with no `id` at all (an `id` of `null` does not meet it).
   */
  function MonasteryOf(monasteries: seq<Json>, tour: Json): (r: Option<Json>)
    ensures r.Some? ==> r.value in monasteries && Prop(r.value, "id") == Prop(tour, "monasteryId")
    ensures r.Some? ==> exists i :: 0 <= i < |monasteries| && monasteries[i] == r.value &&
                          forall j :: 0 <= j < i ==> Prop(monasteries[j], "id") != Prop(tour, "monasteryId")
    ensures r.None? <==>
              forall j :: 0 <= j < |monasteries| ==> Prop(monasteries[j], "id") != Prop(tour, "monasteryId")
  {
    match Prop(tour, "monasteryId")
    case None =>
      (match FirstWhere(monasteries, (m: Json) => Prop(m, "id").None?)
       case Some(i) => Some(monasteries[i])
       case None => None)
    case Some(mid) => FindById(monasteries, mid)
  }

  /**
   * A tour without `monasteryId` takes the photos of the first monastery
   * that has no `id`; a monastery whose `id` is `null` is not that one.
   */
  lemma MonasteryOfUnlinkedTour(monasteries: seq<Json>, tour: Json, k: nat)
    requires Prop(tour, "monasteryId").None?
    requires k < |monasteries| && Prop(monasteries[k], "id").None?
    requires forall j :: 0 <= j < k ==> Prop(monasteries[j], "id").Some?
    ensures MonasteryOf(monasteries, tour) == Some(monasteries[k])
  {
    var r := FirstWhere(monasteries, (m: Json) => Prop(m, "id").None?);
    assert r.Some? && r.value == k;
  }

  /** A monastery with `id: null` is not the monastery of a tour without `monasteryId`. */
  lemma NullIdIsNotMissing(photos: seq<Json>)
    ensures var m := Obj(map["id" := Null, "photos" := Arr(photos)]);
            var tour := Obj(map["id" := Str("t"), "image" := Str("i")]);
            MonasteryOf([m], tour) == None
            && TourGallery([tour], [m], Str("t")) == Ok(Some([Some(Str("i"))]))
  {
    var m := Obj(map["id" := Null, "photos" := Arr(photos)]);
    var tour := Obj(map["id" := Str("t"), "image" := Str("i")]);
    assert Prop(m, "id") == Some(Null);
    assert Prop(tour, "monasteryId") == None;
  }

  /**
   * The gallery of `openTourModal(tourId)` as written: the monastery is
   * looked up through `tour.monasteryId` before the `if (!tour) return`
   * guard. For an unknown tour id the `find` callback throws as soon as it
   * runs, that is whenever there is a monastery to test; with no
   * monasteries the callback never runs and the guard returns quietly.
   */
  function TourGalleryAsWritten(tours: seq<Json>, monasteries: seq<Json>, tourId: Json): Result<Option<Photos>> {
    match FindById(tours, tourId)
    case None => if monasteries == [] then Ok(None) else Err(NoTour)
    case Some(tour) =>
      match PhotosOf(tour, MonasteryOf(monasteries, tour))
      case Ok(photos) => Ok(Some(photos))
      case Err(m) => Err(m)
  }

  /**
   * The gallery with the guard first: an unknown tour id opens nothing
   * (`Ok(None)`); a known one shows the photos of its monastery.
   */
  function TourGallery(tours: seq<Json>, monasteries: seq<Json>, tourId: Json): Result<Option<Photos>> {
    match FindById(tours, tourId)
    case None => Ok(None)
    case Some(tour) =>
      match PhotosOf(tour, MonasteryOf(monasteries, tour))
      case Ok(photos) => Ok(Some(photos))
      case Err(m) => Err(m)
  }

  /**
   * The guarded gallery opens nothing exactly for an unknown tour id. When
   * there are monasteries, that is exactly where the code as written
   * throws; with none, or for a known tour, the two agree, and a shown
   * gallery has at most eight photos.
   */
  lemma GalleryGuarded(tours: seq<Json>, monasteries: seq<Json>, tourId: Json)
    ensures TourGallery(tours, monasteries, tourId) == Ok(None) <==>
              forall j :: 0 <= j < |tours| ==> Prop(tours[j], "id") != Some(tourId)
    ensures monasteries != [] ==>
              (TourGallery(tours, monasteries, tourId) == Ok(None) <==>
               TourGalleryAsWritten(tours, monasteries, tourId) == Err(NoTour))
    ensures monasteries == [] ==>
              TourGallery(tours, monasteries, tourId) == TourGalleryAsWritten(tours, monasteries, tourId)
    ensures TourGallery(tours, monasteries, tourId) != Ok(None) ==>
              TourGallery(tours, monasteries, tourId) == TourGalleryAsWritten(tours, monasteries, tourId)
    ensures var g := TourGallery(tours, monasteries, tourId);
            g.Ok? && g.value.Some? ==> |g.value.value| <= MaxPhotos
  {
  }

  /**
   * Opening a tour that does not exist while monasteries are loaded (as
   * they always are after `initializeApp`): the code as written throws,
   * the guarded version shows nothing. With no monasteries both return.
   */
  lemma UnknownTourThrows(monastery: Json)
    ensures TourGalleryAsWritten([], [monastery], Str("5")) == Err(NoTour)
    ensures TourGallery([], [monastery], Str("5")) == Ok(None)
    ensures TourGalleryAsWritten([], [], Str("5")) == Ok(None)
  {
  }

  // ---------------------------------------------------------------------
  // The page's globals
  // ---------------------------------------------------------------------

  class Page {
    var monasteries: seq<Json>
    var virtualTours: seq<Json>
    var currentUser: Json            // `null` is `Null`
    const mockMonasteries: seq<Json>
    const mockVirtualTours: seq<Json>

    constructor (mockMonasteries: seq<Json>, mockVirtualTours: seq<Json>)
      ensures this.mockMonasteries == mockMonasteries && this.mockVirtualTours == mockVirtualTours
      ensures monasteries == [] && virtualTours == [] && currentUser == Null
    {
      this.mockMonasteries := mockMonasteries;
      this.mockVirtualTours := mockVirtualTours;
      monasteries := [];
      virtualTours := [];
      currentUser := Null;
    }

    /**
     * The data part of `initializeApp()`: the lists come from a truthy
     * content bundle when it has non-empty arrays for them and from the
     * mocks otherwise; the bundle's archive and event arrays are copied into
     * the store; a stored session is adopted.
     */
    method InitializeApp(storage: BrowserStorage, content: Option<Json>)
      modifies this, storage
      ensures Truthy(content) ==>
                && monasteries == ContentList(content.value, "monasteries", mockMonasteries)
                && virtualTours == ContentList(content.value, "tours", mockVirtualTours)
                && storage.cells == CopyBundle(old(storage.cells), storage.Accepts, content.value)
      ensures !Truthy(content) ==>
                monasteries == mockMonasteries && virtualTours == mockVirtualTours && storage.cells == old(storage.cells)
      ensures currentUser == SessionAtStart(storage.cells, old(currentUser))
    {
      if Truthy(content) {
        var bundle := content.value;
        monasteries := ContentList(bundle, "monasteries", mockMonasteries);
        virtualTours := ContentList(bundle, "tours", mockVirtualTours);
        if IsArray(Prop(bundle, "archives")) {
          var _ := storage.SaveToLocalStorage("archives", Prop(bundle, "archives").value);
        }
        if IsArray(Prop(bundle, "events")) {
          var _ := storage.SaveToLocalStorage("calendarEvents", Prop(bundle, "events").value);
        }
      } else {
        monasteries := mockMonasteries;
        virtualTours := mockVirtualTours;
      }
      if "currentUser" in storage.cells {
        match storage.cells["currentUser"]
        case Blank =>
        case Garbled => currentUser := Null;   // JSON.parse threw
        case Encoded(v) => currentUser := v;
      }
    }

    /**
     * The `storage` event listener: an event for `currentUser` replaces the
     * session with the one it carries; events for other keys (or for the
     * whole store being cleared, `key == None`) change nothing.
     */
    method OnStorage(key: Option<string>, newValue: Option<Cell>)
      modifies this
      ensures key == Some("currentUser") ==> currentUser == SessionFromEvent(newValue)
      ensures key != Some("currentUser") ==> currentUser == old(currentUser)
      ensures monasteries == old(monasteries) && virtualTours == old(virtualTours)
    {
      if key == Some("currentUser") {
        if newValue.Some? && newValue.value.Encoded? {
          currentUser := newValue.value.value;
        } else {
          currentUser := Null;   // removed, empty, or JSON.parse threw
        }
      }
    }
  }
}
