/**
 The events route (`app/api/events/route.ts`): `GET` lists events by date,
 optionally only featured or only upcoming ones; `POST` creates an event
 from a fixed set of body fields; `PATCH` and `DELETE` act on one id.
 */
module EventsApi {
  import opened Wrappers
  import opened Text
  import opened JsonValues
  import opened Rows
  import opened Http
  import opened Ordering
  import Dates
  import ListUpdates

  const ListError := "Error al obtener eventos"
  const RequiredError := "Nombre del DJ y fecha son requeridos"
  const CreateError := "Error al crear el evento"
  const UpdateError := "Error al actualizar el evento"
  const DeleteError := "Error al eliminar el evento"

  // ----- GET -----

  /** The filters the query applies; each is on only when its parameter is
      exactly `true`. */
  predicate Selected(featured: Option<string>, upcoming: Option<string>, today: string, e: Event) {
    && (featured == Some("true") ==> e.featured)
    && (upcoming == Some("true") ==> LexLe(today, e.eventDate))
  }

  /** `GET /api/events?featured=&upcoming=`: `date` is the civil date in
      Mexico City, `rows` the table or `None` when the query failed. */
  function List(featured: Option<string>, upcoming: Option<string>, date: Dates.CivilDate, rows: Option<seq<Event>>)
    : (r: Reply<seq<Event>>)
    ensures rows.None? <==> r.Fail?
    ensures r.Ok? ==> SortedBy(r.body, EventDateKey)
    ensures r.Ok? ==>
      multiset(r.body) == multiset(ListUpdates.Filter(rows.value, e => Selected(featured, upcoming, Dates.Today(date), e)))
    ensures r.Ok? && featured == Some("true") ==> forall i :: 0 <= i < |r.body| ==> r.body[i].featured
    ensures r.Ok? && upcoming == Some("true") ==>
      forall i :: 0 <= i < |r.body| ==> LexLe(Dates.Today(date), r.body[i].eventDate)
    ensures r.Ok? ==> forall i :: 0 <= i < |r.body| ==> r.body[i] in rows.value
  {
    if rows.None? then Fail(500, ListError)
    else
      var today := Dates.Today(date);
      var hits := ListUpdates.Filter(rows.value, e => Selected(featured, upcoming, today, e));
      var sorted := SortBy(hits, EventDateKey);
      SortedHits(rows.value, hits, sorted, e => Selected(featured, upcoming, today, e));
      Ok(sorted)
  }

  /** A rearrangement of selected rows holds only selected rows. */
  lemma SortedHits(rows: seq<Event>, hits: seq<Event>, sorted: seq<Event>, keep: Event -> bool)
    requires forall i :: 0 <= i < |hits| ==> hits[i] in rows && keep(hits[i])
    requires multiset(sorted) == multiset(hits)
    ensures forall i :: 0 <= i < |sorted| ==> sorted[i] in rows && keep(sorted[i])
  {
    forall i | 0 <= i < |sorted| ensures sorted[i] in rows && keep(sorted[i]) {
      assert sorted[i] in multiset(hits);
    }
  }

  /** A parameter other than exactly `true` (`TRUE`, `1`, empty, absent)
      filters nothing. */
  lemma OnlyExactTrueFilters(featured: Option<string>, upcoming: Option<string>, date: Dates.CivilDate, rows: seq<Event>)
    requires featured != Some("true") && upcoming != Some("true")
    ensures multiset(List(featured, upcoming, date, Some(rows)).body) == multiset(rows)
  {
    ListUpdates.FilterAll(rows, e => Selected(featured, upcoming, Dates.Today(date), e));
  }

  /** For events dated in the same `YYYY-MM-DD` form, the upcoming filter
      keeps exactly the events not before today on the calendar. */
  lemma UpcomingIsCalendarOrder(today: Dates.CivilDate, day: Dates.CivilDate, e: Event)
    requires Dates.Plausible(today) && Dates.Plausible(day) && e.eventDate == Dates.Today(day)
    ensures Selected(None, Some("true"), Dates.Today(today), e) <==> !Dates.Before(day, today)
  {
    Dates.TodayOrder(day, today);
  }

  // ----- POST -----

  /** The row `POST` inserts: only these seven columns. */
  datatype NewEvent = NewEvent(
    djName: Json, eventDate: Json, eventTime: Json, genre: Json,
    imageUrl: Json, spotifyUrl: Json, featured: Json)

  /** The body fields `POST` reads. */
  const Stored := {"dj_name", "event_date", "event_time", "genre", "image_url", "spotify_url", "featured"}

  /** `POST /api/events`. */
  function Post(body: Object, insertOk: bool): (r: Reply<NewEvent>)
    ensures r.IsBadRequest() <==> !Truthy(Get(body, "dj_name")) || !Truthy(Get(body, "event_date"))
    ensures r.IsBadRequest() ==> r.error == RequiredError
    ensures r.Ok? <==> Truthy(Get(body, "dj_name")) && Truthy(Get(body, "event_date")) && insertOk
    ensures r.Ok? ==> Some(r.body.djName) == Get(body, "dj_name") && Some(r.body.eventDate) == Get(body, "event_date")
    ensures r.Ok? ==>
      && (Truthy(Get(body, "event_time")) ==> Some(r.body.eventTime) == Get(body, "event_time"))
      && (!Truthy(Get(body, "event_time")) ==> r.body.eventTime == JNull)
      && (Truthy(Get(body, "genre")) ==> Some(r.body.genre) == Get(body, "genre"))
      && (!Truthy(Get(body, "genre")) ==> r.body.genre == JNull)
      && (Truthy(Get(body, "image_url")) ==> Some(r.body.imageUrl) == Get(body, "image_url"))
      && (!Truthy(Get(body, "image_url")) ==> r.body.imageUrl == JNull)
      && (Truthy(Get(body, "spotify_url")) ==> Some(r.body.spotifyUrl) == Get(body, "spotify_url"))
      && (!Truthy(Get(body, "spotify_url")) ==> r.body.spotifyUrl == JNull)
      && (Truthy(Get(body, "featured")) ==> Some(r.body.featured) == Get(body, "featured"))
      && (!Truthy(Get(body, "featured")) ==> r.body.featured == JBool(false))
  {
    var djName, eventDate := Get(body, "dj_name"), Get(body, "event_date");
    if !Truthy(djName) || !Truthy(eventDate) then Fail(400, RequiredError)
    else if !insertOk then Fail(500, CreateError)
    else Ok(NewEvent(
      djName.value, eventDate.value,
      Or(Get(body, "event_time"), JNull),
      Or(Get(body, "genre"), JNull),
      Or(Get(body, "image_url"), JNull),
      Or(Get(body, "spotify_url"), JNull),
      Or(Get(body, "featured"), JBool(false))))
  }

  /** Any field outside the seven, such as the `title`, `subtitle` and
      `promotion` the admin form sends, has no effect on what is stored. */
  lemma PostIgnoresOtherFields(body: Object, k: string, v: Json, insertOk: bool)
    requires k !in Stored
    ensures Post(body[k := v], insertOk) == Post(body, insertOk)
  {
    assert forall f :: f in Stored ==> Get(body[k := v], f) == Get(body, f);
  }

  // ----- PATCH, DELETE -----

  /** `PATCH /api/events`. */
  function Patch(body: Object, updateOk: bool): (r: Reply<Change>)
    ensures r.IsBadRequest() <==> !Truthy(Get(body, "id"))
    ensures r.Ok? ==> forall k :: k != "id" ==> Get(r.body.fields, k) == Get(body, k)
  {
    UpdateById(body, updateOk, UpdateError)
  }

  /** `DELETE /api/events`. */
  function Delete(body: Object, deleteOk: bool): (r: Reply<Json>)
    ensures r.IsBadRequest() <==> !Truthy(Get(body, "id"))
    ensures r.Ok? ==> Get(body, "id") == Some(r.body)
  {
    DeleteById(body, deleteOk, DeleteError)
  }
}
