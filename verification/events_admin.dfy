/**
 The events admin page (`app/admin/events/page.tsx`): the local list edits
 made after the events route accepted a change, the event form's defaults
 and the request it submits.
 */
module EventsAdmin {
  import opened Wrappers
  import opened JsonValues
  import opened Rows
  import opened Http
  import ListUpdates
  import EventsApi

  const DefaultTime := "22:00"

  function FlipFeatured(e: Event): Event {
    e.(featured := !e.featured)
  }

  /** `toggleFeatured` once the response is in: after an OK response the
      events with that id flip `featured`; otherwise nothing changes. */
  function ToggleFeatured(events: seq<Event>, id: string, ok: bool): (r: seq<Event>)
    ensures |r| == |events|
    ensures !ok ==> r == events
    ensures ok ==> forall i :: 0 <= i < |events| && events[i].id == id ==>
      r[i].featured == !events[i].featured && r[i].(featured := events[i].featured) == events[i]
    ensures forall i :: 0 <= i < |events| && events[i].id != id ==> r[i] == events[i]
  {
    if ok then ListUpdates.UpdateWhere(events, (e: Event) => e.id == id, FlipFeatured) else events
  }

  /** Two accepted toggles restore the list. */
  lemma ToggleFeaturedTwice(events: seq<Event>, id: string)
    ensures ToggleFeatured(ToggleFeatured(events, id, true), id, true) == events
  {
    ListUpdates.UpdateTwice(events, (e: Event) => e.id == id, FlipFeatured);
  }

  /** `deleteEvent` once the response is in. */
  function DeleteEvent(events: seq<Event>, id: string, ok: bool): (r: seq<Event>)
    ensures !ok ==> r == events
    ensures ok ==> forall i :: 0 <= i < |r| ==> r[i].id != id && r[i] in events
    ensures ok ==> forall i :: 0 <= i < |events| && events[i].id != id ==> events[i] in r
  {
    if ok then ListUpdates.Filter(events, (e: Event) => e.id != id) else events
  }

  /** Deleting keeps the survivors in their order. */
  lemma DeleteEventKeepsOrder(a: seq<Event>, b: seq<Event>, id: string)
    ensures DeleteEvent(a + b, id, true) == DeleteEvent(a, id, true) + DeleteEvent(b, id, true)
  {
    ListUpdates.FilterConcat(a, b, (e: Event) => e.id != id);
  }

  // ----- The event form -----

  datatype EventForm = EventForm(
    title: string, subtitle: string, djName: string, eventDate: string, eventTime: string,
    genre: string, imageUrl: string, spotifyUrl: string, promotion: string, featured: bool)

  /** `openModal()` without an event. */
  function NewForm(): (f: EventForm)
    ensures f.eventTime == DefaultTime && !f.featured
    ensures f.title == "" && f.subtitle == "" && f.djName == "" && f.eventDate == ""
    ensures f.genre == "" && f.imageUrl == "" && f.spotifyUrl == "" && f.promotion == ""
  {
    EventForm("", "", "", "", DefaultTime, "", "", "", "", false)
  }

  /** `openModal(event)`: the event's values, missing optional texts as
      `''` and a missing time as `22:00`. */
  function EditForm(e: Event): (f: EventForm)
    ensures f.djName == e.djName && f.eventDate == e.eventDate && f.featured == e.featured
    ensures f.eventTime == OrText(e.eventTime, DefaultTime)
    ensures f.title == OrText(e.title, "") && f.subtitle == OrText(e.subtitle, "")
    ensures f.genre == OrText(e.genre, "") && f.imageUrl == OrText(e.imageUrl, "")
    ensures f.spotifyUrl == OrText(e.spotifyUrl, "") && f.promotion == OrText(e.promotion, "")
  {
    EventForm(OrText(e.title, ""), OrText(e.subtitle, ""), e.djName, e.eventDate, OrText(e.eventTime, DefaultTime),
      OrText(e.genre, ""), OrText(e.imageUrl, ""), OrText(e.spotifyUrl, ""), OrText(e.promotion, ""), e.featured)
  }

  function FormFields(f: EventForm): Object {
    map[
      "title" := JStr(f.title), "subtitle" := JStr(f.subtitle), "dj_name" := JStr(f.djName),
      "event_date" := JStr(f.eventDate), "event_time" := JStr(f.eventTime), "genre" := JStr(f.genre),
      "image_url" := JStr(f.imageUrl), "spotify_url" := JStr(f.spotifyUrl), "promotion" := JStr(f.promotion),
      "featured" := JBool(f.featured)]
  }

  /** `handleSubmit`: the form's fields, plus the id when editing. */
  function Submit(f: EventForm, editing: Option<Event>): (s: Submission)
    ensures s.verb == (if editing.Some? then "PATCH" else "POST")
    ensures Get(s.body, "id").Some? <==> editing.Some?
    ensures editing.Some? ==> Get(s.body, "id") == Some(JStr(editing.value.id))
    ensures forall k :: k != "id" ==> Get(s.body, k) == Get(FormFields(f), k)
  {
    if editing.Some? then Submission("PATCH", FormFields(f)["id" := JStr(editing.value.id)])
    else Submission("POST", FormFields(f))
  }

  /** On create, the title, subtitle and promotion typed in the form have
      no effect on the stored event: the route does not read them. */
  lemma CreateDropsTitle(f: EventForm, title: string, subtitle: string, promotion: string)
    ensures EventsApi.Post(Submit(f.(title := title, subtitle := subtitle, promotion := promotion), None).body, true)
      == EventsApi.Post(Submit(f, None).body, true)
  {
    var a := FormFields(f.(title := title, subtitle := subtitle, promotion := promotion));
    var b := FormFields(f);
    assert forall k :: k in EventsApi.Stored ==> Get(a, k) == Get(b, k);
  }

  /** Editing sends every field the form holds: a `PATCH` with an id writes
      the title, subtitle and promotion the form shows, which creating
      drops, and every other field of the form as well. */
  lemma EditKeepsTitle(f: EventForm, e: Event)
    requires e.id != ""
    ensures var r := EventsApi.Patch(Submit(f, Some(e)).body, true);
      && r.Ok?
      && Get(r.body.fields, "title") == Some(JStr(f.title))
      && Get(r.body.fields, "subtitle") == Some(JStr(f.subtitle))
      && Get(r.body.fields, "promotion") == Some(JStr(f.promotion))
      && forall k :: k != "id" ==> Get(r.body.fields, k) == Get(FormFields(f), k)
  {}
}
