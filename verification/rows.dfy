/**
 The rows of the hosted database's tables as the routes and admin pages read
 them. Nullable columns are `Option`s; `status` and `table_type` are kept as
 the raw text the table holds, with `Status` naming the four values the
 status update accepts.
 */
module Rows {
  import opened Wrappers
  import opened Text
  import opened Ordering
  import ListUpdates

  /** The four reservation states; the update route accepts exactly these. */
  datatype Status = Pending | Confirmed | Cancelled | Completed

  function StatusName(s: Status): string {
    match s
    case Pending => "pending"
    case Confirmed => "confirmed"
    case Cancelled => "cancelled"
    case Completed => "completed"
  }

  /** The status a text names, if it names one. */
  function ParseStatus(t: string): (r: Option<Status>)
    ensures r.Some? ==> StatusName(r.value) == t
    ensures r.None? ==> forall s: Status :: StatusName(s) != t
  {
    if t == "pending" then Some(Pending)
    else if t == "confirmed" then Some(Confirmed)
    else if t == "cancelled" then Some(Cancelled)
    else if t == "completed" then Some(Completed)
    else None
  }

  lemma ParseStatusName(s: Status)
    ensures ParseStatus(StatusName(s)) == Some(s)
  {}

  /** The seating tiers; `general` is the default everywhere. */
  datatype TableType = General | Vip | Booth

  function TableTypeName(t: TableType): string {
    match t
    case General => "general"
    case Vip => "vip"
    case Booth => "booth"
  }

  datatype Reservation = Reservation(
    id: string,
    name: string,
    email: string,
    phone: string,
    date: string,
    time: string,
    guests: Option<int>,
    tableType: Option<string>,
    notes: Option<string>,
    status: string,
    createdAt: string)

  datatype MenuItem = MenuItem(
    id: string,
    category: string,
    name: string,
    description: Option<string>,
    price: int,
    imageUrl: Option<string>,
    available: bool,
    featured: Option<bool>)

  datatype Event = Event(
    id: string,
    title: Option<string>,
    subtitle: Option<string>,
    djName: string,
    eventDate: string,
    eventTime: Option<string>,
    genre: Option<string>,
    imageUrl: Option<string>,
    spotifyUrl: Option<string>,
    promotion: Option<string>,
    featured: bool)

  datatype HeroImage = HeroImage(id: string, imageUrl: string, orderIndex: int)

  datatype Category = Category(id: string, name: string, displayOrder: int)

  /** `t || d` for a nullable text column: `null` and `""` give `d`. */
  function OrText(t: Option<string>, d: string): (r: string)
    ensures t.Some? && t.value != "" ==> r == t.value
    ensures t.None? || t.value == "" ==> r == d
  {
    if t.Some? && t.value != "" then t.value else d
  }

  /** A text is given: not `null`/`undefined` and not empty. */
  predicate Given(t: Option<string>) {
    t.Some? && t.value != ""
  }

  /** `items.filter(item => item.category === c)`: one category's items in
      their original order. */
  function ItemsInCategory(items: seq<MenuItem>, c: string): (r: seq<MenuItem>)
    ensures forall i :: 0 <= i < |r| ==> r[i].category == c && r[i] in items
    ensures forall i :: 0 <= i < |items| && items[i].category == c ==> items[i] in r
  {
    ListUpdates.Filter(items, (x: MenuItem) => x.category == c)
  }

  /** Appending an item extends its own category's list and no other. */
  lemma ItemsInCategorySnoc(items: seq<MenuItem>, x: MenuItem, c: string)
    ensures ItemsInCategory(items + [x], c) == ItemsInCategory(items, c) + (if x.category == c then [x] else [])
  {
    ListUpdates.FilterConcat(items, [x], (x: MenuItem) => x.category == c);
  }

  /** A category no item has lists nothing. */
  lemma ItemsInAbsentCategory(items: seq<MenuItem>, c: string)
    requires forall k :: 0 <= k < |items| ==> items[k].category != c
    ensures ItemsInCategory(items, c) == []
  {
    ListUpdates.FilterNone(items, (x: MenuItem) => x.category == c);
  }

  /** `.gte('event_date', today)`: the events dated today or later. */
  function EventsFrom(events: seq<Event>, today: string): (r: seq<Event>)
    ensures forall i :: 0 <= i < |r| ==> LexLe(today, r[i].eventDate) && r[i] in events
    ensures forall i :: 0 <= i < |events| && LexLe(today, events[i].eventDate) ==> events[i] in r
    ensures forall e :: e in r ==> LexLe(today, e.eventDate)
  {
    ListUpdates.Filter(events, (e: Event) => LexLe(today, e.eventDate))
  }

  /** `.order('date').order('time')`. */
  function DateTimeKey(r: Reservation): seq<Key> {
    [Str(r.date), Str(r.time)]
  }

  /** `.order('event_date')`. */
  function EventDateKey(e: Event): seq<Key> {
    [Str(e.eventDate)]
  }

  /** `.order('category').order('name')`. */
  function CategoryNameKey(m: MenuItem): seq<Key> {
    [Str(m.category), Str(m.name)]
  }
}
