/**
 The previews on the public home page (`app/page.tsx`): the first three
 upcoming events and, per category, the first two available menu items,
 both taken from what the events and menu routes return.
 */
module HomePage {
  import opened Wrappers
  import opened Text
  import opened Rows
  import opened Ordering
  import Dates
  import EventsApi
  import MenuApi
  import ListUpdates

  const EventsShown := 3
  const ItemsShown := 2

  /** `(data.events || []).slice(0, 3)`. */
  function EventsPreview(events: Option<seq<Event>>): (r: seq<Event>)
    ensures |r| <= EventsShown
    ensures |r| <= |events.GetOr([])| && r == events.GetOr([])[..|r|]
    ensures |events.GetOr([])| >= EventsShown ==> |r| == EventsShown
  {
    Take(events.GetOr([]), EventsShown)
  }

  /** `menuItems.filter(item => item.category === c).slice(0, 2)`. */
  function MenuPreview(items: seq<MenuItem>, c: string): (r: seq<MenuItem>)
    ensures |r| <= ItemsShown
    ensures |r| <= |ItemsInCategory(items, c)| && r == ItemsInCategory(items, c)[..|r|]
    ensures forall i :: 0 <= i < |r| ==> r[i].category == c && r[i] in items
  {
    Take(ItemsInCategory(items, c), ItemsShown)
  }

  /** Fed by `/api/events?upcoming=true`, the preview shows at most three
      events, none before today, earliest first, each one listed by the
      route. */
  lemma EventsPreviewIsUpcoming(date: Dates.CivilDate, rows: seq<Event>)
    ensures var listed := EventsApi.List(None, Some("true"), date, Some(rows));
      var shown := EventsPreview(Some(listed.body));
      && |shown| <= EventsShown
      && SortedBy(shown, EventDateKey)
      && (forall i :: 0 <= i < |shown| ==> LexLe(Dates.Today(date), shown[i].eventDate))
      && (forall i :: 0 <= i < |shown| ==> shown[i] in rows)
  {
    var listed := EventsApi.List(None, Some("true"), date, Some(rows)).body;
    TakeSortedIsSmallest(listed, EventsShown, EventDateKey);
    var shown := Take(listed, EventsShown);
    forall i | 0 <= i < |shown| ensures LexLe(Dates.Today(date), shown[i].eventDate) && shown[i] in rows {
      var k :| 0 <= k < |listed| && listed[k] == shown[i];
    }
  }

  /** Fed by `/api/menu?available=true`, each category preview shows only
      available items of that category. */
  lemma MenuPreviewIsAvailable(rows: seq<MenuItem>, c: string)
    ensures var listed := MenuApi.List(None, Some("true"), Some(rows));
      forall i :: 0 <= i < |MenuPreview(listed.body, c)| ==>
        MenuPreview(listed.body, c)[i].available && MenuPreview(listed.body, c)[i].category == c
  {
    var listed := MenuApi.List(None, Some("true"), Some(rows)).body;
    var r := MenuPreview(listed, c);
    forall i | 0 <= i < |r| ensures r[i].available {
      assert r[i] in listed;
    }
  }
}
