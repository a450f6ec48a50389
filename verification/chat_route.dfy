/**
 The chat route (`app/api/chat/route.ts`): the knowledge sections of the
 system prompt built from the events and menu tables, the message list sent
 to the language model, and the reply. The model, the two queries' results
 and the locale date formatting are inputs; the static prose of the prompt
 is not modelled.
 */
module ChatRoute {
  import opened Wrappers
  import opened Text
  import opened JsonValues
  import opened Rows
  import opened Ordering
  import ListUpdates

  const UpcomingLimit := 10

  const EventsHeading := "### PRÓXIMOS EVENTOS Y DJs:\n"
  const EventsFallback := "### PRÓXIMOS EVENTOS:\nPróximamente anunciaremos nuevos eventos. Mantente atento a nuestras redes sociales."
  const MenuHeading := "### MENÚ ACTUAL:\n"
  const MenuFallback := "### MENÚ DESTACADO:\nCÓCTELES SIGNATURE:\n- Obsidian Noir (vodka, licor de mora, espuma de carbón) - $180\n- Midnight Martini (gin, vermouth, aceitunas negras) - $160\n- Shadow Kiss (ron, maracuyá, albahaca) - $150\n\nSHOTS:\n- Black Diamond (tequila, licor de café, crema) - $90\n- Dark Matter (mezcal, chamoy, tamarindo) - $85\n\nBOTELLAS:\n- Grey Goose - $2,500\n- Don Julio 70 - $3,200\n- Moët & Chandon - $4,500"

  const CardLabel := "\n  JSON para EVENT_CARD: "
  const GenreLabel := " | Género: "
  const PromotionLabel := " | Promoción: "

  const CompletionFallback := "Lo siento, no pude procesar tu mensaje."
  const ChatFailure := "Lo siento, hubo un error. Por favor intenta de nuevo."

  // ----- Upcoming events -----

  /** The events query: dated today or later, by date, at most ten. */
  function Upcoming(rows: seq<Event>, today: string): (r: seq<Event>)
    ensures |r| == if |EventsFrom(rows, today)| < UpcomingLimit then |EventsFrom(rows, today)| else UpcomingLimit
    ensures forall i :: 0 <= i < |r| ==> LexLe(today, r[i].eventDate)
    ensures SortedBy(r, EventDateKey)
    ensures multiset(r) <= multiset(EventsFrom(rows, today))
  {
    var hits := EventsFrom(rows, today);
    var sorted := SortBy(hits, EventDateKey);
    TakeSortedIsSmallest(sorted, UpcomingLimit, EventDateKey);
    SortByMembers(hits, EventDateKey);
    Take(sorted, UpcomingLimit)
  }

  /** No qualifying event left out is dated before one that was kept, and
      when fewer than ten qualify, all of them are kept. */
  lemma UpcomingAreTheEarliest(rows: seq<Event>, today: string, e: Event)
    requires e in multiset(EventsFrom(rows, today)) - multiset(Upcoming(rows, today))
    ensures forall i :: 0 <= i < |Upcoming(rows, today)| ==> KeysLe(EventDateKey(Upcoming(rows, today)[i]), EventDateKey(e))
    ensures |Upcoming(rows, today)| == UpcomingLimit
  {
    var hits := EventsFrom(rows, today);
    var sorted := SortBy(hits, EventDateKey);
    var r := Upcoming(rows, today);
    assert sorted == r + sorted[|r|..];
    assert e in multiset(sorted[|r|..]);
    var j :| 0 <= j < |sorted[|r|..]| && sorted[|r|..][j] == e;
    assert sorted[|r| + j] == e;
  }

  // ----- Event lines -----

  /** The seven properties of the event card, in the order written. */
  function EventCard(e: Event): (pairs: seq<(string, string)>)
    ensures |pairs| == 7
    ensures pairs[0] == ("title", OrText(e.title, e.djName)) && pairs[1] == ("dj_name", e.djName)
    ensures pairs[2] == ("event_date", e.eventDate)
    ensures pairs[3] == ("genre", OrText(e.genre, "")) && pairs[4] == ("image_url", OrText(e.imageUrl, ""))
    ensures pairs[5] == ("spotify_url", OrText(e.spotifyUrl, "")) && pairs[6] == ("promotion", OrText(e.promotion, ""))
  {
    [ ("title", OrText(e.title, e.djName)),
      ("dj_name", e.djName),
      ("event_date", e.eventDate),
      ("genre", OrText(e.genre, "")),
      ("image_url", OrText(e.imageUrl, "")),
      ("spotify_url", OrText(e.spotifyUrl, "")),
      ("promotion", OrText(e.promotion, "")) ]
  }

  function EventJson(e: Event): string {
    StringifyObject(EventCard(e))
  }

  /** The card text decodes back to its seven properties, in order: a
      missing title reads as the DJ's name, other missing fields as empty. */
  lemma EventJsonDecodes(e: Event)
    ensures ParseObject(EventJson(e)) == Some(EventCard(e))
    ensures var p := ParseObject(EventJson(e)).value;
      && p[0].1 == (if Given(e.title) then e.title.value else e.djName)
      && p[3].1 == (if Given(e.genre) then e.genre.value else "")
      && p[6].1 == (if Given(e.promotion) then e.promotion.value else "")
  {
    ParseStringifyObject(EventCard(e));
  }

  /** Everything up to the optional segments. `formatDate` stands for the
      locale rendering of the date. */
  function EventHead(e: Event, formatDate: string -> string): string {
    "- EVENTO: \"" + OrText(e.title, e.djName) + "\" | DJ: " + e.djName
      + " | Fecha: " + formatDate(e.eventDate) + " (" + e.eventDate + ")"
  }

  /** One event's line in the prompt, with its card. */
  function EventLine(e: Event, formatDate: string -> string): (r: string)
    ensures var head, card := EventHead(e, formatDate), CardLabel + EventJson(e);
      && (Given(e.genre) && Given(e.promotion) ==>
            r == head + (GenreLabel + e.genre.value) + (PromotionLabel + e.promotion.value) + card)
      && (Given(e.genre) && !Given(e.promotion) ==> r == head + (GenreLabel + e.genre.value) + card)
      && (!Given(e.genre) && Given(e.promotion) ==> r == head + (PromotionLabel + e.promotion.value) + card)
      && (!Given(e.genre) && !Given(e.promotion) ==> r == head + card)
    ensures StartsWith(r, EventHead(e, formatDate))
    ensures EndsWith(r, CardLabel + EventJson(e))
  {
    var head := EventHead(e, formatDate);
    var genre := if Given(e.genre) then GenreLabel + e.genre.value else "";
    var promo := if Given(e.promotion) then PromotionLabel + e.promotion.value else "";
    var card := CardLabel + EventJson(e);
    Segments(head, genre, promo, card);
    head + genre + promo + card
  }

  /** A line made of a head, two optional segments and a card starts with
      the head, ends with the card, and an empty segment leaves no trace. */
  lemma Segments(head: string, genre: string, promo: string, card: string)
    ensures var r := head + genre + promo + card;
      && StartsWith(r, head) && EndsWith(r, card)
      && (genre == "" ==> r == head + promo + card)
      && (promo == "" ==> r == head + genre + card)
  {
    var r := head + genre + promo + card;
    assert r == head + (genre + promo + card);
    ConcatEnds(head, genre + promo + card);
    ConcatEnds(head + genre + promo, card);
    if genre == "" { assert head + genre == head; }
    if promo == "" { assert head + genre + promo == head + genre; }
  }

  /** The events section: the heading and one line per event, or the fixed
      text when the query failed or found nothing. */
  function EventsSection(events: Option<seq<Event>>, formatDate: string -> string): (r: string)
    ensures r != ""
    ensures events.None? || events.value == [] ==> r == EventsFallback
    ensures events.Some? && events.value != [] ==> StartsWith(r, EventsHeading)
  {
    if events.Some? && |events.value| > 0 then
      var es := events.value;
      var r := EventsHeading + Join(seq(|es|, i requires 0 <= i < |es| => EventLine(es[i], formatDate)), "\n\n");
      assert r[..|EventsHeading|] == EventsHeading;
      r
    else EventsFallback
  }

  // ----- Menu grouping -----

  /** A category and its items, in the order they were pushed. */
  datatype Group = Group(category: string, items: seq<MenuItem>)

  /** The position of the group for category `c`. */
  function GroupIndex(gs: seq<Group>, c: string): (r: Option<nat>)
    ensures r.Some? ==> r.value < |gs| && gs[r.value].category == c
    ensures r.Some? ==> forall i :: 0 <= i < r.value ==> gs[i].category != c
    ensures r.None? ==> forall i :: 0 <= i < |gs| ==> gs[i].category != c
  {
    if gs == [] then None
    else if gs[0].category == c then Some(0)
    else
      match GroupIndex(gs[1..], c)
      case None => None
      case Some(k) => Some(k + 1)
  }

  /** One `forEach` step: push onto the item's category, creating it at the
      end if new. */
  function AddToGroups(gs: seq<Group>, x: MenuItem): seq<Group> {
    match GroupIndex(gs, x.category)
    case None => gs + [Group(x.category, [x])]
    case Some(k) => gs[k := Group(gs[k].category, gs[k].items + [x])]
  }

  /** The grouping loop over the query result. */
  function GroupByCategory(items: seq<MenuItem>): seq<Group>
    decreases |items|
  {
    if items == [] then []
    else AddToGroups(GroupByCategory(items[..|items| - 1]), items[|items| - 1])
  }

  /** The categories in order of first appearance. */
  function Categories(items: seq<MenuItem>): seq<string>
    decreases |items|
  {
    if items == [] then []
    else
      var cs := Categories(items[..|items| - 1]);
      var c := items[|items| - 1].category;
      if c in cs then cs else cs + [c]
  }

  /** The reference grouping: each category, first-appearance order, with
      exactly its own items in query order. */
  function GroupsOf(items: seq<MenuItem>): seq<Group> {
    var cs := Categories(items);
    seq(|cs|, i requires 0 <= i < |cs| => Group(cs[i], ItemsInCategory(items, cs[i])))
  }

  /** Some item has category `c`. */
  ghost predicate HasCategory(items: seq<MenuItem>, c: string) {
    exists k :: 0 <= k < |items| && items[k].category == c
  }

  /** An item of category `a` comes before every item of category `b`. */
  ghost predicate AppearsBefore(items: seq<MenuItem>, a: string, b: string) {
    exists k :: 0 <= k < |items| && items[k].category == a
      && forall j :: 0 <= j < |items| && items[j].category == b ==> k < j
  }

  lemma {:induction false} CategoriesListed(items: seq<MenuItem>)
    ensures forall i, j :: 0 <= i < j < |Categories(items)| ==> Categories(items)[i] != Categories(items)[j]
    ensures forall c :: c in Categories(items) <==> HasCategory(items, c)
    decreases |items|
  {
    if items != [] {
      var p := items[..|items| - 1];
      CategoriesListed(p);
      forall c ensures HasCategory(items, c) <==> HasCategory(p, c) || items[|items| - 1].category == c {
        if HasCategory(items, c) {
          var k :| 0 <= k < |items| && items[k].category == c;
          if k < |p| { assert p[k] == items[k]; }
        }
        if HasCategory(p, c) {
          var k :| 0 <= k < |p| && p[k].category == c;
          assert items[k] == p[k];
        }
      }
    }
  }

  /** Categories come in order of first appearance. */
  lemma {:induction false} CategoriesInFirstAppearanceOrder(items: seq<MenuItem>)
    ensures forall i, j :: 0 <= i < j < |Categories(items)| ==> AppearsBefore(items, Categories(items)[i], Categories(items)[j])
    decreases |items|
  {
    if items != [] {
      var n := |items| - 1;
      var p, x := items[..n], items[n];
      var cs, ps := Categories(items), Categories(p);
      CategoriesInFirstAppearanceOrder(p);
      CategoriesListed(p);
      assert forall i, j :: 0 <= i < j < |ps| ==> AppearsBefore(p, ps[i], ps[j]);
      forall i, j | 0 <= i < j < |cs| ensures AppearsBefore(items, cs[i], cs[j]) {
        if j < |ps| {
          assert cs[i] == ps[i] && cs[j] == ps[j];
          assert AppearsBefore(p, ps[i], ps[j]);
          var k :| 0 <= k < |p| && p[k].category == ps[i]
            && forall m :: 0 <= m < |p| && p[m].category == ps[j] ==> k < m;
          assert items[k] == p[k];
          forall m | 0 <= m < |items| && items[m].category == cs[j] ensures k < m {
            if m < n { assert p[m] == items[m]; }
          }
        } else {
          assert cs[j] == x.category && x.category !in ps;
          assert cs[i] in ps && HasCategory(p, cs[i]);
          var k :| 0 <= k < |p| && p[k].category == cs[i];
          assert items[k] == p[k];
          forall m | 0 <= m < n ensures items[m].category != cs[j] {
            assert p[m] == items[m];
            assert HasCategory(p, p[m].category);
          }
        }
      }
    }
  }

  /** With exactly one group for `c`, the lookup finds it. */
  lemma GroupIndexOfUnique(gs: seq<Group>, c: string, k: nat)
    requires k < |gs| && gs[k].category == c
    requires forall i :: 0 <= i < |gs| && i != k ==> gs[i].category != c
    ensures GroupIndex(gs, c) == Some(k)
  {}

  /** An item of a category already seen joins the end of that group. */
  lemma AddToExistingGroup(p: seq<MenuItem>, x: MenuItem, k: nat)
    requires k < |Categories(p)| && Categories(p)[k] == x.category
    ensures AddToGroups(GroupsOf(p), x) == GroupsOf(p + [x])
  {
    CategoriesListed(p);
    var gs, ps := GroupsOf(p), Categories(p);
    assert (p + [x])[..|p|] == p;
    assert Categories(p + [x]) == ps;
    forall i | 0 <= i < |gs| && i != k ensures gs[i].category != x.category {
      assert gs[i].category == ps[i];
    }
    GroupIndexOfUnique(gs, x.category, k);
    var got, want := AddToGroups(gs, x), GroupsOf(p + [x]);
    assert got == gs[k := Group(ps[k], gs[k].items + [x])];
    forall i | 0 <= i < |want| ensures got[i] == want[i] {
      ItemsInCategorySnoc(p, x, ps[i]);
    }
  }

  /** An item of a new category opens a group at the end. */
  lemma AddToNewGroup(p: seq<MenuItem>, x: MenuItem)
    requires x.category !in Categories(p)
    ensures AddToGroups(GroupsOf(p), x) == GroupsOf(p + [x])
  {
    CategoriesListed(p);
    var gs, ps := GroupsOf(p), Categories(p);
    assert (p + [x])[..|p|] == p;
    var cs := Categories(p + [x]);
    assert cs == ps + [x.category];
    assert GroupIndex(gs, x.category) == None;
    forall m | 0 <= m < |p| ensures p[m].category != x.category {
      assert HasCategory(p, p[m].category);
    }
    ItemsInAbsentCategory(p, x.category);
    var got, want := AddToGroups(gs, x), GroupsOf(p + [x]);
    assert got == gs + [Group(x.category, [x])];
    forall i | 0 <= i < |want| ensures got[i] == want[i] {
      ItemsInCategorySnoc(p, x, cs[i]);
    }
  }

  /** The grouping loop computes the reference grouping. */
  lemma {:induction false} GroupingIsByCategory(items: seq<MenuItem>)
    ensures GroupByCategory(items) == GroupsOf(items)
    decreases |items|
  {
    if items != [] {
      var n := |items| - 1;
      var p, x := items[..n], items[n];
      assert items == p + [x];
      GroupingIsByCategory(p);
      var ps := Categories(p);
      if x.category in ps {
        var k :| 0 <= k < |ps| && ps[k] == x.category;
        AddToExistingGroup(p, x, k);
      } else {
        AddToNewGroup(p, x);
      }
    }
  }

  /** Every item appears under its own category and under no other. */
  lemma EachItemInItsOwnGroup(items: seq<MenuItem>, k: nat)
    requires k < |items|
    ensures var gs := GroupByCategory(items);
      && (exists g :: 0 <= g < |gs| && gs[g].category == items[k].category && items[k] in gs[g].items)
      && (forall g :: 0 <= g < |gs| && items[k] in gs[g].items ==> gs[g].category == items[k].category)
      && (forall g, h :: 0 <= g < h < |gs| ==> gs[g].category != gs[h].category)
  {
    GroupingIsByCategory(items);
    CategoriesListed(items);
    var cs := Categories(items);
    var c := items[k].category;
    assert HasCategory(items, c);
    var g :| 0 <= g < |cs| && cs[g] == c;
    assert items[k] in GroupByCategory(items)[g].items;
  }

  // ----- Menu rendering -----

  /** The Spanish headings of the five known category ids. */
  const KnownHeadings := map[
    "cocktails" := "CÓCTELES", "shots" := "SHOTS", "bottles" := "BOTELLAS",
    "food" := "COMIDA", "specials" := "ESPECIALES"]

  /** The Spanish heading of the five known categories, or the id in upper
      case. */
  function CategoryHeading(c: string): (r: string)
    ensures c in KnownHeadings ==> r == KnownHeadings[c]
    ensures c !in KnownHeadings ==> r == Upper(c)
  {
    if c == "cocktails" then "CÓCTELES"
    else if c == "shots" then "SHOTS"
    else if c == "bottles" then "BOTELLAS"
    else if c == "food" then "COMIDA"
    else if c == "specials" then "ESPECIALES"
    else Upper(c)
  }

  /** Every heading is written in capitals: upper-casing it again changes
      nothing, whether it is a known heading or an upper-cased id. */
  lemma HeadingIsUpperCase(c: string)
    ensures Upper(CategoryHeading(c)) == CategoryHeading(c)
  {
    var r := CategoryHeading(c);
    if c in KnownHeadings {
      forall i | 0 <= i < |r| ensures UpperChar(r[i]) == r[i] {
        KnownHeadingChars(c, i);
      }
    } else {
      forall i | 0 <= i < |r| ensures UpperChar(r[i]) == r[i] {
        UpperCharIdempotent(c[i]);
      }
    }
  }

  lemma KnownHeadingChars(c: string, i: int)
    requires c in KnownHeadings && 0 <= i < |KnownHeadings[c]|
    ensures UpperChar(KnownHeadings[c][i]) == KnownHeadings[c][i]
  {
    var h := KnownHeadings[c];
    assert 'A' <= h[i] <= 'Z' || h[i] == '\U{00D3}';
  }

  /** `- name (description) - $price`, without the parenthesis when the
      description is empty. */
  function ItemLine(x: MenuItem): (r: string)
    ensures Given(x.description) ==> r == "- " + x.name + " (" + x.description.value + ")" + " - $" + IntToString(x.price) + "\n"
    ensures !Given(x.description) ==> r == "- " + x.name + " - $" + IntToString(x.price) + "\n"
  {
    "- " + x.name + (if Given(x.description) then " (" + x.description.value + ")" else "")
      + " - $" + IntToString(x.price) + "\n"
  }

  function GroupText(g: Group): string {
    "\n" + CategoryHeading(g.category) + ":\n"
      + Join(seq(|g.items|, i requires 0 <= i < |g.items| => ItemLine(g.items[i])), "")
  }

  /** The menu section: the grouped items, or the fixed text when the query
      failed or found nothing. */
  function MenuSection(items: Option<seq<MenuItem>>): (r: string)
    ensures r != ""
    ensures items.None? || items.value == [] ==> r == MenuFallback
    ensures items.Some? && items.value != [] ==> StartsWith(r, MenuHeading)
  {
    if items.Some? && |items.value| > 0 then
      var gs := GroupByCategory(items.value);
      var r := MenuHeading + Join(seq(|gs|, i requires 0 <= i < |gs| => GroupText(gs[i])), "");
      assert r[..|MenuHeading|] == MenuHeading;
      r
    else MenuFallback
  }

  predicate IsAvailable(m: MenuItem) {
    m.available
  }

  /** The menu query: available items by category, then name. */
  function AvailableMenu(rows: seq<MenuItem>): (r: seq<MenuItem>)
    ensures forall i :: 0 <= i < |r| ==> r[i].available
    ensures SortedBy(r, CategoryNameKey)
    ensures multiset(r) == multiset(ListUpdates.Filter(rows, IsAvailable))
  {
    var hits := ListUpdates.Filter(rows, IsAvailable);
    var r := SortBy(hits, CategoryNameKey);
    SortByMembers(hits, CategoryNameKey);
    forall i | 0 <= i < |r| ensures r[i].available {
      ListUpdates.FilterMember(rows, IsAvailable, r[i]);
    }
    r
  }

  // ----- Messages and reply -----

  /** A chat message as the route receives and forwards it. */
  datatype WireMessage = WireMessage(role: string, content: string)

  predicate Conversational(m: WireMessage) {
    m.role == "user" || m.role == "assistant"
  }

  /** The history with every entry that is not a user or assistant turn
      dropped. */
  function Conversation(history: seq<WireMessage>): (r: seq<WireMessage>)
    ensures forall i :: 0 <= i < |r| ==> Conversational(r[i]) && r[i] in history
    ensures forall i :: 0 <= i < |history| && Conversational(history[i]) ==> history[i] in r
  {
    ListUpdates.Filter(history, Conversational)
  }

  /** Dropping entries keeps the others in their original order. */
  lemma ConversationKeepsOrder(a: seq<WireMessage>, b: seq<WireMessage>)
    ensures Conversation(a + b) == Conversation(a) + Conversation(b)
  {
    ListUpdates.FilterConcat(a, b, Conversational);
  }

  /** What the model is sent: the system prompt, the conversation so far,
      and the new user message. */
  function ModelMessages(prompt: string, history: seq<WireMessage>, message: string): (r: seq<WireMessage>)
    ensures |r| == |Conversation(history)| + 2
    ensures r[0] == WireMessage("system", prompt)
    ensures r[|r| - 1] == WireMessage("user", message)
    ensures r[1..|r| - 1] == Conversation(history)
  {
    var r := [WireMessage("system", prompt)] + Conversation(history) + [WireMessage("user", message)];
    assert r[1..|r| - 1] == Conversation(history);
    r
  }

  /** A history made only of user and assistant turns reaches the model
      whole. */
  lemma ConversationalHistoryKept(history: seq<WireMessage>)
    requires forall i :: 0 <= i < |history| ==> Conversational(history[i])
    ensures Conversation(history) == history
  {
    ListUpdates.FilterAll(history, Conversational);
  }

  /** The route's answer. */
  datatype ChatAnswer = ChatAnswer(status: nat, response: string)

  /** `POST /api/chat`: `history` is `None` when the body has no history
      array; `model` stands for the completion call, `None` when it throws,
      otherwise the first choice's content, `None` when absent. */
  function Post(message: string, history: Option<seq<WireMessage>>, prompt: string,
                model: seq<WireMessage> -> Option<Option<string>>): (r: ChatAnswer)
    ensures history.None? ==> r == ChatAnswer(500, ChatFailure)
    ensures history.Some? ==>
      var c := model(ModelMessages(prompt, history.value, message));
      && (c.None? ==> r == ChatAnswer(500, ChatFailure))
      && (c.Some? && Given(c.value) ==> r == ChatAnswer(200, c.value.value))
      && (c.Some? && !Given(c.value) ==> r == ChatAnswer(200, CompletionFallback))
    ensures r.response != ""
  {
    match history
    case None => ChatAnswer(500, ChatFailure)
    case Some(h) =>
      match model(ModelMessages(prompt, h, message))
      case None => ChatAnswer(500, ChatFailure)
      case Some(content) => ChatAnswer(200, OrText(content, CompletionFallback))
  }
}
