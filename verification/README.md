# Obsidian Social Club: a verified model of the site's logic

This project models, in Dafny, the pure logic of the Obsidian Social Club site: a night club landing page with a chat
assistant, a public menu and an admin panel, built on a hosted database and a hosted language model. Every database,
storage or model call is an input to the model. It may be a list of rows, a success flag or an error code. Locale
rendering, URL encoding, the clock and random values are also inputs, given as functions or values.

The modules follow the source files:

- `Chatbot`: the chat widget of the home page. One turn of `sendMessage` is a step function over the transcript, the
  `reservationMade` flag and the busy flag. It covers the `[RESERVACION_DATA]` block search and the booking that
  `processReservation` submits.
- `ReservationsApi`, `EventsApi`, `MenuApi`, `CategoriesApi`, `HeroApi` and `UploadApi`: the route handlers. Each
  models its validators, `||` defaults, filters and orderings. `Http` holds the shared id-checked update and delete.
- `ChatRoute`: the prompt knowledge the chat route renders. This covers the today string, upcoming events, the
  per-event card JSON, menu grouping, fallbacks and the message list sent to the model.
- `AdminStats`: the dashboard aggregates.
- `AdminReservations`: the CSV export, the WhatsApp link, the local status change and the listing parameters.
- `HeroAdmin`, `MenuAdmin` and `EventsAdmin`: the admin pages' list updates, forms and request payloads.
- `PublicMenu`: the public menu page's tabs and printable menu.
- `HomePage`: the home page previews.
- Shared modules:
  - `Wrappers`: the option type;
  - `Text`: trimming, decimal rendering, case mapping and code-point order;
  - `JsonValues`: JavaScript values, truthiness, `String()` and a JSON string reader;
  - `Ordering`: stable sort by a key;
  - `ListUpdates`: filter and update-where;
  - `Csv`: an RFC 4180 reader, the partner of the export;
  - `Dates`: civil dates and their `YYYY-MM-DD` text;
  - `Rows`: the row shapes.

## Model

| member | source | states |
|---|---|---|
| Chatbot.FindBlock | app/page.tsx:113 | The block found is the leftmost opening tag with the nearest closing tag after it, and its inner text lies between the two; no block is found exactly when no opening tag is followed by a closing tag |
| Chatbot.ChatBooking | app/page.tsx:77-82 | The booking body is the parsed block with `email` replaced by the phone plus `@chat.obsidian.com`, `time` by `22:00` and `notes` by the chat note; every other key is kept as parsed |
| Chatbot.HandleReply | app/page.tsx:110-131 | A reply without a block is shown as it is. With a block, the block is removed and the text trimmed. Once a booking was made nothing is posted and no suffix is added. Malformed JSON gives the caution suffix. Otherwise the body is posted, and the success suffix appears exactly when the reservations route accepts it |
| Chatbot.Turn | app/page.tsx:91-141 | Blank input or a busy widget changes nothing and sends nothing. Otherwise the trimmed text is sent with the transcript as it was before it and the user message is appended. The assistant message is the reply handled as `HandleReply` handles it, or the error text when the request fails. The post and the flag follow that handling, and the flag rises exactly when a booking was accepted, whose message then ends with the success suffix |
| Chatbot.BookedReplyEndsWithSuccess | app/page.tsx:123-128 | A handled reply that books always ends with the success suffix |
| Chatbot.NoSecondSubmission | app/page.tsx:119-129 | After a successful chat booking, a later block is stripped, nothing is posted and no suffix is appended |
| Chatbot.FailureAllowsRetry | app/page.tsx:123-128 | A failed submission leaves the flag down and the reply ends with the caution suffix |
| Chatbot.PhoneBreaksChatEmail | app/page.tsx:79 | A phone with white space or an `@` makes the synthesized email fail the reservations route's address check, so the route answers 400 |
| Chatbot.DigitPhoneAccepted | app/page.tsx:77-82 | A digits-only phone with a name and a date gives a booking the reservations route accepts |
| Chatbot.Wire | app/page.tsx:103-106 | The transcript is sent message by message, with each role named `user` or `assistant` |
| Chatbot.ModelSeesTranscript | app/api/chat/route.ts:240-252 | The chat route's role filter drops nothing the widget sends, so the model sees the system prompt, the whole transcript and the new text |
| Chatbot.AtMostOneBooking | app/page.tsx:119-129 | Over any series of turns at most one chat booking is accepted, none once one was, and the flag stays up once raised |
| ReservationsApi.EmailAcceptedIffPattern | app/api/reservations/route.ts:25-26 | The route's check holds exactly when the address splits as local `@` domain `.` suffix, each part non-empty and free of white space and `@` |
| ReservationsApi.Post | app/api/reservations/route.ts:10-75 | The required-field check comes first and then the address check, both with 400. Success needs both and a successful insert. Guests default to 2, the table type to `general` and notes to null, and the status is always `pending` |
| ReservationsApi.ZeroGuestsBecomeTwo | app/api/reservations/route.ts:43 | A guest count of 0 is replaced by 2 |
| ReservationsApi.NewBookingsArePending | app/api/reservations/route.ts:46 | Whatever status the request carries, the stored booking is the same and is pending |
| ReservationsApi.Patch | app/api/reservations/route.ts:121-160 | 400 exactly when the id is missing or the status is not one of the four names; success carries the id and the named status and needs a successful update |
| ReservationsApi.AnyStatusAccepted | app/api/reservations/route.ts:133-144 | Every one of the four statuses is accepted for any id, with no transition rule |
| ReservationsApi.ApplyStatus | app/api/reservations/route.ts:141-146 | The rows with that id take the new status and every other row is unchanged |
| ReservationsApi.List | app/api/reservations/route.ts:78-118 | The result is sorted by date then time, holds exactly the rows passing the filters that were given, and is a 500 when the query fails |
| ReservationsApi.ListWithoutFilters | app/api/reservations/route.ts:90-98 | Missing or empty parameters select every row |
| ChatRoute.Upcoming | app/api/chat/route.ts:24-29 | At most ten events, all on or after today, sorted by date, drawn from the rows dated on or after today; fewer than ten only when fewer exist |
| ChatRoute.UpcomingAreTheEarliest | app/api/chat/route.ts:24-29 | When an upcoming event is left out, ten are shown and every one is no later than it |
| ChatRoute.EventCard | app/api/chat/route.ts:47-55 | The card has its seven keys in order; the title falls back to the DJ name and the other optional fields to the empty text |
| ChatRoute.EventJsonDecodes | app/api/chat/route.ts:47-57 | The card JSON the prompt embeds reads back as exactly those seven key/value pairs |
| ChatRoute.EventLine | app/api/chat/route.ts:56-57 | Exactly four shapes: head, then the genre segment when the genre is non-empty, then the promotion segment when the promotion is non-empty, then the card JSON; the line starts with the head and ends with the card | |
| ChatRoute.EventsSection | app/api/chat/route.ts:40-61 | The section is never empty; missing or no events give the fixed fallback, otherwise the events heading starts it |
| ChatRoute.CategoriesListed | app/api/chat/route.ts:66-70 | The groups name each category of the items exactly once and no other |
| ChatRoute.CategoriesInFirstAppearanceOrder | app/api/chat/route.ts:66-70 | The groups appear in the order their categories first appear in the query result |
| ChatRoute.GroupingIsByCategory | app/api/chat/route.ts:66-70 | Grouping equals the reference grouping: one group per category, each holding that category's items in query order |
| ChatRoute.EachItemInItsOwnGroup | app/api/chat/route.ts:67-70 | Every item sits in the group of its own category |
| ChatRoute.CategoryHeading | app/api/chat/route.ts:72-82 | `cocktails`, `shots`, `bottles`, `food` and `specials` give `CÓCTELES`, `SHOTS`, `BOTELLAS`, `COMIDA` and `ESPECIALES`; any other id gives its uppercased text | |
| ChatRoute.HeadingIsUpperCase | app/api/chat/route.ts:72-82 | Every heading is already upper case: uppercasing it changes nothing |
| ChatRoute.ItemLine | app/api/chat/route.ts:83-85 | An item line is `- name (description) - $price`, the parenthesis only for a non-empty description |
| ChatRoute.MenuSection | app/api/chat/route.ts:64-102 | The section is never empty; missing or no items give the fixed fallback menu, otherwise the menu heading starts it |
| ChatRoute.AvailableMenu | app/api/chat/route.ts:32-37 | Exactly the available items, ordered by category then name |
| ChatRoute.Conversation | app/api/chat/route.ts:240-245 | Keeps exactly the user and assistant messages of the history |
| ChatRoute.ConversationKeepsOrder | app/api/chat/route.ts:240-245 | The role filter distributes over concatenation, so the original order is kept |
| ChatRoute.ModelMessages | app/api/chat/route.ts:248-252 | The system prompt first, the filtered history next and the new user message last |
| ChatRoute.ConversationalHistoryKept | app/api/chat/route.ts:240-245 | A history of user and assistant messages passes the filter unchanged |
| ChatRoute.Post | app/api/chat/route.ts:232-271 | A failing request gives 500 with the apology; an empty completion gives the fixed fallback; the reply is never empty |
| Dates.Today | app/api/chat/route.ts:21-23 | For a plausible date the text has ten characters with dashes at positions 4 and 7, and its three digit fields read back as the year, the month and the day |
| Dates.TodayOrder | app/api/chat/route.ts:21-27 | For four-digit years, comparing the date texts as strings agrees with calendar order, and equal texts mean equal dates |
| AdminStats.CountStatus | app/api/admin/stats/route.ts:31-34 | A status count never exceeds the number of rows |
| AdminStats.CountStatusIsFilterLength | app/api/admin/stats/route.ts:31-34 | A status count equals the length of the rows filtered on that status |
| AdminStats.StatusCountsBounded | app/api/admin/stats/route.ts:30-34 | The four counts sum to at most the total, and to the total when every status is one of the four |
| AdminStats.TotalGuestsSplits | app/api/admin/stats/route.ts:35 | The guest total of two row lists joined is the sum of their totals, with a missing count as 0 |
| AdminStats.TallyOfCounts | app/api/admin/stats/route.ts:38-41 | The by-key tally has one entry per distinct key, each count the key's occurrences and at least 1, and the counts sum to the number of rows |
| AdminStats.SortedTallies | app/api/admin/stats/route.ts:42-44 | Sorting the tally by key keeps every entry and count |
| AdminStats.Window | app/api/admin/stats/route.ts:12-13 | A given start or end parameter is used; a missing or empty one falls back to its default |
| AdminStats.PendingList | app/api/admin/stats/route.ts:56-62 | Ten rows, or all pending rows when fewer; drawn from the table's pending rows without repeating any; all pending, sorted by date then time | |
| AdminStats.PendingAreTheEarliest | app/api/admin/stats/route.ts:56-62 | When a pending row is left out, the list is full and each listed row is no later than it by date and time |
| AdminStats.Get | app/api/admin/stats/route.ts:9-79 | 500 when the query fails. Otherwise: the total is the window's row count; each status count is that status's rows; by-day is sorted by date with one entry per date and counts summing to the total; by-type counts a missing type as `general` with counts summing to the total; the pending list is included only when its query succeeded |
| AdminReservations.StatusLabel | app/admin/reservations/page.tsx:26-31 | The four statuses map to their Spanish labels and any other text is kept raw |
| AdminReservations.Cells | app/admin/reservations/page.tsx:46-57 | Ten cells; a missing table type becomes `general`, missing notes the empty text, and the status its label |
| AdminReservations.Export | app/admin/reservations/page.tsx:39-64 | Nothing is produced for an empty list (or a row without a guest count); otherwise the file starts with the byte order mark |
| AdminReservations.ExportReadsBack | app/admin/reservations/page.tsx:43-64 | After the byte order mark an RFC 4180 reader recovers the header and, for every reservation, exactly its ten cell texts |
| Csv.QuotedEncodes | app/admin/reservations/page.tsx:63 | A cell written in quotes with inner quotes doubled is read back exactly, whatever it contains |
| AdminReservations.WhatsAppNumber | app/admin/reservations/page.tsx:120-122 | The phone's digits when they already start with `52`, and `52` followed by them otherwise | |
| AdminReservations.WhatsAppNumberIdempotent | app/admin/reservations/page.tsx:120-122 | Normalising a normalised number changes nothing |
| AdminReservations.WhatsAppNumberIgnoresFormatting | app/admin/reservations/page.tsx:120 | Phones with the same digits give the same number |
| AdminReservations.PeopleWord | app/admin/reservations/page.tsx:133 | `persona` exactly when there is one guest, otherwise `personas` |
| AdminReservations.WhatsAppLink | app/admin/reservations/page.tsx:124-137 | The link opens `wa.me` with the normalised number, followed by the encoded message |
| AdminReservations.SetStatus | app/admin/reservations/page.tsx:100-116 | After an OK response only the rows with that id take the new status; nothing changes otherwise |
| AdminReservations.SetStatusIdempotent | app/admin/reservations/page.tsx:108-111 | Repeating the same change changes nothing more |
| AdminReservations.SetStatusMatchesRoute | app/admin/reservations/page.tsx:100-111 | The route accepts the page's request, and the page's local list equals what the route's update does to the table |
| AdminReservations.ListParams | app/admin/reservations/page.tsx:86-88 | One parameter per non-empty filter, none with an empty value |
| AdminReservations.ParamsSelect | app/admin/reservations/page.tsx:84-90 | The listing route then selects exactly the rows matching each non-empty filter |
| CategoriesApi.Slug | app/api/categories/route.ts:50-55 | A slug uses only `a-z`, `0-9` and `-`, has no two dashes in a row and none at either end, and keeps exactly the letters and digits of the lower-cased, accent-stripped name | |
| CategoriesApi.SlugIsJoinedWords | app/api/categories/route.ts:50-55 | The slug equals the reference: the maximal runs of `a-z0-9` in the lower-cased, accent-stripped name, joined by single dashes |
| CategoriesApi.SlugEmptyIff | app/api/categories/route.ts:50-55 | The slug is empty exactly when the name has no letter or digit |
| CategoriesApi.SlugIdempotent | app/api/categories/route.ts:50-55 | Slugging a slug gives it back |
| CategoriesApi.SlugOfCocteles | app/api/categories/route.ts:51-53 | `Cócteles` becomes `cocteles` |
| CategoriesApi.Post | app/api/categories/route.ts:44-73 | A string name is slugged into the id, which equals the slug of the stored name; `display_order` keeps a truthy value and otherwise becomes 99; a failed insert gives 500 | |
| CategoriesApi.ZeroOrderBecomes99 | app/api/categories/route.ts:59 | An explicit order of 0 becomes 99 |
| CategoriesApi.DefaultCategoriesOrdered | app/api/categories/route.ts:19-29 | Five default categories with distinct ids and display orders 1 to 5 in order |
| CategoriesApi.List | app/api/categories/route.ts:10-41 | A missing table gives the defaults, any other error 500, and otherwise the rows sorted by display order |
| CategoriesApi.Patch | app/api/categories/route.ts:76-98 | Every field but the id is updated; a failed update gives 500 |
| CategoriesApi.InUseIffListed | app/api/categories/route.ts:107-112 | A category is in use exactly when some menu item lists it |
| CategoriesApi.Delete | app/api/categories/route.ts:101-135 | 400, with nothing deleted, exactly when readable items reference the category; otherwise the delete's outcome decides |
| EventsApi.List | app/api/events/route.ts:10-47 | Sorted by date; exactly the rows passing the filters; the featured and upcoming filters apply only for the exact text `true` |
| EventsApi.OnlyExactTrueFilters | app/api/events/route.ts:21-33 | Without an exact `true` every row is listed |
| EventsApi.UpcomingIsCalendarOrder | app/api/events/route.ts:25-33 | An event is upcoming exactly when its date is not before today in the calendar |
| EventsApi.Post | app/api/events/route.ts:50-83 | 400 exactly when the DJ name or date is missing; empty optional fields become null and featured defaults to false |
| EventsApi.PostIgnoresOtherFields | app/api/events/route.ts:61-69 | Any field outside the seven stored ones makes no difference to what is stored |
| EventsApi.Patch | app/api/events/route.ts:86-112 | 400 exactly when the id is missing; otherwise every other field is the update |
| EventsApi.Delete | app/api/events/route.ts:115-139 | 400 exactly when the id is missing; otherwise that id is deleted |
| MenuApi.List | app/api/menu/route.ts:10-42 | Sorted by category then name; exactly the rows passing the filters; category filters when non-empty, availability only for `true` |
| MenuApi.ListEverything | app/api/menu/route.ts:16-28 | With an empty category and no exact `true`, every row is listed |
| MenuApi.Post | app/api/menu/route.ts:45-77 | 400 exactly when category or name is missing or the price key is absent; empty texts become null; available unless explicitly false |
| MenuApi.ZeroPriceAccepted | app/api/menu/route.ts:50-52 | A price of 0 is accepted |
| MenuApi.OnlyFalseHides | app/api/menu/route.ts:62 | Any value but `false` stores the item as available |
| MenuApi.PostIgnoresOtherFields | app/api/menu/route.ts:56-63 | Fields outside the stored ones, `featured` among them, make no difference |
| MenuApi.Patch | app/api/menu/route.ts:80-106 | 400 exactly when the id is missing; otherwise every other field is the update |
| MenuApi.Delete | app/api/menu/route.ts:109-131 | 400 exactly when the id is missing; otherwise that id is deleted |
| HeroApi.List | app/api/hero-images/route.ts:10-25 | At most four images, sorted by position, each no later than any image left out |
| HeroApi.Post | app/api/hero-images/route.ts:28-60 | 400 exactly when a known non-zero count is at least four; the position keeps a truthy value and otherwise becomes the count, or 0 |
| HeroApi.ZeroPositionBecomesCount | app/api/hero-images/route.ts:48 | An explicit position 0 is replaced by the current count |
| HeroApi.NullCountSkipsCap | app/api/hero-images/route.ts:37-42 | An unknown count never triggers the cap |
| HeroApi.AddAllKeepsCap | app/api/hero-images/route.ts:37-42 | A series of inserts, each counting the table first, never leaves more than four rows |
| HeroApi.Patch | app/api/hero-images/route.ts:63-82 | Every body field except the id is the update |
| HeroApi.Delete | app/api/hero-images/route.ts:85-106 | 400 exactly when the id parameter is missing or empty |
| UploadApi.Ext | app/api/upload/route.ts:34 | The text after the last dot, or the whole name when there is no dot |
| UploadApi.ExtAfterDot | app/api/upload/route.ts:34 | A name ending in a dot and a dot-free suffix has that suffix as extension |
| UploadApi.Post | app/api/upload/route.ts:11-70 | A missing file, then a type outside the four, then a size above 5 MiB give 400 in that order; a stored file gets the object path of its folder (default `imgs`), the timestamp, the random text and its extension, with its type and without overwrite | |
| UploadApi.ObjectPath | app/api/upload/route.ts:34-37 | The path is the folder, a slash, the decimal timestamp, a dash, the random text, a dot and the extension; it starts with the folder and a slash and its extension reads back | |
| UploadApi.DistinctStampsDistinctPaths | app/api/upload/route.ts:34-37 | In one folder and for one extension, a different timestamp or random text gives a different path |
| UploadApi.ExactlyFiveMegabytesAccepted | app/api/upload/route.ts:28-29 | A file of exactly 5 MiB is accepted |
| UploadApi.EmptyFolderIsDefault | app/api/upload/route.ts:15 | An empty folder behaves as a missing one, storing under `imgs/` |
| HomePage.EventsPreview | app/page.tsx:336-338 | At most three events, the first ones of the listing |
| HomePage.EventsPreviewIsUpcoming | app/page.tsx:336-338 | Fed by the upcoming listing, the preview holds at most three events, earliest first, none before today, each one from the table |
| HomePage.MenuPreview | app/page.tsx:384-385 | At most two items, the first ones of that category |
| HomePage.MenuPreviewIsAvailable | app/page.tsx:384-385 | Each previewed item is available and of that category |
| HeroAdmin.FindIndex | app/admin/hero/page.tsx:94 | The index of the first image with that id, or -1 when there is none |
| HeroAdmin.Move | app/admin/hero/page.tsx:93-119 | At most two position updates, and exactly two when the image and its neighbour are both in the list |
| HeroAdmin.MoveAtEdgeSendsNothing | app/admin/hero/page.tsx:94-97 | Moving the first image up or the last down sends nothing |
| HeroAdmin.MoveSwaps | app/admin/hero/page.tsx:99-113 | After the two updates the image and its neighbour have traded positions, every other image is unchanged, and the multiset of positions is kept |
| HeroAdmin.AddRequest | app/admin/hero/page.tsx:35-43 | A blank or white-space address sends nothing |
| HeroAdmin.UrlAfterAdd | app/admin/hero/page.tsx:45-47 | A non-empty input is cleared exactly when a non-blank address was added successfully |
| HeroAdmin.UpdateRequest | app/admin/hero/page.tsx:57-63 | A blank or white-space address sends nothing; otherwise the id and address are sent |
| HeroAdmin.FormShownIffPostAccepted | app/admin/hero/page.tsx:132 | The add form shows exactly when the route would accept another image |
| MenuAdmin.ToggleAvailable | app/admin/menu/page.tsx:113-129 | After an OK response only the matching items flip `available`; nothing changes otherwise |
| MenuAdmin.ToggleAvailableTwice | app/admin/menu/page.tsx:121-124 | Two toggles restore the list |
| MenuAdmin.ToggleAvailableAgrees | app/admin/menu/page.tsx:115-119 | The route accepts the toggle's request and stores exactly the flipped value |
| MenuAdmin.ToggleFeatured | app/admin/menu/page.tsx:131-147 | After an OK response only the matching items flip `featured`; nothing changes otherwise |
| MenuAdmin.ToggleFeaturedTwice | app/admin/menu/page.tsx:139-142 | Two toggles restore the list, up to a missing flag becoming false |
| MenuAdmin.DeleteItem | app/admin/menu/page.tsx:149-165 | After an OK response exactly the items with other ids remain |
| MenuAdmin.DeleteItemKeepsOrder | app/admin/menu/page.tsx:159-161 | Deleting distributes over concatenation, so the order is kept |
| MenuAdmin.TabItems | app/admin/menu/page.tsx:167 | Exactly the items of the active tab |
| MenuAdmin.NewForm | app/admin/menu/page.tsx:69-78 | The category is the active tab, available is true, featured false and the texts empty |
| MenuAdmin.EditForm | app/admin/menu/page.tsx:58-67 | The item's fields, with a missing description or image as empty text and a missing featured as false |
| MenuAdmin.Submit | app/admin/menu/page.tsx:88-111 | PATCH with the id when editing, POST without it otherwise; the body carries exactly the seven form keys, plus the id when editing, with the form's texts and flags and the parsed price | |
| MenuAdmin.CreatedFromForm | app/admin/menu/page.tsx:91-99 | The route accepts a new item's form with a category and a name, stores its availability, and stores null exactly for an empty description |
| EventsAdmin.ToggleFeatured | app/admin/events/page.tsx:115-131 | After an OK response only the matching events flip `featured`; nothing changes otherwise |
| EventsAdmin.ToggleFeaturedTwice | app/admin/events/page.tsx:123-126 | Two toggles restore the list |
| EventsAdmin.DeleteEvent | app/admin/events/page.tsx:133-149 | After an OK response exactly the events with other ids remain |
| EventsAdmin.DeleteEventKeepsOrder | app/admin/events/page.tsx:143-145 | Deleting distributes over concatenation, so the order is kept |
| EventsAdmin.NewForm | app/admin/events/page.tsx:69-81 | Empty texts, time `22:00`, not featured |
| EventsAdmin.EditForm | app/admin/events/page.tsx:54-67 | The event's fields, missing texts as empty and a missing time as `22:00` |
| EventsAdmin.Submit | app/admin/events/page.tsx:91-113 | PATCH with the id when editing, POST without it otherwise; the form's fields |
| EventsAdmin.CreateDropsTitle | app/admin/events/page.tsx:94-101 | The events route stores the same row whatever title, subtitle and promotion the form sends |
| EventsAdmin.EditKeepsTitle | app/admin/events/page.tsx:94-101 | An edit is sent as an update whose title, subtitle and promotion are the form's, and whose every key but the id is the form's field | |
| PublicMenu.CategoriesWithItems | app/menu/page.tsx:61-63 | Exactly the categories with at least one item |
| PublicMenu.CategoriesWithItemsKeepOrder | app/menu/page.tsx:61-63 | The filter distributes over concatenation, so the given order is kept |
| PublicMenu.InitialTab | app/menu/page.tsx:42-47 | The first category with items, or the empty text when there is none |
| Rows.ItemsInCategory | app/menu/page.tsx:57-58 | Exactly that category's items |
| PublicMenu.EntryOf | app/menu/page.tsx:184-191 | The description block is present exactly when the description is non-empty |
| PublicMenu.SectionOf | app/menu/page.tsx:179-194 | The title is the uppercased name and the entries are that category's items in order |
| PublicMenu.Blocks | app/menu/page.tsx:178-195 | No printed section is empty |
| PublicMenu.BlocksOfUsedCategories | app/menu/page.tsx:178-195 | When every category has items, each gets its section, in order |
| PublicMenu.PrintedMatchesTabs | app/menu/page.tsx:178-195 | The printed sections are exactly those of the tab categories, in order |
| Rows.ParseStatus | lib/supabase.ts:14 | A text names a status exactly when it is one of the four status names |

## Left out

- The database, the object storage and the language model are not modelled. Their answers are inputs: a row list or `None`, a success flag, or an error code.
- Time zones and locale formatting are inputs. This covers the Mexico City conversion, `toLocaleDateString` and `toLocaleString`. The civil date is given, and every locale rendering is a function parameter.
- The prompt's static prose is not modelled, since it has no behaviour. The model keeps only the fixed fallback texts, the headings and the rendered lines.
- The second `const now` in the chat route is a redeclaration. It is not reproduced.
- CategoriesApi.Slug: the accent table strips the accents of the Latin-1 letters that decompose, and combining marks U+0300 to U+036F are removed. Full Unicode decomposition (NFD) is not modelled. Latin-1 letters without a decomposition, such as `ß`, `æ` and `ø`, are dropped as non-slug characters, as in the route. Letters outside Latin-1 are all dropped by the model. The route keeps the base letter of those that decompose: `Ča` gives `ca` there and `a` here.
- Text.Upper: the mapping covers ASCII and the Latin-1 letters, including `ÿ` to `Ÿ` and `µ` to `Μ`. `ß` stays `ß`, where JavaScript's `toUpperCase` gives `SS`, and letters outside Latin-1 are kept unchanged.
- Text.Lower: the mapping covers ASCII and Latin-1 only.
- Text columns are ordered by code point. The database's collation may order accented or mixed-case text differently. This affects MenuApi.List and ChatRoute.AvailableMenu, which sort by category and then by name.
- Prices are integers. `parseFloat` on the admin form is a parameter, and `$price` renders the integer.
- The upload route's `Date.now()`, `Math.random()` and file bytes are inputs.
- Concurrency is not modelled. This covers React state batching, simultaneous hero uploads, and requests in flight.
- JavaScript objects are maps. The key order of `Object.entries` is modelled as insertion order. JavaScript puts integer-like keys first, and that is not modelled. Inherited keys such as `constructor` are not modelled either.
- `JSON.parse` of the reservation block is a parameter, a partial function onto objects.
- Chatbot.HandleReply: a block that parses as well-formed JSON but not as an object (a number or a string) is treated as a parse failure, so nothing is posted. The page still POSTs a body built from it, with an `undefined` phone in the address, and the reservations route refuses it with 400. The reply shown is the same caution suffix in both cases.
- Records in the export are separated by a line feed, as the page writes them, not by RFC 4180's CRLF. The reader in `Csv` follows the same convention.
- AdminReservations.Export: a row with no guest count makes the page throw. The model returns nothing for such a list instead of modelling the exception.
- AdminReservations.WhatsAppLink: `encodeURIComponent` is a parameter, so the contract states only the link's prefix.
- HeroAdmin.Move: for an id not in a non-empty list, moving down sends one request for the id. For an empty list nothing is sent, since the target index 0 is out of range. The second request then reads the position of `images[-1]`, which fails with a TypeError. The `try`/`catch` of `moveImage` catches and logs it, so the second request and the reload are skipped. The model keeps the one request and does not model the logging.
- The home page's reservation form, the page markup, styling and animation, the PDF window and printing, login, the sitemap and the dashboard's chart labels are not modelled. They hold no logic of their own.
- The chat route's model parameters (temperature, token limit, model name) are not modelled, since they are constants passed to the foreign call.
