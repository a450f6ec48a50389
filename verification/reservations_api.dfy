/**
 The booking route (`app/api/reservations/route.ts`): `POST` validates a
 reservation request and inserts it with defaults, `GET` lists reservations
 with optional date and status filters, `PATCH` sets a reservation's status.
 The database is an input: the rows a query sees and whether a write
 succeeded.
 */
module ReservationsApi {
  import opened Wrappers
  import opened Text
  import opened JsonValues
  import opened Rows
  import opened Http
  import opened Ordering
  import ListUpdates

  const MissingFieldsError := "Faltan campos requeridos"
  const InvalidEmailError := "Email inválido"
  const SaveError := "Error al guardar la reservación"
  const MissingIdStatusError := "ID y status son requeridos"
  const InvalidStatusError := "Status inválido"
  const UpdateError := "Error al actualizar la reservación"
  const ListError := "Error al obtener reservaciones"

  // ----- POST -----

  /** The five fields a booking cannot do without are present and truthy;
      `guests`, `tableType` and `notes` are optional. */
  predicate HasRequired(body: Object) {
    && Truthy(Get(body, "name")) && Truthy(Get(body, "email")) && Truthy(Get(body, "phone"))
    && Truthy(Get(body, "date")) && Truthy(Get(body, "time"))
  }

  /** Characters the address pattern allows in each of its three parts. */
  predicate PartChars(s: string) {
    forall i :: 0 <= i < |s| ==> !IsSpace(s[i]) && s[i] != '@'
  }

  /** `e` is `local@domain.tld` with three non-empty parts free of white space
      and `@`: one way of matching `/^[^\s@]+@[^\s@]+\.[^\s@]+$/`. */
  ghost predicate SplitsAsEmail(e: string, local: string, domain: string, tld: string) {
    && e == local + "@" + domain + "." + tld
    && |local| > 0 && |domain| > 0 && |tld| > 0
    && PartChars(local) && PartChars(domain) && PartChars(tld)
  }

  /** What the email pattern means. */
  ghost predicate MatchesEmailPattern(e: string) {
    exists local, domain, tld :: SplitsAsEmail(e, local, domain, tld)
  }

  /** The check the route runs: no white space, exactly one `@` with
      something before it, and after it a `.` with at least one character on
      each side. */
  predicate EmailAccepted(e: string) {
    && (forall i :: 0 <= i < |e| ==> !IsSpace(e[i]))
    && (exists k :: 0 < k < |e| && e[k] == '@'
         && (forall i :: 0 <= i < |e| && i != k ==> e[i] != '@')
         && (exists p :: k + 1 < p < |e| - 1 && e[p] == '.'))
  }

  /** The check agrees with the pattern, in both directions. */
  lemma EmailAcceptedIffPattern(e: string)
    ensures EmailAccepted(e) <==> MatchesEmailPattern(e)
  {
    if EmailAccepted(e) {
      var k :| 0 < k < |e| && e[k] == '@'
        && (forall i :: 0 <= i < |e| && i != k ==> e[i] != '@')
        && (exists p :: k + 1 < p < |e| - 1 && e[p] == '.');
      var p :| k + 1 < p < |e| - 1 && e[p] == '.';
      AcceptedSplits(e, k, p);
    }
    if MatchesEmailPattern(e) {
      var local, domain, tld :| SplitsAsEmail(e, local, domain, tld);
      SplitAccepted(e, local, domain, tld);
    }
  }

  /** An accepted address splits at its `@` and at a later `.`. */
  lemma AcceptedSplits(e: string, k: nat, p: nat)
    requires forall i :: 0 <= i < |e| ==> !IsSpace(e[i])
    requires 0 < k < |e| && e[k] == '@' && forall i :: 0 <= i < |e| && i != k ==> e[i] != '@'
    requires k + 1 < p < |e| - 1 && e[p] == '.'
    ensures SplitsAsEmail(e, e[..k], e[k + 1..p], e[p + 1..])
  {
    var local, domain, tld := e[..k], e[k + 1..p], e[p + 1..];
    assert e == local + "@" + domain + "." + tld;
    assert forall i :: 0 <= i < |local| ==> local[i] == e[i];
    assert forall i :: 0 <= i < |domain| ==> domain[i] == e[k + 1 + i];
    assert forall i :: 0 <= i < |tld| ==> tld[i] == e[p + 1 + i];
  }

  /** An address of the pattern's shape passes the check. */
  lemma SplitAccepted(e: string, local: string, domain: string, tld: string)
    requires SplitsAsEmail(e, local, domain, tld)
    ensures EmailAccepted(e)
  {
    var k, p := |local|, |local| + 1 + |domain|;
    forall i | 0 <= i < |e| ensures !IsSpace(e[i]) && (i != k ==> e[i] != '@') {
      if i < k { assert e[i] == local[i]; }
      else if k < i < p { assert e[i] == domain[i - k - 1]; }
      else if i > p { assert e[i] == tld[i - p - 1]; }
    }
    assert e[k] == '@' && e[p] == '.';
  }

  /** The row a valid booking request inserts. */
  datatype NewReservation = NewReservation(
    name: Json, email: Json, phone: Json, date: Json, time: Json,
    guests: Json, tableType: Json, notes: Json, status: string)

  /** `POST /api/reservations`: `insertOk` is whether the database accepted
      the insert. */
  function Post(body: Object, insertOk: bool): (r: Reply<NewReservation>)
    ensures !HasRequired(body) ==> r == Fail(400, MissingFieldsError)
    ensures HasRequired(body) && !EmailAccepted(ToJsString(Get(body, "email"))) ==> r == Fail(400, InvalidEmailError)
    ensures r.Ok? <==> HasRequired(body) && EmailAccepted(ToJsString(Get(body, "email"))) && insertOk
    ensures r.Ok? ==>
      && Some(r.body.name) == Get(body, "name") && Some(r.body.email) == Get(body, "email")
      && Some(r.body.phone) == Get(body, "phone") && Some(r.body.date) == Get(body, "date")
      && Some(r.body.time) == Get(body, "time")
      && (Truthy(Get(body, "guests")) ==> Some(r.body.guests) == Get(body, "guests"))
      && (!Truthy(Get(body, "guests")) ==> r.body.guests == JNum(2))
      && (Truthy(Get(body, "tableType")) ==> Some(r.body.tableType) == Get(body, "tableType"))
      && (!Truthy(Get(body, "tableType")) ==> r.body.tableType == JStr(TableTypeName(General)))
      && (Truthy(Get(body, "notes")) ==> Some(r.body.notes) == Get(body, "notes"))
      && (!Truthy(Get(body, "notes")) ==> r.body.notes == JNull)
      && r.body.status == StatusName(Pending)
  {
    var name, email, phone := Get(body, "name"), Get(body, "email"), Get(body, "phone");
    var date, time := Get(body, "date"), Get(body, "time");
    if !Truthy(name) || !Truthy(email) || !Truthy(phone) || !Truthy(date) || !Truthy(time) then
      Fail(400, MissingFieldsError)
    else if !EmailAccepted(ToJsString(email)) then
      Fail(400, InvalidEmailError)
    else if !insertOk then
      Fail(500, SaveError)
    else
      Ok(NewReservation(
        name.value, email.value, phone.value, date.value, time.value,
        Or(Get(body, "guests"), JNum(2)),
        Or(Get(body, "tableType"), JStr(TableTypeName(General))),
        Or(Get(body, "notes"), JNull),
        StatusName(Pending)))
  }

  /** A guest count of 0 is falsy and is replaced by the default 2. */
  lemma ZeroGuestsBecomeTwo(body: Object, insertOk: bool)
    requires Get(body, "guests") == Some(JNum(0))
    requires Post(body, insertOk).Ok?
    ensures Post(body, insertOk).body.guests == JNum(2)
  {}

  /** Whatever status the request names, a new booking starts `pending`. */
  lemma NewBookingsArePending(body: Object, insertOk: bool, s: Json)
    requires Post(body, insertOk).Ok?
    ensures Post(body["status" := s], insertOk).Ok?
    ensures Post(body["status" := s], insertOk).body == Post(body, insertOk).body
  {
    assert forall k :: k != "status" ==> Get(body["status" := s], k) == Get(body, k);
  }

  // ----- PATCH -----

  /** A status change the route accepted. */
  datatype StatusUpdate = StatusUpdate(id: Json, status: Status)

  /** The value names one of the four statuses. */
  predicate IsStatusName(v: Option<Json>) {
    v.Some? && v.value.JStr? && ParseStatus(v.value.s).Some?
  }

  /** `PATCH /api/reservations`: `updateOk` is whether the database updated
      a row. Only `status` is written; no transition is forbidden. */
  function Patch(body: Object, updateOk: bool): (r: Reply<StatusUpdate>)
    ensures !Truthy(Get(body, "id")) || !Truthy(Get(body, "status")) ==> r == Fail(400, MissingIdStatusError)
    ensures Truthy(Get(body, "id")) && Truthy(Get(body, "status")) && !IsStatusName(Get(body, "status")) ==>
      r == Fail(400, InvalidStatusError)
    ensures r.IsBadRequest() <==> !Truthy(Get(body, "id")) || !IsStatusName(Get(body, "status"))
    ensures r.Ok? <==> Truthy(Get(body, "id")) && IsStatusName(Get(body, "status")) && updateOk
    ensures r.Ok? ==> Some(r.body.id) == Get(body, "id") && Get(body, "status") == Some(JStr(StatusName(r.body.status)))
  {
    var id, status := Get(body, "id"), Get(body, "status");
    if !Truthy(id) || !Truthy(status) then Fail(400, MissingIdStatusError)
    else if !IsStatusName(status) then Fail(400, InvalidStatusError)
    else if !updateOk then Fail(500, UpdateError)
    else Ok(StatusUpdate(id.value, ParseStatus(status.value.s).value))
  }

  /** Every one of the four statuses is accepted, whatever the row's current
      status is. */
  lemma AnyStatusAccepted(id: string, s: Status)
    requires id != ""
    ensures Patch(map["id" := JStr(id), "status" := JStr(StatusName(s))], true) == Ok(StatusUpdate(JStr(id), s))
  {
    var body := map["id" := JStr(id), "status" := JStr(StatusName(s))];
    assert Get(body, "status") == Some(JStr(StatusName(s)));
    ParseStatusName(s);
  }

  /** What an accepted status change does to the table: the rows with that
      id take the new status, nothing else changes. */
  function ApplyStatus(table: seq<Reservation>, id: string, s: Status): (r: seq<Reservation>)
    ensures |r| == |table|
    ensures forall i :: 0 <= i < |table| && table[i].id == id ==> r[i] == table[i].(status := StatusName(s))
    ensures forall i :: 0 <= i < |table| && table[i].id != id ==> r[i] == table[i]
  {
    ListUpdates.UpdateWhere(table, (x: Reservation) => x.id == id, (x: Reservation) => x.(status := StatusName(s)))
  }

  // ----- GET -----

  /** The filters the query applies: each only when its parameter is given. */
  predicate Selected(date: Option<string>, status: Option<string>, r: Reservation) {
    && (Given(date) ==> r.date == date.value)
    && (Given(status) ==> r.status == status.value)
  }

  /** `GET /api/reservations?date=&status=`: `rows` is the table, or `None`
      when the query failed. */
  function List(date: Option<string>, status: Option<string>, rows: Option<seq<Reservation>>): (r: Reply<seq<Reservation>>)
    ensures rows.None? <==> r.Fail?
    ensures r.Ok? ==> SortedBy(r.body, DateTimeKey)
    ensures r.Ok? ==> multiset(r.body) == multiset(ListUpdates.Filter(rows.value, x => Selected(date, status, x)))
    ensures r.Ok? ==> forall i :: 0 <= i < |r.body| ==> Selected(date, status, r.body[i])
  {
    if rows.None? then Fail(500, ListError)
    else
      var hits := ListUpdates.Filter(rows.value, x => Selected(date, status, x));
      var sorted := SortBy(hits, DateTimeKey);
      assert forall i :: 0 <= i < |sorted| ==> sorted[i] in multiset(hits);
      Ok(sorted)
  }

  /** Without parameters the listing holds every reservation. */
  lemma ListWithoutFilters(rows: seq<Reservation>)
    ensures List(None, Some(""), Some(rows)).Ok?
    ensures multiset(List(None, Some(""), Some(rows)).body) == multiset(rows)
  {
    ListUpdates.FilterAll(rows, x => Selected(None, Some(""), x));
  }
}
