/**
 The reservations admin page (`app/admin/reservations/page.tsx`): the CSV
 export of the listed reservations, the WhatsApp link for one reservation,
 the local status change after the update route accepted it, and the query
 parameters of the listing. Locale date rendering, URL encoding and the
 browser download are inputs or left out.
 */
module AdminReservations {
  import opened Wrappers
  import opened Text
  import opened Rows
  import opened Csv
  import ListUpdates
  import ReservationsApi

  const Bom := '\U{FEFF}'
  const Headers := ["Fecha", "Hora", "Nombre", "Email", "Teléfono", "Personas", "Tipo de Mesa", "Notas", "Estado", "Creada"]

  // ----- CSV export -----

  /** The Spanish label of a known status; any other status as it is. */
  function StatusLabel(s: string): (r: string)
    ensures ParseStatus(s) == Some(Pending) ==> r == "Pendiente"
    ensures ParseStatus(s) == Some(Confirmed) ==> r == "Confirmada"
    ensures ParseStatus(s) == Some(Cancelled) ==> r == "Cancelada"
    ensures ParseStatus(s) == Some(Completed) ==> r == "Completada"
    ensures ParseStatus(s).None? ==> r == s
  {
    match ParseStatus(s)
    case Some(Pending) => "Pendiente"
    case Some(Confirmed) => "Confirmada"
    case Some(Cancelled) => "Cancelada"
    case Some(Completed) => "Completada"
    case None => s
  }

  /** The ten cells of one reservation; `formatDate` and `formatDateTime`
      stand for the locale renderings of `date` and `created_at`. The guest
      count must be present: `guests.toString()` throws on `null`. */
  function Cells(r: Reservation, formatDate: string -> string, formatDateTime: string -> string): (cells: seq<string>)
    requires r.guests.Some?
    ensures |cells| == |Headers|
    ensures cells[6] == (if Given(r.tableType) then r.tableType.value else "general")
    ensures cells[7] == (if Given(r.notes) then r.notes.value else "")
    ensures cells[5] == IntToString(r.guests.value) && cells[8] == StatusLabel(r.status)
  {
    [ formatDate(r.date), r.time, r.name, r.email, r.phone,
      IntToString(r.guests.value),
      OrText(r.tableType, TableTypeName(General)),
      OrText(r.notes, ""),
      StatusLabel(r.status),
      formatDateTime(r.createdAt) ]
  }

  function QuotedLine(cells: seq<string>): string {
    Join(seq(|cells|, i requires 0 <= i < |cells| => QuoteCell(cells[i])), ",")
  }

  predicate AllHaveGuests(rs: seq<Reservation>) {
    forall i :: 0 <= i < |rs| ==> rs[i].guests.Some?
  }

  /** `downloadExcel`: `None` when the list is empty (nothing happens) or a
      row has no guest count (the export throws); otherwise the file text. */
  function Export(rs: seq<Reservation>, formatDate: string -> string, formatDateTime: string -> string): (r: Option<string>)
    ensures r.Some? <==> rs != [] && AllHaveGuests(rs)
    ensures r.Some? ==> |r.value| >= 1 && r.value[0] == Bom
  {
    if rs == [] || !AllHaveGuests(rs) then None
    else Some([Bom] + Join(Lines(rs, formatDate, formatDateTime), "\n"))
  }

  /** The header line, then one quoted line per reservation. */
  function Lines(rs: seq<Reservation>, formatDate: string -> string, formatDateTime: string -> string): (lines: seq<string>)
    requires AllHaveGuests(rs)
    ensures |lines| == |rs| + 1
  {
    [Join(Headers, ",")]
      + seq(|rs|, i requires 0 <= i < |rs| => QuotedLine(Cells(rs[i], formatDate, formatDateTime)))
  }

  /** The records a file should hold: the header, then each row's cells. */
  function ExpectedRecords(rs: seq<Reservation>, formatDate: string -> string, formatDateTime: string -> string): (recs: seq<seq<string>>)
    requires AllHaveGuests(rs)
    ensures |recs| == |rs| + 1
    ensures forall i :: 0 <= i < |recs| ==> |recs[i]| == |Headers|
  {
    [Headers] + seq(|rs|, i requires 0 <= i < |rs| => Cells(rs[i], formatDate, formatDateTime))
  }

  lemma HeaderLine()
    ensures LineEncodes(Join(Headers, ","), Headers)
  {
    forall i | 0 <= i < |Headers| ensures Encodes(Headers[i], Headers[i]) {
      PlainEncodes(Headers[i]);
    }
    LineOfEncodedFields(Headers, Headers);
  }

  lemma DataLine(cells: seq<string>)
    requires |cells| >= 1
    ensures LineEncodes(QuotedLine(cells), cells)
  {
    var es := seq(|cells|, i requires 0 <= i < |cells| => QuoteCell(cells[i]));
    forall i | 0 <= i < |cells| ensures Encodes(es[i], cells[i]) {
      QuotedEncodes(cells[i]);
    }
    LineOfEncodedFields(es, cells);
  }

  /** After the byte order mark, an RFC 4180 reader recovers the header and,
      for every reservation, exactly its ten cell texts, quotes, commas and
      line breaks included. */
  lemma ExportReadsBack(rs: seq<Reservation>, formatDate: string -> string, formatDateTime: string -> string)
    requires rs != [] && AllHaveGuests(rs)
    ensures var file := Export(rs, formatDate, formatDateTime).value;
      && ReadRecords(file[1..]) == Some(ExpectedRecords(rs, formatDate, formatDateTime))
      && (forall i :: 0 <= i < |rs| + 1 ==> |ExpectedRecords(rs, formatDate, formatDateTime)[i]| == 10)
  {
    var lines := Lines(rs, formatDate, formatDateTime);
    var recs := ExpectedRecords(rs, formatDate, formatDateTime);
    LinesEncode(rs, formatDate, formatDateTime);
    ReadLines(lines, recs);
    ExportIsJoinedLines(rs, formatDate, formatDateTime);
  }

  lemma LinesEncode(rs: seq<Reservation>, formatDate: string -> string, formatDateTime: string -> string)
    requires AllHaveGuests(rs)
    ensures var lines, recs := Lines(rs, formatDate, formatDateTime), ExpectedRecords(rs, formatDate, formatDateTime);
      forall i :: 0 <= i < |lines| ==> LineEncodes(lines[i], recs[i])
  {
    var lines := Lines(rs, formatDate, formatDateTime);
    var recs := ExpectedRecords(rs, formatDate, formatDateTime);
    forall i | 0 <= i < |lines| ensures LineEncodes(lines[i], recs[i]) {
      LineEncodesAt(rs, formatDate, formatDateTime, i);
    }
  }

  lemma LineEncodesAt(rs: seq<Reservation>, formatDate: string -> string, formatDateTime: string -> string, i: nat)
    requires AllHaveGuests(rs) && i <= |rs|
    ensures LineEncodes(Lines(rs, formatDate, formatDateTime)[i], ExpectedRecords(rs, formatDate, formatDateTime)[i])
  {
    if i == 0 {
      HeaderLine();
    } else {
      var cells := Cells(rs[i - 1], formatDate, formatDateTime);
      assert Lines(rs, formatDate, formatDateTime)[i] == QuotedLine(cells);
      assert ExpectedRecords(rs, formatDate, formatDateTime)[i] == cells;
      DataLine(cells);
    }
  }

  lemma ExportIsJoinedLines(rs: seq<Reservation>, formatDate: string -> string, formatDateTime: string -> string)
    requires rs != [] && AllHaveGuests(rs)
    ensures Export(rs, formatDate, formatDateTime).value[1..] == Join(Lines(rs, formatDate, formatDateTime), "\n")
  {
    var file := Export(rs, formatDate, formatDateTime).value;
    assert file == [Bom] + Join(Lines(rs, formatDate, formatDateTime), "\n");
  }

  // ----- WhatsApp -----

  /** `phone.replace(/\D/g, '')`. */
  function DigitsOf(phone: string): (r: string)
    ensures AllDigits(r)
  {
    var r := ListUpdates.Filter(phone, IsDigit);
    assert forall i :: 0 <= i < |r| ==> IsDigit(r[i]);
    r
  }

  /** The number the link opens: the phone's digits with the Mexican
      country code `52` put in front unless they already start with it. */
  function WhatsAppNumber(phone: string): (r: string)
    ensures AllDigits(r) && StartsWith(r, "52")
    ensures EndsWith(r, DigitsOf(phone))
    ensures StartsWith(DigitsOf(phone), "52") ==> r == DigitsOf(phone)
    ensures !StartsWith(DigitsOf(phone), "52") ==> r == "52" + DigitsOf(phone)
  {
    var d := DigitsOf(phone);
    ConcatEnds("52", d);
    if StartsWith(d, "52") then
      assert d[|d| - |d|..] == d;
      d
    else "52" + d
  }

  /** Normalising a normalised number changes nothing. */
  lemma WhatsAppNumberIdempotent(phone: string)
    ensures WhatsAppNumber(WhatsAppNumber(phone)) == WhatsAppNumber(phone)
  {
    var n := WhatsAppNumber(phone);
    ListUpdates.FilterAll(n, IsDigit);
  }

  /** Punctuation and spaces make no difference. */
  lemma WhatsAppNumberIgnoresFormatting(a: string, b: string)
    requires DigitsOf(a) == DigitsOf(b)
    ensures WhatsAppNumber(a) == WhatsAppNumber(b)
  {}

  /** `persona` for exactly one guest. */
  function PeopleWord(guests: Option<int>): (w: string)
    ensures w == "persona" <==> guests == Some(1)
    ensures w != "persona" ==> w == "personas"
  {
    if guests == Some(1) then "persona" else "personas"
  }

  /** `String(guests)`, with a missing count read as `null`. */
  function GuestsText(guests: Option<int>): string {
    if guests.Some? then IntToString(guests.value) else "null"
  }

  /** The message text; `longDate` is the locale rendering of the date. */
  function WhatsAppMessage(r: Reservation, longDate: string): string {
    "¡Hola " + r.name + "! 👋\n\nRecibimos tu reservación en *Obsidian Social Club* para el *" + longDate
      + "* para *" + GuestsText(r.guests) + " " + PeopleWord(r.guests)
      + "*.\n\n¿Te confirmamos la reservación? 🎉"
  }

  /** The link opened; `encode` stands for `encodeURIComponent`. */
  function WhatsAppLink(r: Reservation, longDate: string, encode: string -> string): (url: string)
    ensures StartsWith(url, "https://wa.me/" + WhatsAppNumber(r.phone) + "?text=")
  {
    var head := "https://wa.me/" + WhatsAppNumber(r.phone) + "?text=";
    ConcatEnds(head, encode(WhatsAppMessage(r, longDate)));
    head + encode(WhatsAppMessage(r, longDate))
  }

  // ----- Local status change and listing parameters -----

  /** `updateStatus`: after an OK response, the rows with that id take the
      new status; otherwise nothing changes. */
  function SetStatus(list: seq<Reservation>, id: string, status: string, ok: bool): (r: seq<Reservation>)
    ensures |r| == |list|
    ensures !ok ==> r == list
    ensures ok ==> forall i :: 0 <= i < |list| && list[i].id == id ==> r[i] == list[i].(status := status)
    ensures forall i :: 0 <= i < |list| && list[i].id != id ==> r[i] == list[i]
  {
    if ok then ListUpdates.UpdateWhere(list, (x: Reservation) => x.id == id, (x: Reservation) => x.(status := status))
    else list
  }

  /** Applying the same change again changes nothing more. */
  lemma SetStatusIdempotent(list: seq<Reservation>, id: string, status: string)
    ensures SetStatus(SetStatus(list, id, status, true), id, status, true) == SetStatus(list, id, status, true)
  {}

  /** The page shows what the update route stores: a change the route
      accepted gives every matching row the status the route wrote. */
  lemma SetStatusMatchesRoute(list: seq<Reservation>, id: string, s: Status)
    requires id != ""
    ensures ReservationsApi.Patch(map["id" := JsonValues.JStr(id), "status" := JsonValues.JStr(StatusName(s))], true).Ok?
    ensures SetStatus(list, id, StatusName(s), true) == ReservationsApi.ApplyStatus(list, id, s)
  {
    ReservationsApi.AnyStatusAccepted(id, s);
  }

  /** `URLSearchParams` of the listing: `status`, then `date`, each only
      when set. */
  function ListParams(filterStatus: string, filterDate: string): (ps: seq<(string, string)>)
    ensures |ps| == (if filterStatus != "" then 1 else 0) + (if filterDate != "" then 1 else 0)
    ensures forall i :: 0 <= i < |ps| ==> ps[i].1 != ""
  {
    (if filterStatus != "" then [("status", filterStatus)] else [])
      + (if filterDate != "" then [("date", filterDate)] else [])
  }

  /** `searchParams.get(name)`: the first value under that name. */
  function Param(ps: seq<(string, string)>, name: string): (v: Option<string>)
    ensures v.Some? ==> exists i :: 0 <= i < |ps| && ps[i] == (name, v.value)
    ensures v.None? ==> forall i :: 0 <= i < |ps| ==> ps[i].0 != name
  {
    if ps == [] then None
    else if ps[0].0 == name then Some(ps[0].1)
    else Param(ps[1..], name)
  }

  /** The listing shows exactly the rows matching the set filters: an empty
      filter selects everything. */
  lemma ParamsSelect(filterStatus: string, filterDate: string, r: Reservation)
    ensures var ps := ListParams(filterStatus, filterDate);
      (ReservationsApi.Selected(Param(ps, "date"), Param(ps, "status"), r) <==>
       (filterDate == "" || r.date == filterDate) && (filterStatus == "" || r.status == filterStatus))
  {}
}
