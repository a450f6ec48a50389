/**
 Comma-separated text as the reservations export writes it, and a reader
 following section 2 of RFC 4180: fields separated by `,`, a field either
 plain (no `,`, `"` or line break) or enclosed in `"` with inner quotes
 doubled. Records are separated by a line feed alone, as the export writes
 them, where the RFC has CRLF.
 */
module Csv {
  import opened Wrappers
  import opened Text
  import opened JsonValues

  /** Every `"` doubled. */
  function DoubleQuotes(s: string): (r: string)
    ensures |r| >= |s|
  {
    if s == [] then ""
    else (if s[0] == '"' then "\"\"" else [s[0]]) + DoubleQuotes(s[1..])
  }

  /** `"` + text with quotes doubled + `"`. */
  function QuoteCell(s: string): string {
    "\"" + DoubleQuotes(s) + "\""
  }

  /** A cell that can be written without quotes. */
  predicate PlainCell(s: string) {
    forall i :: 0 <= i < |s| ==> s[i] != ',' && s[i] != '"' && s[i] != '\n'
  }

  /** What may follow a field: the end of the text, a comma or a line feed. */
  predicate Delimited(rest: string) {
    rest == [] || rest[0] == ',' || rest[0] == '\n'
  }

  // ----- Reader -----

  /** The rest of a quoted field after its opening quote: `""` stands for
      one quote, a lone `"` closes the field. */
  function ReadQuoted(s: string): (r: Option<(string, string)>)
    ensures r.Some? ==> |r.value.1| < |s|
  {
    if s == [] then None
    else if s[0] == '"' then
      if |s| >= 2 && s[1] == '"' then Prepend('"', ReadQuoted(s[2..]))
      else Some(("", s[1..]))
    else Prepend(s[0], ReadQuoted(s[1..]))
  }

  /** A plain field: everything up to the next comma or line feed; a quote
      inside it is malformed. */
  function ReadPlain(s: string): (r: Option<(string, string)>)
    ensures r.Some? ==> |r.value.1| <= |s|
  {
    if s == [] || s[0] == ',' || s[0] == '\n' then Some(("", s))
    else if s[0] == '"' then None
    else Prepend(s[0], ReadPlain(s[1..]))
  }

  /** One field and what follows it. */
  function ReadField(s: string): (r: Option<(string, string)>)
    ensures r.Some? ==> |r.value.1| <= |s|
  {
    if s != [] && s[0] == '"' then ReadQuoted(s[1..]) else ReadPlain(s)
  }

  /** One record: fields up to a line feed (left in the rest) or the end. */
  function ReadRecord(s: string): (r: Option<(seq<string>, string)>)
    ensures r.Some? ==> |r.value.1| <= |s|
    decreases |s|
  {
    match ReadField(s)
    case None => None
    case Some((f, rest)) =>
      if rest == [] || rest[0] == '\n' then Some(([f], rest))
      else if rest[0] != ',' then None
      else
        match ReadRecord(rest[1..])
        case None => None
        case Some((fs, after)) => Some(([f] + fs, after))
  }

  /** Records separated by line feeds, up to the end of the text. */
  function ReadRecords(s: string): Option<seq<seq<string>>>
    decreases |s|
  {
    match ReadRecord(s)
    case None => None
    case Some((fields, rest)) =>
      if rest == [] then Some([fields])
      else
        match ReadRecords(rest[1..])
        case None => None
        case Some(more) => Some([fields] + more)
  }

  // ----- Round trips -----

  /** `e` is read back as the field `c`, whatever delimiter follows. */
  ghost predicate Encodes(e: string, c: string) {
    forall rest :: Delimited(rest) ==> ReadField(e + rest) == Some((c, rest))
  }

  lemma {:induction false} ReadDoubled(c: string, rest: string)
    requires rest == [] || rest[0] != '"'
    ensures ReadQuoted(DoubleQuotes(c) + "\"" + rest) == Some((c, rest))
  {
    var s := DoubleQuotes(c) + "\"" + rest;
    if c == [] {
      assert s == "\"" + rest;
      assert s[1..] == rest;
    } else {
      ReadDoubled(c[1..], rest);
      var t := DoubleQuotes(c[1..]) + "\"" + rest;
      if c[0] == '"' {
        assert s == "\"\"" + t;
        assert s[2..] == t;
      } else {
        assert s == [c[0]] + t;
        assert s[1..] == t;
      }
      assert [c[0]] + c[1..] == c;
    }
  }

  /** A quoted cell is read back exactly, whatever it contains. */
  lemma QuotedEncodes(c: string)
    ensures Encodes(QuoteCell(c), c)
  {
    forall rest | Delimited(rest) ensures ReadField(QuoteCell(c) + rest) == Some((c, rest)) {
      ReadDoubled(c, rest);
      assert (QuoteCell(c) + rest)[1..] == DoubleQuotes(c) + "\"" + rest;
    }
  }

  lemma {:induction false} ReadPlainCell(c: string, rest: string)
    requires PlainCell(c) && Delimited(rest)
    ensures ReadPlain(c + rest) == Some((c, rest))
  {
    if c == [] {
      assert c + rest == rest;
    } else {
      ReadPlainCell(c[1..], rest);
      assert (c + rest)[1..] == c[1..] + rest;
      assert [c[0]] + c[1..] == c;
    }
  }

  /** A non-empty plain cell is read back as it is. */
  lemma PlainEncodes(c: string)
    requires PlainCell(c) && c != []
    ensures Encodes(c, c)
  {
    forall rest | Delimited(rest) ensures ReadField(c + rest) == Some((c, rest)) {
      ReadPlainCell(c, rest);
    }
  }

  /** A line of encoded fields joined by commas is read back as the record,
      up to the line feed or end that follows it. */
  lemma {:induction false} ReadLine(es: seq<string>, cells: seq<string>, tail: string)
    requires |es| == |cells| >= 1
    requires forall i :: 0 <= i < |es| ==> Encodes(es[i], cells[i])
    requires tail == [] || tail[0] == '\n'
    ensures ReadRecord(Join(es, ",") + tail) == Some((cells, tail))
  {
    if |es| == 1 {
      assert Encodes(es[0], cells[0]);
      assert ReadField(es[0] + tail) == Some((cells[0], tail));
      assert [cells[0]] == cells;
    } else {
      var rest := Join(es[1..], ",") + tail;
      ReadLine(es[1..], cells[1..], tail);
      assert Join(es, ",") + tail == es[0] + ("," + rest);
      assert Encodes(es[0], cells[0]);
      assert ReadField(es[0] + ("," + rest)) == Some((cells[0], "," + rest));
      assert ("," + rest)[1..] == rest;
      assert [cells[0]] + cells[1..] == cells;
    }
  }

  /** `s` is read back as the single record `rec`, whatever line follows. */
  ghost predicate LineEncodes(s: string, rec: seq<string>) {
    forall tail :: tail == [] || tail[0] == '\n' ==> ReadRecord(s + tail) == Some((rec, tail))
  }

  lemma LineOfEncodedFields(es: seq<string>, cells: seq<string>)
    requires |es| == |cells| >= 1
    requires forall i :: 0 <= i < |es| ==> Encodes(es[i], cells[i])
    ensures LineEncodes(Join(es, ","), cells)
  {
    forall tail | tail == [] || tail[0] == '\n' ensures ReadRecord(Join(es, ",") + tail) == Some((cells, tail)) {
      ReadLine(es, cells, tail);
    }
  }

  /** Lines joined by line feeds are read back as their records. */
  lemma {:induction false} ReadLines(lines: seq<string>, recs: seq<seq<string>>)
    requires |lines| == |recs| >= 1
    requires forall i :: 0 <= i < |lines| ==> LineEncodes(lines[i], recs[i])
    ensures ReadRecords(Join(lines, "\n")) == Some(recs)
  {
    assert LineEncodes(lines[0], recs[0]);
    if |lines| == 1 {
      assert ReadRecord(lines[0] + "") == Some((recs[0], ""));
      assert lines[0] + "" == lines[0];
      assert [recs[0]] == recs;
    } else {
      var rest := Join(lines[1..], "\n");
      ReadLines(lines[1..], recs[1..]);
      assert Join(lines, "\n") == lines[0] + ("\n" + rest);
      assert ReadRecord(lines[0] + ("\n" + rest)) == Some((recs[0], "\n" + rest));
      assert ("\n" + rest)[1..] == rest;
      assert [recs[0]] + recs[1..] == recs;
    }
  }
}
