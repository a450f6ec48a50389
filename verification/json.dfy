/**
 JavaScript values as they arrive in JSON request bodies, with the three
 language rules the routes lean on: truthiness (what `!x` and `x || d` test),
 `String(x)` (what string concatenation and `RegExp.test` apply), and
 `JSON.stringify` on strings and on flat objects of strings, together with a
 decoder for the latter.
 */
module JsonValues {
  import opened Wrappers
  import opened Text

  /** A JSON value. Numbers are integral: fractional numbers are not modelled. */
  datatype Json =
    | JNull
    | JBool(b: bool)
    | JNum(n: int)
    | JStr(s: string)
    | JArr(elems: seq<Json>)
    | JObj(fields: map<string, Json>)

  /** A parsed JSON object, such as a request body. */
  type Object = map<string, Json>

  /** Property read: `None` stands for `undefined`. */
  function Get(o: Object, key: string): (r: Option<Json>)
    ensures r.Some? <==> key in o
    ensures r.Some? ==> r.value == o[key]
  {
    if key in o then Some(o[key]) else None
  }

  /** JavaScript truthiness; `undefined`, `null`, `false`, `0` and `""` are
      the falsy values a JSON body can hold. */
  predicate Truthy(v: Option<Json>) {
    match v
    case None => false
    case Some(JNull) => false
    case Some(JBool(b)) => b
    case Some(JNum(n)) => n != 0
    case Some(JStr(s)) => s != ""
    case Some(JArr(_)) => true
    case Some(JObj(_)) => true
  }

  /** `v || d`. */
  function Or(v: Option<Json>, d: Json): (r: Json)
    ensures Truthy(v) ==> Some(r) == v
    ensures !Truthy(v) ==> r == d
  {
    if Truthy(v) then v.value else d
  }

  /** `const { key, ...rest } = o`: every property except `key`. */
  function Rest(o: Object, key: string): (r: Object)
    ensures Get(r, key).None?
    ensures forall k :: k != key ==> Get(r, k) == Get(o, k)
  {
    o - {key}
  }

  /** `String(v)`, as applied by `+` with a string operand and by
      `RegExp.prototype.test`. Arrays render their elements joined by `,`,
      with `null` elements rendered empty. */
  function ToJsString(v: Option<Json>): string {
    match v
    case None => "undefined"
    case Some(j) => JsonToJsString(j)
  }

  function JsonToJsString(j: Json): string
    decreases j, 1
  {
    match j
    case JNull => "null"
    case JBool(b) => if b then "true" else "false"
    case JNum(n) => IntToString(n)
    case JStr(s) => s
    case JArr(es) => JoinElements(j, es)
    case JObj(_) => "[object Object]"
  }

  function JoinElements(ghost parent: Json, es: seq<Json>): string
    requires forall i :: 0 <= i < |es| ==> es[i] < parent
    decreases parent, 0, |es|
  {
    if es == [] then ""
    else
      var first := if es[0] == JNull then "" else JsonToJsString(es[0]);
      if |es| == 1 then first else first + "," + JoinElements(parent, es[1..])
  }

  lemma StringOfString(s: string)
    ensures ToJsString(Some(JStr(s))) == s
  {}

  // ----- JSON.stringify on strings -----

  function HexDigit(d: nat): (c: char)
    requires d < 16
  {
    if d < 10 then DigitChar(d) else (87 + d) as char
  }

  function HexValue(c: char): Option<nat> {
    if '0' <= c <= '9' then Some(c as int - 48)
    else if 'a' <= c <= 'f' then Some(c as int - 87)
    else if 'A' <= c <= 'F' then Some(c as int - 55)
    else None
  }

  /** How `JSON.stringify` writes one character inside a string literal. */
  function EscapeChar(c: char): (r: string)
    ensures |r| >= 1
  {
    if c == '"' then "\\\""
    else if c == '\\' then "\\\\"
    else if c == '\U{0008}' then "\\b"
    else if c == '\U{000C}' then "\\f"
    else if c == '\n' then "\\n"
    else if c == '\r' then "\\r"
    else if c == '\t' then "\\t"
    else if c < ' ' then "\\u00" + [HexDigit(c as int / 16), HexDigit(c as int % 16)]
    else [c]
  }

  function Escape(s: string): string {
    if s == [] then "" else EscapeChar(s[0]) + Escape(s[1..])
  }

  /** `JSON.stringify(s)` for a string `s`. */
  function Quote(s: string): string {
    "\"" + Escape(s) + "\""
  }

  /** Reads the rest of a JSON string literal after its opening quote,
      returning the decoded text and what follows the closing quote. Raw
      control characters and unknown escapes are rejected, as JSON requires. */
  function DecodeBody(s: string): (r: Option<(string, string)>)
    ensures r.Some? ==> |r.value.1| < |s|
    decreases |s|
  {
    if s == [] then None
    else if s[0] == '"' then Some(("", s[1..]))
    else if s[0] < ' ' then None
    else if s[0] != '\\' then Prepend(s[0], DecodeBody(s[1..]))
    else if |s| < 2 then None
    else if s[1] == 'u' then
      if |s| < 6 then None
      else match (HexValue(s[2]), HexValue(s[3]), HexValue(s[4]), HexValue(s[5]))
        case (Some(a), Some(b), Some(c), Some(d)) =>
          var code := ((a * 16 + b) * 16 + c) * 16 + d;
          if 0xD800 <= code < 0xE000 then None
          else Prepend(code as char, DecodeBody(s[6..]))
        case _ => None
    else
      var e := s[1];
      var c :=
        if e == 'b' then Some('\U{0008}')
        else if e == 'f' then Some('\U{000C}')
        else if e == 'n' then Some('\n')
        else if e == 'r' then Some('\r')
        else if e == 't' then Some('\t')
        else if e == '"' || e == '\\' || e == '/' then Some(e)
        else None;
      if c.None? then None else Prepend(c.value, DecodeBody(s[2..]))
  }

  function Prepend(c: char, r: Option<(string, string)>): (r': Option<(string, string)>)
    ensures r.Some? <==> r'.Some?
    ensures r.Some? ==> r'.value == ([c] + r.value.0, r.value.1)
  {
    match r
    case None => None
    case Some((v, rest)) => Some(([c] + v, rest))
  }

  /** Reads one JSON string literal at the start of `s`. */
  function DecodeString(s: string): (r: Option<(string, string)>)
    ensures r.Some? ==> |r.value.1| < |s|
  {
    if s == [] || s[0] != '"' then None else DecodeBody(s[1..])
  }

  lemma DecodeEscapedChar(c: char, t: string)
    ensures DecodeBody(EscapeChar(c) + t) == Prepend(c, DecodeBody(t))
  {
    var u := EscapeChar(c) + t;
    if ' ' <= c && c != '"' && c != '\\' {
      assert u == [c] + t && u[1..] == t;
    } else if c < ' ' && c != '\U{0008}' && c != '\U{000C}' && c != '\n' && c != '\r' && c != '\t' {
      var hi, lo := c as int / 16, c as int % 16;
      assert hi == 0 || hi == 1;
      assert u[2] == '0' && u[3] == '0' && u[4] == HexDigit(hi) && u[5] == HexDigit(lo);
      assert HexValue(HexDigit(hi)) == Some(hi);
      assert HexValue(HexDigit(lo)) == Some(lo);
      assert u[6..] == t;
    } else {
      assert u[2..] == t;
    }
  }

  /** Decoding inverts `JSON.stringify` on strings: the decoder recovers the
      exact text and leaves what follows untouched. */
  lemma {:induction false} DecodeQuote(s: string, rest: string)
    ensures DecodeString(Quote(s) + rest) == Some((s, rest))
  {
    assert (Quote(s) + rest)[1..] == Escape(s) + "\"" + rest;
    DecodeEscaped(s, rest);
  }

  lemma {:induction false} DecodeEscaped(s: string, rest: string)
    ensures DecodeBody(Escape(s) + "\"" + rest) == Some((s, rest))
  {
    if s == [] {
      assert Escape(s) + "\"" + rest == "\"" + rest;
    } else {
      assert Escape(s) + "\"" + rest == EscapeChar(s[0]) + (Escape(s[1..]) + "\"" + rest);
      DecodeEscapedChar(s[0], Escape(s[1..]) + "\"" + rest);
      DecodeEscaped(s[1..], rest);
      assert [s[0]] + s[1..] == s;
    }
  }

  // ----- JSON.stringify on flat objects of strings -----

  function Member(key: string, value: string): string {
    Quote(key) + ":" + Quote(value)
  }

  function Members(pairs: seq<(string, string)>): string {
    if pairs == [] then ""
    else if |pairs| == 1 then Member(pairs[0].0, pairs[0].1)
    else Member(pairs[0].0, pairs[0].1) + "," + Members(pairs[1..])
  }

  /** `JSON.stringify` of an object whose properties, in insertion order, are
      `pairs` and whose values are all strings. */
  function StringifyObject(pairs: seq<(string, string)>): string {
    "{" + Members(pairs) + "}"
  }

  /** Reads one `"key":"value"` member, returning it and what follows. */
  function ParseMember(s: string): (r: Option<((string, string), string)>)
    ensures r.Some? ==> |r.value.1| < |s|
  {
    match DecodeString(s)
    case None => None
    case Some((k, afterKey)) =>
      if afterKey == [] || afterKey[0] != ':' then None
      else
        match DecodeString(afterKey[1..])
        case None => None
        case Some((v, afterValue)) => Some(((k, v), afterValue))
  }

  /** Reads members separated by `,` up to the closing `}`. */
  function ParseMembers(s: string): (r: Option<seq<(string, string)>>)
    decreases |s|
  {
    match ParseMember(s)
    case None => None
    case Some((m, rest)) =>
      if rest == "}" then Some([m])
      else if rest == [] || rest[0] != ',' then None
      else
        match ParseMembers(rest[1..])
        case None => None
        case Some(more) => Some([m] + more)
  }

  /** Reads a flat JSON object of string values, as `JSON.stringify` writes
      it (no white space). */
  function ParseObject(s: string): Option<seq<(string, string)>> {
    if s == "{}" then Some([])
    else if s == [] || s[0] != '{' then None
    else ParseMembers(s[1..])
  }

  /** One member is read back, whatever follows it. */
  lemma ParseOneMember(k: string, v: string, tail: string)
    ensures ParseMember(Member(k, v) + tail) == Some(((k, v), tail))
  {
    var afterKey := ":" + (Quote(v) + tail);
    assert DecodeString(Member(k, v) + tail) == Some((k, afterKey)) by {
      assert Member(k, v) + tail == Quote(k) + afterKey;
      DecodeQuote(k, afterKey);
    }
    assert DecodeString(afterKey[1..]) == Some((v, tail)) by {
      assert afterKey[1..] == Quote(v) + tail;
      DecodeQuote(v, tail);
    }
    assert afterKey != [] && afterKey[0] == ':';
    ParseMemberOf(Member(k, v) + tail, k, afterKey, v, tail);
  }

  lemma ParseMemberOf(s: string, k: string, afterKey: string, v: string, tail: string)
    requires DecodeString(s) == Some((k, afterKey)) && afterKey != [] && afterKey[0] == ':'
    requires DecodeString(afterKey[1..]) == Some((v, tail))
    ensures ParseMember(s) == Some(((k, v), tail))
  {
  }

  /** Reading members: a member followed by `}` ends the list, a member
      followed by `,` continues it. */
  lemma ParseMembersStep(k: string, v: string, rest: string)
    ensures ParseMembers(Member(k, v) + "}") == Some([(k, v)])
    ensures ParseMembers(rest) != None ==>
      ParseMembers(Member(k, v) + "," + rest) == Some([(k, v)] + ParseMembers(rest).value)
  {
    ParseOneMember(k, v, "}");
    ParseOneMember(k, v, "," + rest);
    assert Member(k, v) + "," + rest == Member(k, v) + ("," + rest);
    assert ("," + rest)[1..] == rest;
  }

  lemma {:induction false} ParseMembersRoundTrip(pairs: seq<(string, string)>)
    requires pairs != []
    ensures ParseMembers(Members(pairs) + "}") == Some(pairs)
  {
    var k, v := pairs[0].0, pairs[0].1;
    ParseMembersStep(k, v, Members(pairs[1..]) + "}");
    if |pairs| == 1 {
      assert [(k, v)] == pairs;
    } else {
      ParseMembersRoundTrip(pairs[1..]);
      assert Members(pairs) + "}" == Member(k, v) + "," + (Members(pairs[1..]) + "}");
      assert [(k, v)] + pairs[1..] == pairs;
    }
  }

  /** The object decoder recovers the properties `StringifyObject` wrote, in
      order. */
  lemma ParseStringifyObject(pairs: seq<(string, string)>)
    ensures ParseObject(StringifyObject(pairs)) == Some(pairs)
  {
    if pairs != [] {
      var m := Members(pairs) + "}";
      assert m[0] == '"' by {
        assert Members(pairs)[0] == Quote(pairs[0].0)[0];
      }
      ParseMembersRoundTrip(pairs);
      ParseObjectOf(StringifyObject(pairs), m);
    }
  }

  lemma ParseObjectOf(s: string, m: string)
    requires s == "{" + m && m != [] && m[0] == '"'
    ensures ParseObject(s) == ParseMembers(m)
  {
    assert s[1] == '"';
    assert s[1..] == m;
  }
}
