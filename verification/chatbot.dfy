/**
 The chat widget of the home page (`Chatbot` in `app/page.tsx`): one turn
 sends the trimmed input with the history so far, shows the assistant's
 reply with its first `[RESERVACION_DATA]…[/RESERVACION_DATA]` block removed,
 and, unless a booking already went through in this session, submits that
 block to the booking route with a synthesized email, time and note.

 The chat route's answer, the JSON parser and the database's verdict on the
 insert are inputs of a turn.
 */
module Chatbot {
  import opened Wrappers
  import opened Text
  import opened JsonValues
  import opened Http
  import ReservationsApi
  import ChatRoute

  const OpenTag := "[RESERVACION_DATA]"
  const CloseTag := "[/RESERVACION_DATA]"

  /** Appended to the domain-less phone to form the booking's email. */
  const ChatEmailDomain := "@chat.obsidian.com"
  const ChatTime := "22:00"
  const ChatNote := "Reservación via chat"

  const SuccessSuffix := "\n\n✅ ¡Tu reservación ha sido registrada exitosamente! Te contactaremos pronto para confirmar."
  const FailureSuffix := "\n\n⚠️ Hubo un problema al registrar tu reservación. Por favor usa el formulario de la página o llámanos."
  const ErrorReply := "Lo siento, hubo un error. Por favor intenta de nuevo o contáctanos directamente."
  const Welcome := "¡Bienvenido a Obsidian Social Club! 🖤 Soy tu asistente virtual. Puedo ayudarte con:\n\n• Reservaciones de mesa\n• Información de próximos DJs\n• Nuestro menú de bebidas\n• Horarios y ubicación\n\n¿En qué puedo ayudarte?"

  datatype Role = User | Assistant

  datatype Message = Message(role: Role, content: string)

  /** The widget's state: the transcript, whether a chat booking succeeded,
      and whether a request is in flight. */
  datatype Session = Session(messages: seq<Message>, reservationMade: bool, busy: bool)

  const InitialSession := Session([Message(Assistant, Welcome)], false, false)

  /** The body of the request to the chat route. */
  datatype ChatRequest = ChatRequest(message: string, history: seq<Message>)

  // ----- Locating the reservation block -----

  /** An opening tag at `i` and a closing tag at `j` after it delimit a block. */
  predicate BlockAt(s: string, i: nat, j: nat) {
    OccursAt(s, OpenTag, i) && i + |OpenTag| <= j && OccursAt(s, CloseTag, j)
  }

  /** A match of `/\[RESERVACION_DATA\]([\s\S]*?)\[\/RESERVACION_DATA\]/`:
      `s[start..end]` is the whole block and `inner` the captured text. */
  datatype Block = Block(start: nat, inner: string, end: nat)

  /** The match a regular expression engine reports: the leftmost opening tag
      that has a closing tag after it, closed by the nearest such tag. */
  function FindBlock(s: string): (r: Option<Block>)
    ensures r.Some? ==>
      var b := r.value;
      && |CloseTag| <= b.end <= |s|
      && BlockAt(s, b.start, b.end - |CloseTag|)
      && b.inner == s[b.start + |OpenTag|..b.end - |CloseTag|]
      && (forall i: nat, j: nat :: i < b.start ==> !BlockAt(s, i, j))
      && (forall j: nat :: j < b.end - |CloseTag| ==> !BlockAt(s, b.start, j))
    ensures r.None? ==> forall i: nat, j: nat :: !BlockAt(s, i, j)
  {
    match IndexOf(s, OpenTag, 0)
    case None => None
    case Some(i) =>
      match IndexOf(s, CloseTag, i + |OpenTag|)
      case None =>
        assert forall i': nat, j: nat :: !BlockAt(s, i', j);
        None
      case Some(j) => Some(Block(i, s[i + |OpenTag|..j], j + |CloseTag|))
  }

  // ----- Submitting the booking -----

  /** The booking body: the parsed block with `email`, `time` and `notes`
      overwritten. */
  function ChatBooking(data: Object): (body: Object)
    ensures Get(body, "email") == Some(JStr(ToJsString(Get(data, "phone")) + ChatEmailDomain))
    ensures Get(body, "time") == Some(JStr(ChatTime))
    ensures Get(body, "notes") == Some(JStr(ChatNote))
    ensures forall k :: k != "email" && k != "time" && k != "notes" ==> Get(body, k) == Get(data, k)
  {
    data["email" := JStr(ToJsString(Get(data, "phone")) + ChatEmailDomain)]
        ["time" := JStr(ChatTime)]
        ["notes" := JStr(ChatNote)]
  }

  /** What handling one assistant reply produces: the text to show, the
      booking body posted (if any) and whether the booking was accepted. */
  datatype Handled = Handled(text: string, posted: Option<Object>, booked: bool)

  /** The reply handling of one turn; `made` is the session flag, `parse`
      stands for `JSON.parse` (returning `None` where it throws or yields no
      object) and `storeOk` for the database's verdict on the insert. */
  function HandleReply(raw: string, made: bool, parse: string -> Option<Object>, storeOk: bool): (h: Handled)
    ensures FindBlock(raw).None? ==> h == Handled(raw, None, false)
    ensures FindBlock(raw).Some? ==>
      var b := FindBlock(raw).value;
      var prose := Trim(raw[..b.start] + raw[b.end..]);
      && (made ==> h == Handled(prose, None, false))
      && (!made && parse(Trim(b.inner)).None? ==> h == Handled(prose + FailureSuffix, None, false))
      && (!made && parse(Trim(b.inner)).Some? ==>
            && h.posted == Some(ChatBooking(parse(Trim(b.inner)).value))
            && h.booked == ReservationsApi.Post(h.posted.value, storeOk).Ok?)
      && (h.booked ==> h.text == prose + SuccessSuffix)
      && (!made && !h.booked ==> h.text == prose + FailureSuffix)
    ensures h.booked ==> !made && h.posted.Some?
  {
    match FindBlock(raw)
    case None => Handled(raw, None, false)
    case Some(b) =>
      var prose := Trim(raw[..b.start] + raw[b.end..]);
      if made then Handled(prose, None, false)
      else
        match parse(Trim(b.inner))
        case None => Handled(prose + FailureSuffix, None, false)
        case Some(data) =>
          var body := ChatBooking(data);
          var ok := ReservationsApi.Post(body, storeOk).Ok?;
          Handled(prose + (if ok then SuccessSuffix else FailureSuffix), Some(body), ok)
  }

  /** An accepted booking is confirmed to the guest: the reply ends with
      the success suffix. */
  lemma BookedReplyEndsWithSuccess(raw: string, made: bool, parse: string -> Option<Object>, storeOk: bool)
    ensures var h := HandleReply(raw, made, parse, storeOk);
      h.booked ==> EndsWith(h.text, SuccessSuffix)
  {
    var h := HandleReply(raw, made, parse, storeOk);
    if h.booked {
      var b := FindBlock(raw).value;
      ConcatEnds(Trim(raw[..b.start] + raw[b.end..]), SuccessSuffix);
    }
  }

  // ----- One turn -----

  /** What a turn did: the new state, the chat request sent (if any), the
      booking body posted (if any) and whether it was accepted. */
  datatype Outcome = Outcome(session: Session, sent: Option<ChatRequest>, posted: Option<Object>, booked: bool)

  /** `sendMessage` with the text in the input box: `reply` is the chat
      route's `response` field, `None` when the request or its decoding
      failed. */
  function Turn(s: Session, input: string, reply: Option<string>, parse: string -> Option<Object>, storeOk: bool): (o: Outcome)
    ensures Trim(input) == "" || s.busy ==> o == Outcome(s, None, None, false)
    ensures Trim(input) != "" && !s.busy ==>
      && o.sent == Some(ChatRequest(Trim(input), s.messages))
      && |o.session.messages| == |s.messages| + 2
      && o.session.messages[..|s.messages| + 1] == s.messages + [Message(User, Trim(input))]
      && o.session.messages[|s.messages| + 1].role == Assistant
      && !o.session.busy
    ensures Trim(input) != "" && !s.busy && reply.None? ==>
      o.session.messages[|s.messages| + 1].content == ErrorReply
    ensures Trim(input) != "" && !s.busy && reply.Some? ==>
      var h := HandleReply(reply.value, s.reservationMade, parse, storeOk);
      && o.session.messages[|s.messages| + 1].content == h.text
      && o.posted == h.posted && o.booked == h.booked
    ensures Trim(input) != "" && !s.busy && o.booked ==>
      EndsWith(o.session.messages[|s.messages| + 1].content, SuccessSuffix)
    ensures o.session.reservationMade == (s.reservationMade || o.booked)
    ensures o.booked ==> !s.reservationMade
    ensures reply.None? ==> !o.booked && o.posted.None?
  {
    var text := Trim(input);
    if text == "" || s.busy then Outcome(s, None, None, false)
    else
      var request := ChatRequest(text, s.messages);
      var withUser := s.messages + [Message(User, text)];
      match reply
      case None =>
        Outcome(Session(withUser + [Message(Assistant, ErrorReply)], s.reservationMade, false), Some(request), None, false)
      case Some(raw) =>
        var h := HandleReply(raw, s.reservationMade, parse, storeOk);
        BookedReplyEndsWithSuccess(raw, s.reservationMade, parse, storeOk);
        Outcome(Session(withUser + [Message(Assistant, h.text)], s.reservationMade || h.booked, false),
                Some(request), h.posted, h.booked)
  }

  /** The text the turn appended as the assistant's message. */
  function LastText(o: Outcome): string
    requires |o.session.messages| > 0
  {
    o.session.messages[|o.session.messages| - 1].content
  }

  /** Once a chat booking went through, later blocks are stripped from the
      display but nothing is submitted and nothing is appended. */
  lemma NoSecondSubmission(s: Session, input: string, raw: string, parse: string -> Option<Object>, storeOk: bool)
    requires s.reservationMade && !s.busy && !AllSpace(input)
    requires FindBlock(raw).Some?
    ensures var o := Turn(s, input, Some(raw), parse, storeOk);
      && o.posted.None? && !o.booked && o.session.reservationMade
      && LastText(o) == Trim(raw[..FindBlock(raw).value.start] + raw[FindBlock(raw).value.end..])
  {}

  /** A failed submission leaves the flag down, so the next block is
      submitted again. */
  lemma FailureAllowsRetry(s: Session, input: string, raw: string, parse: string -> Option<Object>, storeOk: bool)
    requires !s.reservationMade && !s.busy && !AllSpace(input)
    requires FindBlock(raw).Some?
    requires !Turn(s, input, Some(raw), parse, storeOk).booked
    ensures var o := Turn(s, input, Some(raw), parse, storeOk);
      && !o.session.reservationMade
      && EndsWith(LastText(o), FailureSuffix)
  {}

  /** A phone with white space or an `@` makes the synthesized email fail
      the booking route's address check, so such a chat booking is refused
      with status 400. */
  lemma PhoneBreaksChatEmail(data: Object, p: string, storeOk: bool)
    requires Get(data, "phone") == Some(JStr(p))
    requires HasSpace(p) || '@' in p
    ensures ReservationsApi.Post(ChatBooking(data), storeOk).IsBadRequest()
  {
    var body := ChatBooking(data);
    var e := p + ChatEmailDomain;
    assert ToJsString(Get(body, "email")) == e;
    if ReservationsApi.HasRequired(body) {
      assert e[|p|] == '@';
      if HasSpace(p) {
        var i :| 0 <= i < |p| && IsSpace(p[i]);
        assert e[i] == p[i];
      } else {
        var q :| 0 <= q < |p| && p[q] == '@';
        assert e[q] == '@';
        assert !ReservationsApi.EmailAccepted(e);
      }
    }
  }

  /** A digits-only phone passes the address check, so with the other
      required fields present the booking is accepted when the database
      accepts the insert. */
  lemma DigitPhoneAccepted(data: Object, p: string)
    requires Get(data, "phone") == Some(JStr(p)) && p != "" && AllDigits(p)
    requires Truthy(Get(data, "name")) && Truthy(Get(data, "date"))
    ensures ReservationsApi.Post(ChatBooking(data), true).Ok?
  {
    var body := ChatBooking(data);
    assert ToJsString(Get(body, "email")) == p + ChatEmailDomain;
    DigitEmailAccepted(p);
    assert ReservationsApi.HasRequired(body);
  }

  lemma DigitEmailAccepted(p: string)
    requires p != "" && AllDigits(p)
    ensures ReservationsApi.EmailAccepted(p + ChatEmailDomain)
  {
    var e := p + ChatEmailDomain;
    var k := |p|;
    assert e[k] == '@' && e[k + 5] == '.';
    assert forall i :: 0 <= i < |e| && i != k ==> e[i] != '@' by {
      forall i | 0 <= i < |e| && i != k ensures e[i] != '@' {
        if i < k { assert e[i] == p[i]; } else { assert e[i] == ChatEmailDomain[i - k]; }
      }
    }
    assert forall i :: 0 <= i < |e| ==> !IsSpace(e[i]) by {
      forall i | 0 <= i < |e| ensures !IsSpace(e[i]) {
        if i < k { assert e[i] == p[i]; } else { assert e[i] == ChatEmailDomain[i - k]; }
      }
    }
  }

  // ----- What the model sees -----

  function RoleName(r: Role): string {
    match r
    case User => "user"
    case Assistant => "assistant"
  }

  /** The transcript as the request body carries it. */
  function Wire(ms: seq<Message>): (r: seq<ChatRoute.WireMessage>)
    ensures |r| == |ms|
    ensures forall i :: 0 <= i < |ms| ==> r[i] == ChatRoute.WireMessage(RoleName(ms[i].role), ms[i].content)
  {
    seq(|ms|, i requires 0 <= i < |ms| => ChatRoute.WireMessage(RoleName(ms[i].role), ms[i].content))
  }

  /** The chat route's history filter drops nothing the widget sends, so the
      model receives the system prompt, the whole transcript before this
      turn (welcome message included) and the trimmed input. */
  lemma ModelSeesTranscript(s: Session, input: string, reply: Option<string>,
                            parse: string -> Option<Object>, storeOk: bool, prompt: string)
    requires !s.busy && !AllSpace(input)
    ensures var req := Turn(s, input, reply, parse, storeOk).sent.value;
      ChatRoute.ModelMessages(prompt, Wire(req.history), req.message)
        == [ChatRoute.WireMessage("system", prompt)] + Wire(s.messages) + [ChatRoute.WireMessage("user", Trim(input))]
  {
    var w := Wire(s.messages);
    ChatRoute.ConversationalHistoryKept(w);
    var m := ChatRoute.ModelMessages(prompt, w, Trim(input));
    assert m == [m[0]] + m[1..|m| - 1] + [m[|m| - 1]];
  }

  // ----- A whole session -----

  /** One user action: the text typed, the chat route's answer and the
      database's verdict on any insert. */
  datatype Exchange = Exchange(input: string, reply: Option<string>, storeOk: bool)

  /** The state after a series of turns and the number of accepted chat
      bookings among them. */
  function Run(s: Session, xs: seq<Exchange>, parse: string -> Option<Object>): (Session, nat)
    decreases |xs|
  {
    if xs == [] then (s, 0)
    else
      var o := Turn(s, xs[0].input, xs[0].reply, parse, xs[0].storeOk);
      var rest := Run(o.session, xs[1..], parse);
      (rest.0, rest.1 + if o.booked then 1 else 0)
  }

  /** At most one chat booking is accepted per session, none once one was,
      and the flag is up after one was. */
  lemma {:induction false} AtMostOneBooking(s: Session, xs: seq<Exchange>, parse: string -> Option<Object>)
    ensures Run(s, xs, parse).1 <= if s.reservationMade then 0 else 1
    ensures s.reservationMade ==> Run(s, xs, parse).0.reservationMade
    ensures Run(s, xs, parse).1 == 1 ==> Run(s, xs, parse).0.reservationMade
    decreases |xs|
  {
    if xs != [] {
      var o := Turn(s, xs[0].input, xs[0].reply, parse, xs[0].storeOk);
      AtMostOneBooking(o.session, xs[1..], parse);
    }
  }
}
