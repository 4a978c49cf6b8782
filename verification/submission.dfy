/**
 The form controller: the submission payload, the outcome of the create call as a
 pure transition on the form state, the daily-assignment step, and the invariants the
 two handlers keep between user events. A network call is replaced by the reply it
 produced, given as an input.
 */
module Submission {
  import opened Wrappers
  import Paragraphs
  import opened QuestionEditor
  import QuestionList

  /** The content item sent to the create endpoint. */
  datatype Payload = Payload(title: string, paragraph: seq<string>, questions: seq<Question>, date: string)

  /** The body sent to the daily endpoint. */
  datatype DailyPayload = DailyPayload(list: seq<string>, date: string)

  /**
   What `response.json()` gave: the two fields the handlers read, or the error thrown
   while reading the body. A body that is not JSON throws a parse error; a `null` body
   throws a `TypeError` when `.message` or `._id` is read; both are `Unparsable`.
   */
  datatype Json = Parsed(message: Option<string>, id: Option<string>) | Unparsable(error: string)

  /** What `fetch` gave: a response, or the rejection's error message. */
  datatype Reply = Response(ok: bool, status: nat, json: Json) | Rejected(error: string)

  /** `submissionStatus`: `''`, `'pending'`, `'success'` or `'error'`. */
  datatype Status = NotSubmitted | Pending | Success | Error

  /** What the JSON preview pane shows; the JSON text itself is left abstract. */
  datatype Preview =
    | NoPreview
    | PayloadPreview(payload: Payload)
    | MissingIdNotice
    | FailureReport(message: string, payload: Payload)

  /** The component state of the form controller. */
  datatype Form = Form(
    title: string,
    paragraphInput: string,
    date: string,
    questions: seq<Question>,
    preview: Preview,
    isLoading: bool,
    status: Status,
    showDailyModal: bool,
    latestEditorialId: Option<string>,
    dailyDate: string,
    isDailyPosting: bool)

  const HttpPrefix: string := "HTTP error! Status: "
  const DailyPrefix: string := "Daily post failed! Status: "

  /** JavaScript truthiness of an optional string field. */
  predicate Truthy(v: Option<string>) {
    v.Some? && v.value != ""
  }

  function DigitChar(d: nat): char
    requires d < 10
  {
    "0123456789"[d]
  }

  /** The value of a string of decimal digits (reference reading of `DecimalString`). */
  function DecimalValue(s: string): nat
    requires forall k :: 0 <= k < |s| ==> '0' <= s[k] <= '9'
  {
    if |s| == 0 then 0
    else 10 * DecimalValue(s[..|s| - 1]) + (s[|s| - 1] as int - '0' as int)
  }

  /** `${n}` for a status code: its decimal digits, without leading zeros. */
  function DecimalString(n: nat): (r: string)
    ensures |r| >= 1
    ensures forall k :: 0 <= k < |r| ==> '0' <= r[k] <= '9'
    ensures DecimalValue(r) == n
    ensures r[0] == '0' ==> r == "0"
  {
    if n < 10 then [DigitChar(n)]
    else
      var prefix := DecimalString(n / 10);
      var r := prefix + [DigitChar(n % 10)];
      assert r[..|r| - 1] == prefix;
      r
  }

  /**
   The message of the error the handler throws for a reply it cannot use: the rejection
   or parse error as it is, otherwise the body's `message` when truthy, otherwise the
   fallback prefix followed by the status code.
   */
  function ThrownMessage(reply: Reply, fallbackPrefix: string): (m: string)
    ensures reply.Rejected? ==> m == reply.error
    ensures reply.Response? && reply.json.Unparsable? ==> m == reply.json.error
    ensures reply.Response? && reply.json.Parsed? && Truthy(reply.json.message) ==> m == reply.json.message.value
    ensures reply.Response? && reply.json.Parsed? && !Truthy(reply.json.message) ==>
      m == fallbackPrefix + DecimalString(reply.status)
  {
    match reply
    case Rejected(e) => e
    case Response(_, status, json) =>
      match json
      case Unparsable(e) => e
      case Parsed(message, _) => StringOr(message, fallbackPrefix + DecimalString(status))
  }

  /** The three ways the create call ends. */
  datatype CreateOutcome = Created(id: string) | CreatedWithoutId | CreateFailed(message: string)

  /**
   The create call: created with an identifier exactly for an ok, readable reply with a
   truthy `_id`; created without one for an ok, readable reply without it; failed otherwise.
   */
  function ClassifyCreate(reply: Reply): (o: CreateOutcome)
    ensures o.Created? <==> reply.Response? && reply.ok && reply.json.Parsed? && Truthy(reply.json.id)
    ensures o.Created? ==> o.id != "" && reply.json.id == Some(o.id)
    ensures o.CreatedWithoutId? <==> reply.Response? && reply.ok && reply.json.Parsed? && !Truthy(reply.json.id)
    ensures o.CreateFailed? ==> o.message == ThrownMessage(reply, HttpPrefix)
  {
    match reply
    case Rejected(e) => CreateFailed(e)
    case Response(ok, _, json) =>
      if !ok then CreateFailed(ThrownMessage(reply, HttpPrefix))
      else
        match json
        case Unparsable(e) => CreateFailed(e)
        case Parsed(_, id) => if Truthy(id) then Created(id.value) else CreatedWithoutId
  }

  /**
   The payload assembled from the form: title, questions and date passed through as they
   are, and the paragraph text normalised into non-empty trimmed lines.
   */
  function MakePayload(f: Form): (p: Payload)
    ensures p.title == f.title && p.questions == f.questions && p.date == f.date
    ensures p.paragraph == Paragraphs.Normalise(f.paragraphInput)
    ensures forall k :: 0 <= k < |p.paragraph| ==> p.paragraph[k] != [] && Paragraphs.IsTrimmed(p.paragraph[k])
    ensures |p.paragraph| <= Paragraphs.CountNewlines(f.paragraphInput) + 1
  {
    Payload(f.title, Paragraphs.Normalise(f.paragraphInput), f.questions, f.date)
  }

  /** The synchronous start of `handleSubmit`: pending, loading, and the payload previewed. */
  function BeginSubmit(f: Form): (g: Form)
    ensures g.status == Pending && g.isLoading
    ensures g.preview == PayloadPreview(MakePayload(f))
    ensures g.(status := f.status, isLoading := f.isLoading, preview := f.preview) == f
  {
    f.(status := Pending, isLoading := true, preview := PayloadPreview(MakePayload(f)))
  }

  /** The end of `handleSubmit` once the create call has produced `reply`. */
  function Settle(g: Form, payload: Payload, reply: Reply): Form {
    var settled :=
      match ClassifyCreate(reply)
      case Created(id) => g.(latestEditorialId := Some(id), showDailyModal := true, status := Success)
      case CreatedWithoutId => g.(status := Error, preview := MissingIdNotice)
      case CreateFailed(message) => g.(status := Error, preview := FailureReport(message, payload));
    settled.(isLoading := false)
  }

  /**
   `handleSubmit` from start to finish. Loading is always over afterwards. Success, with
   the returned identifier recorded and the daily prompt opened, happens exactly for an
   ok reply whose body has a truthy `_id`; every other reply is an error that leaves the
   identifier and the prompt as they were. The form's own fields never change.
   */
  function Submit(f: Form, reply: Reply): (g: Form)
    ensures !g.isLoading
    ensures g.status == Success || g.status == Error
    ensures g.status == Success <==> reply.Response? && reply.ok && reply.json.Parsed? && Truthy(reply.json.id)
    ensures g.status == Success ==>
      g.latestEditorialId == reply.json.id && g.showDailyModal && g.preview == PayloadPreview(MakePayload(f))
    ensures g.status == Error ==>
      g.latestEditorialId == f.latestEditorialId && g.showDailyModal == f.showDailyModal
    ensures reply.Response? && reply.ok && reply.json.Parsed? && !Truthy(reply.json.id) ==>
      g.preview == MissingIdNotice
    ensures reply.Response? && !reply.ok && reply.json.Parsed? ==>
      g.preview == FailureReport(
        if Truthy(reply.json.message) then reply.json.message.value else HttpPrefix + DecimalString(reply.status),
        MakePayload(f))
    ensures reply.Rejected? ==> g.preview == FailureReport(reply.error, MakePayload(f))
    ensures reply.Response? && reply.json.Unparsable? ==> g.preview == FailureReport(reply.json.error, MakePayload(f))
    ensures g.title == f.title && g.paragraphInput == f.paragraphInput && g.date == f.date
    ensures g.questions == f.questions && g.dailyDate == f.dailyDate && g.isDailyPosting == f.isDailyPosting
  {
    Settle(BeginSubmit(f), MakePayload(f), reply)
  }

  /** The alert shown after the daily call. */
  datatype Notice = PostedNotice(id: string, date: string) | FailedNotice(message: string)

  /** The state after `handleDailySubmit`, the body it sent, and the alert it raised. */
  datatype DailyResult = DailyResult(form: Form, sent: Option<DailyPayload>, notice: Option<Notice>)

  /**
   `handleDailySubmit`. Without a truthy identifier or a date nothing happens and nothing
   is sent. Otherwise `{ list: [id], date }` is sent, posting is over afterwards, and the
   prompt closes only when the reply is ok; nothing else changes.
   */
  function ConfirmDaily(f: Form, reply: Reply): (o: DailyResult)
    ensures !Truthy(f.latestEditorialId) || f.dailyDate == "" ==> o == DailyResult(f, None, None)
    ensures Truthy(f.latestEditorialId) && f.dailyDate != "" ==>
      && o.sent == Some(DailyPayload([f.latestEditorialId.value], f.dailyDate))
      && !o.form.isDailyPosting
      && (o.form.showDailyModal <==> f.showDailyModal && !(reply.Response? && reply.ok))
      && (reply.Response? && reply.ok ==> o.notice == Some(PostedNotice(f.latestEditorialId.value, f.dailyDate)))
      && (!(reply.Response? && reply.ok) ==> o.notice == Some(FailedNotice(ThrownMessage(reply, DailyPrefix))))
    ensures o.form.(showDailyModal := f.showDailyModal, isDailyPosting := f.isDailyPosting) == f
  {
    if !Truthy(f.latestEditorialId) || f.dailyDate == "" then
      DailyResult(f, None, None)
    else
      var id := f.latestEditorialId.value;
      var payload := DailyPayload([id], f.dailyDate);
      if reply.Response? && reply.ok then
        DailyResult(f.(showDailyModal := false, isDailyPosting := false), Some(payload), Some(PostedNotice(id, f.dailyDate)))
      else
        DailyResult(f.(isDailyPosting := false), Some(payload), Some(FailedNotice(ThrownMessage(reply, DailyPrefix))))
  }

  /** The state the form opens with; `today` is the clock's date. */
  function Initial(today: string): Form {
    Form("", "", today, [], NoPreview, false, NotSubmitted, false, None, today, false)
  }

  /** One user event on the form, with the reply of the network call it makes. */
  datatype Event =
    | TypeTitle(text: string)
    | TypeParagraphs(text: string)
    | PickDate(date: string)
    | PressAddQuestion
    | ReportQuestion(index: int, question: Question)
    | PressDeleteQuestion(index: int)
    | SubmitForm(reply: Reply)
    | PickDailyDate(date: string)
    | CancelDaily
    | ConfirmDailyPost(reply: Reply)

  /**
   The browser submits the form only when both required fields, the title and the
   paragraph text, are non-empty, and the submit button is disabled while loading.
   */
  predicate CanSubmit(f: Form) {
    f.title != "" && f.paragraphInput != "" && !f.isLoading
  }

  /** The prompt's two buttons exist only while it is open and are disabled while posting. */
  predicate PromptButtonsEnabled(f: Form) {
    f.showDailyModal && !f.isDailyPosting
  }

  /** One event; an event whose control is absent or disabled does nothing. */
  function Step(f: Form, e: Event): Form {
    match e
    case TypeTitle(text) => f.(title := text)
    case TypeParagraphs(text) => f.(paragraphInput := text)
    case PickDate(date) => f.(date := date)
    case PressAddQuestion => f.(questions := QuestionList.AddQuestion(f.questions))
    case ReportQuestion(i, q) => f.(questions := QuestionList.UpdateQuestion(f.questions, i, q))
    case PressDeleteQuestion(i) => f.(questions := QuestionList.DeleteQuestion(f.questions, i))
    case SubmitForm(reply) => if CanSubmit(f) then Submit(f, reply) else f
    case PickDailyDate(date) => if f.showDailyModal then f.(dailyDate := date) else f
    case CancelDaily => if PromptButtonsEnabled(f) then f.(showDailyModal := false) else f
    case ConfirmDailyPost(reply) => if PromptButtonsEnabled(f) then ConfirmDaily(f, reply).form else f
  }

  /**
   A submission with an empty title or paragraph text never reaches the handler, and
   the prompt's date field and buttons do nothing while the prompt is closed; a
   submission of a filled form does run the handler and so ends in success or error.
   */
  lemma GuardedEvents(f: Form, e: Event)
    ensures e.SubmitForm? && (f.title == "" || f.paragraphInput == "") ==> Step(f, e) == f
    ensures e.SubmitForm? && CanSubmit(f) ==> Step(f, e).status in {Success, Error} && !Step(f, e).isLoading
    ensures (e.PickDailyDate? || e.CancelDaily? || e.ConfirmDailyPost?) && !f.showDailyModal ==> Step(f, e) == f
    ensures e.ConfirmDailyPost? && Step(f, e) != f ==> f.showDailyModal && Truthy(f.latestEditorialId) && f.dailyDate != ""
  {
  }

  /** The state after the events in order. */
  function Run(f: Form, events: seq<Event>): Form
    decreases |events|
  {
    if |events| == 0 then f else Step(Run(f, events[..|events| - 1]), events[|events| - 1])
  }

  /**
   What holds between events: no call is in flight, a recorded identifier is truthy,
   and the daily prompt is open, or the status success, only with such an identifier.
   */
  predicate Settled(f: Form) {
    && !f.isLoading && !f.isDailyPosting && f.status != Pending
    && (f.latestEditorialId.Some? ==> Truthy(f.latestEditorialId))
    && (f.showDailyModal ==> Truthy(f.latestEditorialId))
    && (f.status == Success ==> Truthy(f.latestEditorialId))
  }

  lemma InitialSettled(today: string)
    ensures Settled(Initial(today))
    ensures Initial(today).questions == [] && Initial(today).latestEditorialId == None
    ensures !Initial(today).showDailyModal
  {
  }

  /** Every event keeps the form settled. */
  lemma StepKeepsSettled(f: Form, e: Event)
    requires Settled(f)
    ensures Settled(Step(f, e))
  {
  }

  /** Any run of events from a settled form ends settled. */
  lemma {:induction false} RunKeepsSettled(f: Form, events: seq<Event>)
    requires Settled(f)
    ensures Settled(Run(f, events))
    decreases |events|
  {
    if |events| > 0 {
      RunKeepsSettled(f, events[..|events| - 1]);
      StepKeepsSettled(Run(f, events[..|events| - 1]), events[|events| - 1]);
    }
  }

  /** Confirming the open daily prompt with a date always sends the recorded identifier. */
  lemma OpenPromptSends(f: Form, reply: Reply)
    requires Settled(f) && f.showDailyModal && f.dailyDate != ""
    ensures ConfirmDaily(f, reply).sent == Some(DailyPayload([f.latestEditorialId.value], f.dailyDate))
  {
  }

  /**
   Event `e`, arriving at form `f`, is a submission that reaches the handler and whose
   create call returned identifier `id`.
   */
  predicate Supplies(f: Form, e: Event, id: Option<string>) {
    e.SubmitForm? && CanSubmit(f) && id.Some? && ClassifyCreate(e.reply) == Created(id.value)
  }

  /**
   The recorded identifier is the starting one or was returned by the create call of a
   submission of the run that was not blocked.
   */
  lemma {:induction false} IdComesFromServer(f: Form, events: seq<Event>)
    ensures var id := Run(f, events).latestEditorialId;
      id == f.latestEditorialId || exists k :: 0 <= k < |events| && Supplies(Run(f, events[..k]), events[k], id)
    decreases |events|
  {
    if |events| > 0 {
      var prefix := events[..|events| - 1];
      var before := Run(f, prefix);
      var last := events[|events| - 1];
      var id := Run(f, events).latestEditorialId;
      IdComesFromServer(f, prefix);
      if id != before.latestEditorialId {
        assert last.SubmitForm?;
        assert Supplies(Run(f, events[..|events| - 1]), events[|events| - 1], id);
      } else if id != f.latestEditorialId {
        var k :| 0 <= k < |prefix| && Supplies(Run(f, prefix[..k]), prefix[k], id);
        assert events[k] == prefix[k];
        assert events[..k] == prefix[..k];
      }
    }
  }

  /**
   The fresh form never sends a daily post before a submission that reached the handler
   has had an identifier returned by its create call.
   */
  lemma NoDailyPostBeforeSuccess(today: string, events: seq<Event>, reply: Reply)
    requires forall k :: 0 <= k < |events| ==>
      !(events[k].SubmitForm? && CanSubmit(Run(Initial(today), events[..k])) && ClassifyCreate(events[k].reply).Created?)
    ensures ConfirmDaily(Run(Initial(today), events), reply).sent == None
  {
    IdComesFromServer(Initial(today), events);
  }

  /**
   The create call answers `{ "_id": "abc123" }`: the prompt opens, its date is still
   today's, and confirming with "2024-05-02" sends `{ list: ["abc123"], date: "2024-05-02" }`.
   */
  lemma CreatedThenDailyExample(daily: Reply)
    ensures var f := Initial("2024-05-01").(title := "Daily Brief", paragraphInput := "Line one.");
      var g := Submit(f, Response(true, 201, Parsed(None, Some("abc123"))));
      && g.status == Success && g.showDailyModal && g.latestEditorialId == Some("abc123")
      && g.dailyDate == "2024-05-01"
      && ConfirmDaily(g.(dailyDate := "2024-05-02"), daily).sent == Some(DailyPayload(["abc123"], "2024-05-02"))
  {
  }

  /** A 400 reply with `{ "message": "title required" }` reports exactly that message. */
  lemma ServerMessageExample(f: Form)
    ensures var g := Submit(f, Response(false, 400, Parsed(Some("title required"), None)));
      g.status == Error && g.preview == FailureReport("title required", MakePayload(f))
  {
  }

  /** A 500 reply whose JSON body has no `message` (for example `{}`) falls back to the status-code message. */
  lemma StatusFallbackExample(f: Form)
    ensures Submit(f, Response(false, 500, Parsed(None, None))).preview
      == FailureReport("HTTP error! Status: 500", MakePayload(f))
  {
    var reply := Response(false, 500, Parsed(None, None));
    assert DecimalString(500) == "500" by {
      assert DecimalString(5) == "5";
      assert DecimalString(50) == "50";
    }
    assert HttpPrefix + "500" == "HTTP error! Status: 500";
    assert ThrownMessage(reply, HttpPrefix) == "HTTP error! Status: 500";
  }

  /**
   A 500 reply with a truly empty body: reading it as JSON throws, and the parse error's
   own message is reported instead of the status-code message.
   */
  lemma EmptyBodyExample(f: Form)
    ensures var g := Submit(f, Response(false, 500, Unparsable("Unexpected end of JSON input")));
      && g.status == Error
      && g.preview == FailureReport("Unexpected end of JSON input", MakePayload(f))
      && g.preview != FailureReport("HTTP error! Status: 500", MakePayload(f))
  {
  }

  /** A 201 reply with `{}` is the missing-identifier error, and the prompt stays closed. */
  lemma MissingIdExample(f: Form)
    requires !f.showDailyModal
    ensures var g := Submit(f, Response(true, 201, Parsed(None, None)));
      g.status == Error && g.preview == MissingIdNotice && !g.showDailyModal
  {
  }
}
