/** The structured-output client: it asks a chat model for a single JSON
    object, parses and validates the reply, and on either failure appends one
    corrective system message and asks again, up to `maxRetries` requests. */
module StructuredClient {
  import opened Wrappers
  import opened Text
  import opened SchemaDescriptor

  datatype Role = System | User

  datatype Message = Message(role: Role, content: string)

  /** `response_format={"type": "json_object"}`, the only format the client asks for. */
  datatype ResponseFormat = JsonObject

  /** One chat-completion request as the client issues it. The temperature is
      only passed through, so a `real` stands for Python's float. */
  datatype Request = Request(model: string, messages: seq<Message>, temperature: real, responseFormat: ResponseFormat)

  /** A request together with the content of the first choice of its
      response (`None` when the response carried no content). */
  datatype Exchange = Exchange(request: Request, content: Option<string>)

  /** A pydantic record class as the client uses it: its name, its JSON
      schema and `model_validate`, which yields the record or the error's text. */
  datatype ModelClass<!J, R> = ModelClass(name: string, schema: JsonSchema, validate: J -> Result<R, string>)

  /** The client's configuration fields. */
  datatype Settings = Settings(modelName: string, maxRetries: int, temperature: real)

  const DefaultModelName := "gpt-4o-mini"
  const DefaultMaxRetries := 3
  const DefaultTemperature := 0.2

  // ---------------------------------------------------------------------------
  // The system prompt

  /** The fixed rules that precede the schema description in the system prompt. */
  const Rules := "You are a strict JSON generator.\n\nYou MUST:\n"
    + "- Return ONLY a single JSON object, no prose.\n"
    + "- Ensure the JSON exactly matches the schema below.\n"
    + "- Never include comments or trailing commas.\n"
    + "- Use null for missing optional values.\n\n"

  /** `_makeSystemPrompt`: the rules and the description inside a template that
      starts and ends with a line break, stripped of surrounding whitespace. The
      strip takes the template's own breaks and any whitespace that ends the
      description, and nothing else. */
  function MakeSystemPrompt(className: string, schema: JsonSchema): (prompt: string)
    ensures prompt == Rules + RStrip(SchemaDescription(className, schema))
  {
    var desc := SchemaDescription(className, schema);
    DescriptionHasVisible(className, schema);
    RulesStartVisible();
    StripTemplate(Rules, desc);
    Strip("\n" + Rules + desc + "\n")
  }

  lemma RulesStartVisible()
    ensures |Rules| > 0 && !IsSpace(Rules[0])
  {
    var first := "You are a strict JSON generator.\n\nYou MUST:\n";
    assert first[0] == 'Y';
    assert Rules[0] == first[0];
  }

  /** Stripping the template keeps text that starts visibly and removes only
      the template's own line breaks and the description's trailing whitespace. */
  lemma StripTemplate(rules: string, desc: string)
    requires |rules| > 0 && !IsSpace(rules[0])
    requires HasVisible(desc)
    ensures Strip("\n" + rules + desc + "\n") == rules + RStrip(desc)
  {
    var body := rules + desc + "\n";
    var template := "\n" + rules + desc + "\n";
    assert template == "\n" + body;
    assert body[0] == rules[0];
    assert LStrip(body) == body;
    assert template[1..] == body;
    assert LStrip(template) == body;
    RStripAfterVisible(rules, desc, "\n");
  }

  /** The conversation every call starts from. */
  function InitialMessages(systemPrompt: string, userMessage: string): seq<Message> {
    [Message(System, systemPrompt), Message(User, userMessage)]
  }

  function RequestFor(s: Settings, messages: seq<Message>): Request {
    Request(s.modelName, messages, s.temperature, JsonObject)
  }

  // ---------------------------------------------------------------------------
  // Judging one reply

  /** What became of one reply: `json.loads` rejected it, `model_validate`
      rejected what it parsed to, or it produced a record. Errors carry the
      exception's text. */
  datatype Verdict<R> = NotJson(error: string) | Invalid(error: string) | Valid(record: R)

  /** A missing content counts as the empty string. */
  function RawContent(content: Option<string>): string {
    content.GetOr("")
  }

  function Judge<J, R>(raw: string, loads: string -> Result<J, string>, validate: J -> Result<R, string>): Verdict<R> {
    match loads(raw)
    case Failure(e) => NotJson(e)
    case Success(parsed) =>
      match validate(parsed)
      case Failure(e) => Invalid(e)
      case Success(record) => Valid(record)
  }

  /** The fixed texts with which the client answers a failed attempt. */
  datatype Wording = Wording(notJson: string, mismatchLead: string, mismatchTail: string,
                             parseLead: string, validationLead: string)

  /** The client's own wording: the correction for a reply that is not JSON,
      the two parts of the correction around a validation error, and the
      prefixes of the recorded error texts. */
  const ClientWording := Wording(
    "Your previous response was not valid JSON. Return ONLY a valid JSON object that matches the schema.",
    "Your previous JSON did not match the schema. Here is the validation error:\n",
    "\n\nReturn ONLY a corrected JSON object that matches the schema.",
    "JSON parsing error: ",
    "Pydantic validation error: ")

  /** The `lastErrorText` a failed attempt records. */
  function ErrorText<R>(w: Wording, v: Verdict<R>): string
    requires !v.Valid?
  {
    if v.NotJson? then w.parseLead + v.error else w.validationLead + v.error
  }

  /** The corrective system message a failed attempt appends. */
  function Feedback<R>(w: Wording, v: Verdict<R>): Message
    requires !v.Valid?
  {
    Message(System, if v.NotJson? then w.notJson else w.mismatchLead + v.error + w.mismatchTail)
  }

  predicate AllFailed<R>(vs: seq<Verdict<R>>) {
    forall i | 0 <= i < |vs| :: !vs[i].Valid?
  }

  function Feedbacks<R>(w: Wording, vs: seq<Verdict<R>>): seq<Message>
    requires AllFailed(vs)
  {
    seq(|vs|, i requires 0 <= i < |vs| => Feedback(w, vs[i]))
  }

  function Verdicts<J, R>(calls: seq<Exchange>, loads: string -> Result<J, string>, validate: J -> Result<R, string>): seq<Verdict<R>> {
    seq(|calls|, i requires 0 <= i < |calls| => Judge(RawContent(calls[i].content), loads, validate))
  }

  function Max0(n: int): nat {
    if n < 0 then 0 else n
  }

  // ---------------------------------------------------------------------------
  // What one call does

  /** How `callStructured` ends: the record with the raw text it was validated
      from, or the RuntimeError raised once every attempt has failed. */
  datatype Outcome<R> = Validated(record: R, raw: string) | Exhausted(attempts: int, lastError: string) {
    /** The RuntimeError's message. */
    function ErrorMessage(): string
      requires Exhausted?
    {
      "Structured output validation failed after " + IntToDecimal(attempts)
        + " attempts. Last error: " + lastError
    }
  }

  /** `calls` are the requests, with their replies, that a run of the attempt
      loop makes when it starts from the conversation `start` with `budget`
      attempts left and `lastError` recorded, and `outcome` is how it ends:
      - it makes no more requests than the budget allows;
      - every request but the last one failed;
      - request i carries the configured model and temperature, the JSON-object
        format and `start` followed by the corrections of the i failures before it;
      - it returns the record validated from the last reply together with that
        reply's raw text, or it has spent the whole budget on failures and
        reports `maxRetries` and the error text of the last failure. */
  ghost predicate Runs<J, R>(s: Settings, w: Wording, loads: string -> Result<J, string>, validate: J -> Result<R, string>,
                             start: seq<Message>, lastError: string, budget: int,
                             calls: seq<Exchange>, outcome: Outcome<R>)
  {
    var vs := Verdicts(calls, loads, validate);
    && |calls| <= Max0(budget)
    && (forall i | 0 <= i < |calls| - 1 :: !vs[i].Valid?)
    && (forall i | 0 <= i < |calls| :: calls[i].request == RequestFor(s, start + Feedbacks(w, vs[..i])))
    && Ends(s, w, lastError, budget, calls, vs, outcome)
  }

  /** How a run with verdicts `vs` may end: with the record validated from the
      last reply and that reply's raw text, or, once the whole budget went to
      failures, with `maxRetries` and the error text of the last failure. */
  ghost predicate Ends<R>(s: Settings, w: Wording, lastError: string, budget: int, calls: seq<Exchange>,
                          vs: seq<Verdict<R>>, outcome: Outcome<R>)
    requires |vs| == |calls|
  {
    match outcome
    case Validated(record, raw) =>
      && |calls| > 0
      && vs[|calls| - 1] == Valid(record)
      && raw == RawContent(calls[|calls| - 1].content)
    case Exhausted(attempts, error) =>
      && attempts == s.maxRetries
      && |calls| == Max0(budget)
      && AllFailed(vs)
      && error == if calls == [] then lastError else ErrorText(w, vs[|calls| - 1])
  }

  /** A whole `callStructured`: from the system prompt and the user's message,
      with `maxRetries` attempts and no error recorded. */
  ghost predicate CallRuns<J, R>(s: Settings, modelClass: ModelClass<J, R>, loads: string -> Result<J, string>,
                                 userMessage: string, calls: seq<Exchange>, outcome: Outcome<R>)
  {
    Runs(s, ClientWording, loads, modelClass.validate,
         InitialMessages(MakeSystemPrompt(modelClass.name, modelClass.schema), userMessage),
         "", s.maxRetries, calls, outcome)
  }

  lemma AppendAssoc<T>(a: seq<T>, b: seq<T>, c: seq<T>)
    ensures a + b + c == a + (b + c)
  {
  }

  lemma DropPrefix<T>(a: seq<T>, b: seq<T>)
    ensures (a + b)[|a|..] == b
  {
  }

  /** The loop invariant, stated one attempt at a time as the loop extends it:
      every one of `calls` failed, each carried the conversation that the
      failures before it had left, and `messages` is the conversation after
      the last of them. */
  ghost predicate Attempted<J, R>(s: Settings, w: Wording, loads: string -> Result<J, string>, validate: J -> Result<R, string>,
                                  start: seq<Message>, calls: seq<Exchange>, messages: seq<Message>)
    decreases |calls|
  {
    if calls == [] then messages == start
    else
      var last := calls[|calls| - 1];
      var v := Judge(RawContent(last.content), loads, validate);
      && !v.Valid?
      && |messages| > 0
      && messages[|messages| - 1] == Feedback(w, v)
      && last.request == RequestFor(s, messages[..|messages| - 1])
      && Attempted(s, w, loads, validate, start, calls[..|calls| - 1], messages[..|messages| - 1])
  }

  /** One more failed attempt, made with the current conversation, keeps the
      loop invariant once its correction is appended. */
  lemma AttemptedFailure<J, R>(s: Settings, w: Wording, loads: string -> Result<J, string>, validate: J -> Result<R, string>,
                               start: seq<Message>, calls: seq<Exchange>, messages: seq<Message>, call: Exchange)
    requires Attempted(s, w, loads, validate, start, calls, messages)
    requires call.request == RequestFor(s, messages)
    requires !Judge(RawContent(call.content), loads, validate).Valid?
    ensures Attempted(s, w, loads, validate, start, calls + [call],
                      messages + [Feedback(w, Judge(RawContent(call.content), loads, validate))])
  {
    var v := Judge(RawContent(call.content), loads, validate);
    assert (calls + [call])[..|calls|] == calls;
    assert (messages + [Feedback(w, v)])[..|messages|] == messages;
  }

  /** The invariant, stated for all attempts at once. */
  lemma {:induction false} AttemptedAll<J, R>(s: Settings, w: Wording, loads: string -> Result<J, string>, validate: J -> Result<R, string>,
                                               start: seq<Message>, calls: seq<Exchange>, messages: seq<Message>)
    requires Attempted(s, w, loads, validate, start, calls, messages)
    ensures var vs := Verdicts(calls, loads, validate);
      && AllFailed(vs)
      && messages == start + Feedbacks(w, vs)
      && forall i | 0 <= i < |calls| :: calls[i].request == RequestFor(s, start + Feedbacks(w, vs[..i]))
    decreases |calls|
  {
    if calls != [] {
      var prior := calls[..|calls| - 1];
      var last := calls[|calls| - 1];
      var pm := messages[..|messages| - 1];
      var v := Judge(RawContent(last.content), loads, validate);
      AttemptedAll(s, w, loads, validate, start, prior, pm);
      VerdictsSnoc(prior, last, loads, validate);
      assert prior + [last] == calls;
      var vs := Verdicts(calls, loads, validate);
      var ps := Verdicts(prior, loads, validate);
      assert vs == ps + [v];
      FeedbacksSnoc(w, ps, v);
      assert messages == pm + [Feedback(w, v)];
      AppendAssoc(start, Feedbacks(w, ps), [Feedback(w, v)]);
      forall i | 0 <= i < |calls| ensures calls[i].request == RequestFor(s, start + Feedbacks(w, vs[..i])) {
        if i < |prior| {
          assert vs[..i] == ps[..i];
          assert calls[i] == prior[i];
        } else {
          assert vs[..i] == ps;
        }
      }
    }
  }

  lemma VerdictsSnoc<J, R>(calls: seq<Exchange>, call: Exchange, loads: string -> Result<J, string>, validate: J -> Result<R, string>)
    ensures Verdicts(calls + [call], loads, validate)
      == Verdicts(calls, loads, validate) + [Judge(RawContent(call.content), loads, validate)]
  {
    var vs := Verdicts(calls + [call], loads, validate);
    var ws := Verdicts(calls, loads, validate) + [Judge(RawContent(call.content), loads, validate)];
    assert |vs| == |ws|;
    forall i | 0 <= i < |vs| ensures vs[i] == ws[i] {
      if i < |calls| { assert (calls + [call])[i] == calls[i]; }
    }
  }

  lemma FeedbacksSnoc<R>(w: Wording, vs: seq<Verdict<R>>, v: Verdict<R>)
    requires AllFailed(vs) && !v.Valid?
    ensures AllFailed(vs + [v])
    ensures Feedbacks(w, vs + [v]) == Feedbacks(w, vs) + [Feedback(w, v)]
  {
    assert AllFailed(vs + [v]) by {
      forall i | 0 <= i < |vs| + 1 ensures !(vs + [v])[i].Valid? {
        if i < |vs| { assert (vs + [v])[i] == vs[i]; }
      }
    }
  }

  /** A validating attempt after failed ones ends the run with its record and
      raw text. */
  lemma AttemptedThenValid<J, R>(s: Settings, w: Wording, loads: string -> Result<J, string>, validate: J -> Result<R, string>,
                                 start: seq<Message>, lastError: string, budget: int,
                                 calls: seq<Exchange>, messages: seq<Message>, call: Exchange, record: R)
    requires Attempted(s, w, loads, validate, start, calls, messages)
    requires |calls| < Max0(budget)
    requires call.request == RequestFor(s, messages)
    requires Judge(RawContent(call.content), loads, validate) == Valid(record)
    ensures Runs(s, w, loads, validate, start, lastError, budget, calls + [call], Validated(record, RawContent(call.content)))
  {
    AttemptedAll(s, w, loads, validate, start, calls, messages);
    var vs := Verdicts(calls, loads, validate);
    var v := Judge(RawContent(call.content), loads, validate);
    VerdictsSnoc(calls, call, loads, validate);
    var calls' := calls + [call];
    var vs' := vs + [v];
    forall i | 0 <= i < |calls'| ensures calls'[i].request == RequestFor(s, start + Feedbacks(w, vs'[..i])) {
      if i < |calls| {
        assert vs'[..i] == vs[..i];
      } else {
        assert vs'[..i] == vs;
      }
    }
  }

  /** Failing every attempt of the budget ends the run in exhaustion, reporting
      the error text of the last failure. */
  lemma AttemptedExhausted<J, R>(s: Settings, w: Wording, loads: string -> Result<J, string>, validate: J -> Result<R, string>,
                                 start: seq<Message>, lastError: string, calls: seq<Exchange>, messages: seq<Message>,
                                 error: string)
    requires Attempted(s, w, loads, validate, start, calls, messages)
    requires |calls| == Max0(s.maxRetries)
    requires calls == [] ==> error == lastError
    requires calls != [] ==> error == ErrorText(w, Judge(RawContent(calls[|calls| - 1].content), loads, validate))
    ensures Runs(s, w, loads, validate, start, lastError, s.maxRetries, calls, Exhausted(s.maxRetries, error))
  {
    AttemptedAll(s, w, loads, validate, start, calls, messages);
  }

  // ---------------------------------------------------------------------------
  // The collaborators and the client

  /** The chat-completions endpoint. What the model answers is not determined
      by anything the client can see, so `Create` may return any content; the
      ghost `log` records every request it receives with the content returned. */
  class Completer {
    ghost var log: seq<Exchange>

    constructor ()
      ensures log == []
    {
      log := [];
    }

    method Create(request: Request) returns (content: Option<string>)
      modifies this
      ensures log == old(log) + [Exchange(request, content)]
    {
      content := *;
      log := log + [Exchange(request, content)];
    }
  }

  class StructuredChatClient {
    const client: Completer
    var modelName: string
    var maxRetries: int
    var temperature: real

    /** Construction fails fast when the API key is not configured; here that
        is the caller's obligation. */
    constructor (apiKey: Option<string>, modelName: string := DefaultModelName,
                 maxRetries: int := DefaultMaxRetries, temperature: real := DefaultTemperature)
      requires apiKey.Some?
      ensures this.modelName == modelName && this.maxRetries == maxRetries && this.temperature == temperature
      ensures fresh(client) && client.log == []
    {
      client := new Completer();
      this.modelName := modelName;
      this.maxRetries := maxRetries;
      this.temperature := temperature;
    }

    function CurrentSettings(): Settings
      reads this
    {
      Settings(modelName, maxRetries, temperature)
    }

    /** `callStructured`: the requests it adds to the endpoint's log and the
        outcome it returns are a run of the attempt loop from the initial
        conversation; earlier log entries are left as they were. */
    method CallStructured<J, R>(userMessage: string, modelClass: ModelClass<J, R>, loads: string -> Result<J, string>)
      returns (outcome: Outcome<R>)
      modifies client
      ensures |old(client.log)| <= |client.log| && client.log[..|old(client.log)|] == old(client.log)
      ensures CallRuns(CurrentSettings(), modelClass, loads, userMessage, client.log[|old(client.log)|..], outcome)
    {
      var systemMessage := MakeSystemPrompt(modelClass.name, modelClass.schema);
      var messages := [Message(System, systemMessage), Message(User, userMessage)];
      outcome := AttemptLoop(ClientWording, messages, loads, modelClass.validate);
    }

    /** The attempt loop of `callStructured`, from the conversation `messages`
        with no error recorded: up to `maxRetries` requests, each followed by
        parsing and validating its reply. */
    method AttemptLoop<J, R>(w: Wording, messages: seq<Message>, loads: string -> Result<J, string>, validate: J -> Result<R, string>)
      returns (outcome: Outcome<R>)
      modifies client
      ensures |old(client.log)| <= |client.log| && client.log[..|old(client.log)|] == old(client.log)
      ensures Runs(CurrentSettings(), w, loads, validate, messages, "", maxRetries, client.log[|old(client.log)|..], outcome)
    {
      var messages := messages;
      var lastErrorText := "";
      ghost var start := messages;
      ghost var s := CurrentSettings();
      ghost var calls: seq<Exchange> := [];

      var attempt := 1;
      while attempt <= maxRetries
        invariant 1 <= attempt && attempt - 1 <= Max0(maxRetries)
        invariant |calls| == attempt - 1
        invariant client.log == old(client.log) + calls
        invariant Attempted(s, w, loads, validate, start, calls, messages)
        invariant calls == [] ==> lastErrorText == ""
        invariant calls != [] ==> lastErrorText == ErrorText(w, Judge(RawContent(calls[|calls| - 1].content), loads, validate))
      {
        var request := Request(modelName, messages, temperature, JsonObject);
        var content := client.Create(request);
        var rawContent := if content.None? then "" else content.value;
        ghost var call := Exchange(request, content);
        assert rawContent == RawContent(call.content);
        AppendAssoc(old(client.log), calls, [call]);

        ghost var sent := messages;
        var verdict: Verdict<R>;
        var parsed := loads(rawContent);
        if parsed.Failure? {
          verdict := NotJson(parsed.error);
          lastErrorText := ErrorText(w, verdict);
          messages := messages + [Feedback(w, verdict)];
        } else {
          var validated := validate(parsed.value);
          if validated.Success? {
            AttemptedThenValid(s, w, loads, validate, start, "", maxRetries, calls, messages, call, validated.value);
            calls := calls + [call];
            DropPrefix(old(client.log), calls);
            return Validated(validated.value, rawContent);
          }
          verdict := Invalid(validated.error);
          lastErrorText := ErrorText(w, verdict);
          messages := messages + [Feedback(w, verdict)];
        }
        assert verdict == Judge(RawContent(call.content), loads, validate);
        AttemptedFailure(s, w, loads, validate, start, calls, sent, call);
        calls := calls + [call];
        attempt := attempt + 1;
      }

      AttemptedExhausted(s, w, loads, validate, start, "", calls, messages, lastErrorText);
      DropPrefix(old(client.log), calls);
      return Exhausted(maxRetries, lastErrorText);
    }
  }
}
