/** What one `callStructured` guarantees its caller, with the client's own
    wording and initial conversation, and what the system prompt keeps of the
    schema description. */
module CallProperties {
  import opened Wrappers
  import opened Text
  import opened SchemaDescriptor
  import opened StructuredClient
  import opened RunProperties

  /** Request i of a call is made with the client's model, temperature and
      the JSON-object format, and carries the system prompt, the user's
      message and then one correction per earlier reply, all of which failed:
      the fixed "not valid JSON" text for a reply `json.loads` rejected, the
      validation error wrapped in the fixed lead and tail for a reply
      `model_validate` rejected. */
  lemma CallRequests<J, R>(s: Settings, modelClass: ModelClass<J, R>, loads: string -> Result<J, string>,
                           userMessage: string, calls: seq<Exchange>, outcome: Outcome<R>)
    requires CallRuns(s, modelClass, loads, userMessage, calls, outcome)
    ensures forall i | 0 <= i < |calls| ::
      && calls[i].request.model == s.modelName
      && calls[i].request.temperature == s.temperature
      && calls[i].request.responseFormat == JsonObject
      && |calls[i].request.messages| == 2 + i
      && calls[i].request.messages[0] == Message(System, MakeSystemPrompt(modelClass.name, modelClass.schema))
      && calls[i].request.messages[1] == Message(User, userMessage)
    ensures forall i, j | 0 <= j < i < |calls| ::
      var parsed := loads(RawContent(calls[j].content));
      && (parsed.Failure? ==> calls[i].request.messages[2 + j] == Message(System, ClientWording.notJson))
      && (parsed.Success? ==>
            && modelClass.validate(parsed.value).Failure?
            && calls[i].request.messages[2 + j]
               == Message(System, ClientWording.mismatchLead + modelClass.validate(parsed.value).error + ClientWording.mismatchTail))
  {
    StartedConversation(s, ClientWording, loads, modelClass.validate,
                        MakeSystemPrompt(modelClass.name, modelClass.schema), userMessage, calls, outcome);
  }

  /** `CallRequests` for any wording and system prompt. */
  lemma StartedConversation<J, R>(s: Settings, w: Wording, loads: string -> Result<J, string>, validate: J -> Result<R, string>,
                                  systemPrompt: string, userMessage: string, calls: seq<Exchange>, outcome: Outcome<R>)
    requires Runs(s, w, loads, validate, InitialMessages(systemPrompt, userMessage), "", s.maxRetries, calls, outcome)
    ensures forall i | 0 <= i < |calls| ::
      && calls[i].request.model == s.modelName
      && calls[i].request.temperature == s.temperature
      && calls[i].request.responseFormat == JsonObject
      && |calls[i].request.messages| == 2 + i
      && calls[i].request.messages[0] == Message(System, systemPrompt)
      && calls[i].request.messages[1] == Message(User, userMessage)
    ensures forall i, j | 0 <= j < i < |calls| ::
      var parsed := loads(RawContent(calls[j].content));
      && (parsed.Failure? ==> calls[i].request.messages[2 + j] == Message(System, w.notJson))
      && (parsed.Success? ==>
            && validate(parsed.value).Failure?
            && calls[i].request.messages[2 + j]
               == Message(System, w.mismatchLead + validate(parsed.value).error + w.mismatchTail))
  {
    var start := InitialMessages(systemPrompt, userMessage);
    RequestShape(s, w, loads, validate, start, "", s.maxRetries, calls, outcome);
    forall i | 0 <= i < |calls|
      ensures calls[i].request.messages[0] == start[0] && calls[i].request.messages[1] == start[1]
    {
      assert calls[i].request.messages[..2] == start;
    }
  }

  /** How a call ends: with no attempt allowed it makes no request and raises
      with an empty last error; otherwise it makes at least one request and
      at most `maxRetries`. It returns a record only together with the raw
      text of its last reply, which `json.loads` accepted and `model_validate`
      turned into that very record; it raises exactly when all `maxRetries`
      replies failed, reporting `maxRetries` and, after the client's lead, the
      parse or validation error of the last reply. */
  lemma CallOutcome<J, R>(s: Settings, modelClass: ModelClass<J, R>, loads: string -> Result<J, string>,
                          userMessage: string, calls: seq<Exchange>, outcome: Outcome<R>)
    requires CallRuns(s, modelClass, loads, userMessage, calls, outcome)
    ensures |calls| <= Max0(s.maxRetries)
    ensures calls == [] <==> s.maxRetries <= 0
    ensures s.maxRetries <= 0 ==> outcome == Exhausted(s.maxRetries, "")
    ensures outcome.Validated? ==>
      && |calls| > 0
      && outcome.raw == RawContent(calls[|calls| - 1].content)
      && loads(outcome.raw).Success?
      && modelClass.validate(loads(outcome.raw).value) == Success(outcome.record)
    ensures outcome.Exhausted?
      <==> && |calls| == Max0(s.maxRetries)
           && forall i | 0 <= i < |calls| :: !Judge(RawContent(calls[i].content), loads, modelClass.validate).Valid?
    ensures outcome.Exhausted? ==> outcome.attempts == s.maxRetries
    ensures outcome.Exhausted? && calls != [] ==>
      var parsed := loads(RawContent(calls[|calls| - 1].content));
      if parsed.Failure? then outcome.lastError == ClientWording.parseLead + parsed.error
      else
        && modelClass.validate(parsed.value).Failure?
        && outcome.lastError == ClientWording.validationLead + modelClass.validate(parsed.value).error
  {
    FinishedRun(s, ClientWording, loads, modelClass.validate,
                InitialMessages(MakeSystemPrompt(modelClass.name, modelClass.schema), userMessage), calls, outcome);
  }

  /** `CallOutcome` for any wording and starting conversation. */
  lemma FinishedRun<J, R>(s: Settings, w: Wording, loads: string -> Result<J, string>, validate: J -> Result<R, string>,
                          start: seq<Message>, calls: seq<Exchange>, outcome: Outcome<R>)
    requires Runs(s, w, loads, validate, start, "", s.maxRetries, calls, outcome)
    ensures |calls| <= Max0(s.maxRetries)
    ensures calls == [] <==> s.maxRetries <= 0
    ensures s.maxRetries <= 0 ==> outcome == Exhausted(s.maxRetries, "")
    ensures outcome.Validated? ==>
      && |calls| > 0
      && outcome.raw == RawContent(calls[|calls| - 1].content)
      && loads(outcome.raw).Success?
      && validate(loads(outcome.raw).value) == Success(outcome.record)
    ensures outcome.Exhausted?
      <==> && |calls| == Max0(s.maxRetries)
           && forall i | 0 <= i < |calls| :: !Judge(RawContent(calls[i].content), loads, validate).Valid?
    ensures outcome.Exhausted? ==> outcome.attempts == s.maxRetries
    ensures outcome.Exhausted? && calls != [] ==>
      var parsed := loads(RawContent(calls[|calls| - 1].content));
      if parsed.Failure? then outcome.lastError == w.parseLead + parsed.error
      else validate(parsed.value).Failure? && outcome.lastError == w.validationLead + validate(parsed.value).error
  {
    Progress(s, w, loads, validate, start, "", s.maxRetries, calls, outcome);
    ExhaustedMeaning(s, w, loads, validate, start, "", s.maxRetries, calls, outcome);
    if outcome.Validated? {
      ValidatedMeaning(s, w, loads, validate, start, "", s.maxRetries, calls, outcome.record, outcome.raw);
    }
  }

  /** The RuntimeError's message reads back: after its fixed lead comes the
      attempt count in decimal, which reads back as `maxRetries`, then the
      fixed middle and the last error, which ends the message. */
  lemma ExhaustionMessage<R>(outcome: Outcome<R>)
    requires outcome.Exhausted?
    ensures var m := outcome.ErrorMessage();
      var lead := "Structured output validation failed after ";
      var middle := " attempts. Last error: ";
      var count := IntToDecimal(outcome.attempts);
      && |m| == |lead| + |count| + |middle| + |outcome.lastError|
      && m[..|lead|] == lead
      && m[|lead|..|lead| + |count|] == count
      && m[|lead| + |count|..|m| - |outcome.lastError|] == middle
      && m[|m| - |outcome.lastError|..] == outcome.lastError
      && |count| >= 1
      && (count[0] == '-' ==> forall i | 1 <= i < |count| :: IsDigit(count[i]))
      && (count[0] != '-' ==> forall i | 0 <= i < |count| :: IsDigit(count[i]))
      && DecimalValue(count) == outcome.attempts
  {
    IntToDecimalRoundTrip(outcome.attempts);
    PartsOf("Structured output validation failed after ", IntToDecimal(outcome.attempts),
            " attempts. Last error: ", outcome.lastError);
  }

  lemma PartsOf(a: string, b: string, c: string, d: string)
    ensures var m := a + b + c + d;
      && |m| == |a| + |b| + |c| + |d|
      && m[..|a|] == a
      && m[|a|..|a| + |b|] == b
      && m[|a| + |b|..|m| - |d|] == c
      && m[|m| - |d|..] == d
  {
  }

  /** The system prompt is the rules followed by the schema description; the
      description survives whole exactly when it does not end in whitespace,
      that is when the schema has no properties or the last property's
      description is present and does not end in whitespace. Otherwise the
      strip also cuts the description's trailing whitespace, such as the
      space after the colon of a last field line without a description. */
  lemma PromptKeepsDescription(className: string, schema: JsonSchema)
    ensures var p := MakeSystemPrompt(className, schema);
      var d := SchemaDescription(className, schema);
      var props := schema.properties;
      var lastDesc := if props == [] then "" else props[|props| - 1].description.GetOr("");
      && |Rules| < |p| && p[..|Rules|] == Rules
      && (p == Rules + d <==> props == [] || (lastDesc != [] && !IsSpace(lastDesc[|lastDesc| - 1])))
  {
    var d := SchemaDescription(className, schema);
    DescriptionLastChar(className, schema);
    DescriptionHasVisible(className, schema);
    KeepsWhole(Rules, d);
  }

  /** Appending the stripped text keeps the whole text exactly when its last
      character is not whitespace, and keeps something when it has anything
      visible. */
  lemma KeepsWhole(rules: string, d: string)
    requires HasVisible(d)
    ensures |rules| < |rules + RStrip(d)| && (rules + RStrip(d))[..|rules|] == rules
    ensures rules + RStrip(d) == rules + d <==> !IsSpace(d[|d| - 1])
  {
  }
}
