# Structured chat guardrails, modelled in Dafny

The model covers the structured-output client of `structured_client.py`. The
client asks a chat model for one JSON object describing a pydantic record,
parses the reply with `json.loads` and validates it with `model_validate`.
When either step fails, it appends one corrective system message to the
conversation and asks again, up to `maxRetries` requests in all. It returns
the first record that validates together with the raw text it came from, or
raises a `RuntimeError` naming the attempt count and the last error.

The Dafny modules follow the program:

- `Text` holds the pieces of Python's string library the client relies on:
  `str.isspace`, `strip`, `"\n".join` and `str(int)`. `Split` exists only to
  read joined text back line by line.
- `SchemaDescriptor` models `schemaDescription`. The schema the description
  reads is a `JsonSchema` value with an optional title, the properties in
  declared order, each with an optional `type` and `description`, and the
  set of required names.
- `StructuredClient` holds the rest of the client:
  - the system prompt (`_makeSystemPrompt`);
  - the verdict on one reply;
  - the specification `Runs` of the attempt loop and its loop invariant
    `Attempted`;
  - the class `StructuredChatClient` with its fields, its constructor and
    `CallStructured`, whose loop is the method `AttemptLoop`.
- The chat-completions endpoint is the class `Completer`. Its `Create` may
  return any content. It records every request, with what came back, in a
  ghost `log`. `CallStructured` is proved to add to that log exactly the
  requests of a run of `Runs` that ends in the outcome it returns.
- `json.loads` and `model_validate` are function parameters (`loads`,
  `ModelClass.validate`). Each yields a value, or the text of the
  `JSONDecodeError` or `ValidationError` it raises, the only exceptions the
  client catches.
- The fixed texts of the corrective messages and of the recorded errors are
  gathered in the `Wording` value `ClientWording`. The loop and the general
  lemmas take the wording as a parameter.
- `AttemptProperties` gives a second, iteration-at-a-time definition of the
  loop, `Iterates`, and proves it equivalent to `Runs`.
- `RunProperties` and `CallProperties` state what a call guarantees:
  - the shape of every request;
  - how the conversation grows;
  - when the loop stops;
  - what each outcome means;
  - that the replies alone decide the run;
  - what the prompt keeps of the description.

Two behaviours of the code are easy to miss, and the model keeps both:

- With `maxRetries` below 1 the `for` loop makes no request. The call then
  raises with the count as given and an empty last error; it does not
  reject the value (`CallProperties.CallOutcome`).
- `.strip()` on the prompt template also removes whitespace that ends the
  description. For example, it removes the space after the colon of a last
  field line that has no description. So the prompt ends with the whole
  description only in the cases `CallProperties.PromptKeepsDescription`
  names.

## Model

| member | source | states |
|---|---|---|
| Text.LStrip | structured_client.py:77 | `lstrip`: the result is a suffix of the input, everything cut is whitespace, and the result is empty or starts with a non-whitespace character |
| Text.IsSpace | structured_client.py:77 | the characters `str.isspace` accepts, the ones `.strip()` removes (no contract of its own; used by `Text.RStrip`, `Text.LStrip` and `Text.Strip`) |
| Text.RStrip | structured_client.py:77 | `rstrip`: the result is a prefix of the input, everything cut is whitespace, and the result is empty or ends with a non-whitespace character |
| Text.Strip | structured_client.py:77 | `.strip()`: the result is a piece of the input whose first and last characters are not whitespace, and everything around it is whitespace |
| Text.RStripUnique | structured_client.py:77 | those three properties determine `rstrip`'s result |
| Text.RStripAfterVisible | structured_client.py:67-77 | trailing whitespace is stripped only from the part of the text after its last visible character |
| Text.RStripSpaces | structured_client.py:77 | whitespace appended to a text is stripped along with the text's own |
| Text.RStripKeepsPrefix | structured_client.py:77 | stripping never reaches text before a visible character |
| Text.SplitJoin | structured_client.py:41 | for a non-empty list of lines none of which holds a line break, splitting `"\n".join(lines)` on line breaks gives the lines back |
| Text.Join | structured_client.py:41 | `"\n".join(lines)`; `Text.SplitJoin` proves splitting inverts it and `Text.JoinEndsWithLast` gives how it ends |
| Text.JoinEndsWithLast | structured_client.py:41 | a joined text ends with its last line |
| Text.NatToDecimal | structured_client.py:154 | `str(n)` for `n >= 0` is a non-empty string of decimal digits with no leading zero |
| Text.IntToDecimal | structured_client.py:154 | `str(n)` for any integer; `Text.IntToDecimalRoundTrip` proves it reads back as `n` |
| Text.IntToDecimalRoundTrip | structured_client.py:154 | the attempt count printed with `str` reads back as the same integer, negative counts included |
| SchemaDescriptor.Title | structured_client.py:27 | the schema's title, or the class name when it has none; its place as the first line is stated by `SchemaDescriptor.DescriptionLayout` |
| SchemaDescriptor.RequiredMarker | structured_client.py:33-38 | the marker is `required` or `optional`, and it is `required` exactly when the name is in the required set |
| SchemaDescriptor.FieldLine | structured_client.py:36-39 | one property's line, with `object` for a missing type and nothing for a missing description; its exact text is stated by `SchemaDescriptor.DescriptionLayout` |
| SchemaDescriptor.FieldLines | structured_client.py:35-39 | one field line per property, in declared order |
| SchemaDescriptor.DescriptionLines | structured_client.py:27-39 | the title line, the type line, the `Fields:` header, then one field line per property: 3 lines more than there are properties |
| SchemaDescriptor.SchemaDescription | structured_client.py:19-41 | `schemaDescription`: the lines joined with line breaks; `SchemaDescriptor.DescriptionLayout` states its exact lines and `SchemaDescriptor.DescriptionLastChar` how it ends |
| SchemaDescriptor.DescriptionLayout | structured_client.py:19-41 | when the shown title (the class name when the schema has none) and every property's name, rendered type and description are free of line breaks, the description read back line by line is exactly: the title line (with the class name when the schema has no title), `Type: JSON object`, `Fields:`, then per property in order `- name (type, marker): description`, the marker being `required` or `optional`. A field is marked `required` exactly when its name is in the required set; a missing type shows `object` and a missing description nothing |
| SchemaDescriptor.DescriptionLastChar | structured_client.py:36-41 | the description ends with the colon of `Fields:` when there are no properties; otherwise it ends with the last property's description, or with the space after its colon when that description is empty |
| SchemaDescriptor.DescriptionHasVisible | structured_client.py:28 | the description always holds visible text |
| StructuredClient.MakeSystemPrompt | structured_client.py:65-78 | the prompt is the fixed rules followed by the description with its trailing whitespace removed |
| StructuredClient.StripTemplate | structured_client.py:67-77 | stripping the template, which starts and ends with a line break, removes those line breaks and the description's trailing whitespace, and nothing else |
| StructuredClient.RulesStartVisible | structured_client.py:68 | the rules start with a visible character, so the strip leaves them whole |
| StructuredClient.Completer.constructor | structured_client.py:60 | a new endpoint has an empty log |
| StructuredClient.Completer.Create | structured_client.py:105-110 | the endpoint records each request with the content it returned |
| StructuredClient.StructuredChatClient.constructor | structured_client.py:53-63 | the fields hold the given model name, attempt bound and temperature (the defaults are config.py's), and the endpoint's log starts empty |
| StructuredClient.StructuredChatClient.CallStructured | structured_client.py:80-156 | the requests a call adds to the endpoint's log, and the outcome it returns, form a run of the loop from `[system: prompt, user: message]` with `maxRetries` attempts and an empty last error; earlier log entries are unchanged |
| StructuredClient.StructuredChatClient.AttemptLoop | structured_client.py:100-156 | the loop, proved against `Runs` through its invariant: the requests so far all failed, each carried the conversation its predecessors left, and the last error text is the last failure's |
| StructuredClient.InitialMessages | structured_client.py:95-98 | the conversation `[system: prompt, user: message]`; `CallProperties.CallRequests` states that every request starts with it |
| StructuredClient.RequestFor | structured_client.py:105-110 | a request with the configured model and temperature and the JSON-object format; `RunProperties.RequestShape` states this of every request |
| StructuredClient.RawContent | structured_client.py:112-114 | a missing content reads as `""`; `RunProperties.ValidatedMeaning` states that the returned raw text is the last reply's content read so |
| StructuredClient.Judge | structured_client.py:116-137 | a reply is not JSON, does not validate, or validates to a record; `RunProperties.ValidatedMeaning` and `RunProperties.ExhaustedMeaning` state what each verdict leads to |
| StructuredClient.ErrorText | structured_client.py:117-137 | the recorded `lastErrorText`: the parse error after `JSON parsing error: `, or the validation error after `Pydantic validation error: `; stated by `CallProperties.CallOutcome` |
| StructuredClient.Feedback | structured_client.py:121-151 | the corrective system message for each kind of failure; stated by `RunProperties.RequestShape` and `CallProperties.CallRequests` |
| StructuredClient.Outcome.ErrorMessage | structured_client.py:153-156 | the RuntimeError's message; `CallProperties.ExhaustionMessage` states its parts and that the count reads back |
| StructuredClient.Runs | structured_client.py:100-156 | the specification of the attempt loop; `AttemptProperties.RunsIffIterates` proves it equal to the iteration-at-a-time `AttemptProperties.Iterates`, and the `RunProperties` lemmas state its consequences |
| StructuredClient.Ends | structured_client.py:132-156 | how a run may end: validated from its last reply, or exhausted after failing its whole budget; `RunProperties.ValidatedMeaning` and `RunProperties.ExhaustedMeaning` state it |
| StructuredClient.CallRuns | structured_client.py:93-156 | a whole call: `Runs` from the initial conversation with `maxRetries` attempts; stated by `CallProperties.CallRequests` and `CallProperties.CallOutcome` |
| StructuredClient.AttemptedFailure | structured_client.py:116-130 | a failed attempt made with the current conversation keeps the invariant once its correction is appended |
| StructuredClient.AttemptedAll | structured_client.py:100-151 | the invariant means that every reply so far failed, that the conversation is the start plus one correction per failure, and that request i carried the start plus the first i corrections |
| StructuredClient.AttemptedThenValid | structured_client.py:132-135 | a validating attempt after failed ones ends the run with its record and raw text |
| StructuredClient.AttemptedExhausted | structured_client.py:153-156 | failing the whole budget ends the run in exhaustion with the last failure's error text |
| StructuredClient.VerdictsSnoc | structured_client.py:112-133 | judging one more reply appends its verdict |
| StructuredClient.FeedbacksSnoc | structured_client.py:121-151 | one more failure appends its correction |
| AttemptProperties.RunsFailedFirst | structured_client.py:116-130 | a run whose first reply fails is that request, made with the starting conversation, followed by a run from the corrected conversation with one attempt less |
| AttemptProperties.RunsValidFirst | structured_client.py:132-135 | a run whose first reply validates makes exactly that request and returns its record with its raw text |
| AttemptProperties.EndsShift | structured_client.py:153-156 | after a first failure, a run ends as the rest of it does, started with that failure's error recorded |
| AttemptProperties.RequestsShift | structured_client.py:105-110 | after a first failure, request i + 1 carries what request i of the rest of the run carries |
| AttemptProperties.VerdictsTail | structured_client.py:112-133 | the verdicts of a run are the first reply's verdict followed by the rest's |
| AttemptProperties.FeedbacksCons | structured_client.py:121-151 | the corrections of a run are the first failure's followed by the rest's |
| AttemptProperties.ConversationShift | structured_client.py:121-151 | a conversation after i + 1 corrections is the once-corrected conversation followed by i more |
| AttemptProperties.Iterates | structured_client.py:102-151 | the loop one iteration at a time: no attempt left means exhaustion; otherwise one request, then return on a validating reply or continue with its correction and error recorded |
| AttemptProperties.RunsIffIterates | structured_client.py:102-156 | the all-attempts specification `Runs` and the one-iteration-at-a-time definition `Iterates` agree, in both directions |
| AttemptProperties.IteratesDetermined | structured_client.py:102-156 | two iteration-at-a-time runs from the same state with agreeing replies are equal |
| RunProperties.VerdictsAt | structured_client.py:112-133 | verdict i is the judgement of reply i |
| RunProperties.RequestShape | structured_client.py:105-110 | every request carries the configured model and temperature and the JSON-object format. Request i carries the starting conversation, unchanged, followed by exactly i corrections. Correction j answers reply j, which failed: the fixed text when that reply was not JSON, the validation error between the fixed lead and tail when it did not validate |
| RunProperties.ConversationGrows | structured_client.py:121-151 | request i + 1's conversation is request i's with the correction for reply i appended |
| RunProperties.Progress | structured_client.py:102 | at most `budget` requests; no request exactly when the budget is below 1; the loop goes on after reply i exactly when that reply failed and the budget allows another attempt |
| RunProperties.ValidatedMeaning | structured_client.py:132-135 | a returned record comes with the raw text of the last reply; `json.loads` accepts that text and `model_validate` turns it into the same record; every earlier reply failed |
| RunProperties.ExhaustedMeaning | structured_client.py:153-156 | the run raises exactly when it spent its whole budget and every reply failed. It then reports `maxRetries` and the last failure's error after the parse or validation lead, or the starting error when it made no request |
| RunProperties.DeterminedByReplies | structured_client.py:100-156 | two runs from the same state whose replies agree made the same requests and ended the same way |
| CallProperties.CallRequests | structured_client.py:93-151 | in one call, every request has the client's model, temperature and JSON-object format, and request i has 2 + i messages: the system prompt, the user's message, then one correction per earlier reply. The correction is the fixed "not valid JSON" text after a `json.loads` failure; after a `model_validate` failure it is the validation error between the fixed lead and tail |
| CallProperties.StartedConversation | structured_client.py:93-151 | the same for any wording and system prompt |
| CallProperties.CallOutcome | structured_client.py:100-156 | a call makes at most `maxRetries` requests and none exactly when `maxRetries < 1`; it then raises with an empty last error. A returned record is `model_validate(json.loads(raw))` of the returned raw text, which is the last reply's content (`None` read as `""`). The call raises exactly when all `maxRetries` replies failed. It then reports `maxRetries` and the last error: `JSON parsing error: ` or `Pydantic validation error: ` followed by the exception's text |
| CallProperties.FinishedRun | structured_client.py:100-156 | the same for any wording and starting conversation |
| CallProperties.ExhaustionMessage | structured_client.py:153-156 | the RuntimeError's message is the fixed lead, the attempt count in decimal (which reads back as `maxRetries`), the fixed middle, and the last error |
| CallProperties.PromptKeepsDescription | structured_client.py:65-78 | the prompt starts with the rules; it is the rules followed by the whole description exactly when there are no properties or the last property has a description that does not end in whitespace |
| CallProperties.KeepsWhole | structured_client.py:77 | appending a stripped text keeps all of it exactly when it does not end in whitespace |

## Left out

- The OpenAI client and the network call `chat.completions.create` (structured_client.py:60, 105-110) are not modelled. The endpoint is the class `Completer`, whose reply is unconstrained.
- Transport errors of that call are not modelled. The code does not catch them, so they would abort the call.
- Exceptions other than `JSONDecodeError` from `json.loads` and other than `ValidationError` from `model_validate` are not modelled. Examples are a `RecursionError` on deeply nested text or a `TypeError` raised in a validator. The code does not catch them, so they propagate out of `callStructured` at once, with no correction and no retry, as transport errors do.
- `json.loads` and pydantic's `model_validate` are function parameters, not library code. The model states nothing about JSON syntax or pydantic semantics.
- `model_json_schema` is not modelled. The schema is given as a `JsonSchema` value. A property's `type` is taken as the text it renders to. The properties are a sequence, so the model also allows two properties with the same name, which the keys of a Python dict cannot have; no lemma depends on the names being distinct.
- `print` logging (structured_client.py:103, 120, 134, 138) is left out, since it does not affect the outcome.
- config.py is not part of this model beyond its default values. The constructor requires an API key where `validateConfig` would raise.
- The temperature is a `real` that is only passed along. Floating-point behaviour is not modelled.
- The attempt loop of `callStructured` is a separate method, `AttemptLoop`, which takes the fixed texts as a `Wording` value. `CallStructured` passes it `ClientWording`, whose texts are the client's own.
- The raised `RuntimeError` is the outcome `Exhausted`, and `Outcome.ErrorMessage` builds its message. The returned tuple is the outcome `Validated`.
