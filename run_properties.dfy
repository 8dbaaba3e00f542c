/** What a run of the attempt loop guarantees, read off its specification
    `Runs` for any wording: the shape of every request, when the loop goes on
    and when it stops, and what each outcome means. */
module RunProperties {
  import opened Wrappers
  import opened StructuredClient
  import opened AttemptProperties

  /** Verdict i is the verdict on reply i. */
  lemma VerdictsAt<J, R>(calls: seq<Exchange>, loads: string -> Result<J, string>, validate: J -> Result<R, string>)
    ensures |Verdicts(calls, loads, validate)| == |calls|
    ensures forall i | 0 <= i < |calls| ::
      Verdicts(calls, loads, validate)[i] == Judge(RawContent(calls[i].content), loads, validate)
  {
  }

  /** Every request carries the configured model, temperature and the
      JSON-object format; request i carries the starting conversation followed
      by exactly i corrections, the j-th of which answers reply j, a failure:
      the fixed text when that reply was not JSON, the validation error between
      the two fixed parts when it did not validate. */
  lemma RequestShape<J, R>(s: Settings, w: Wording, loads: string -> Result<J, string>, validate: J -> Result<R, string>,
                           start: seq<Message>, lastError: string, budget: int,
                           calls: seq<Exchange>, outcome: Outcome<R>)
    requires Runs(s, w, loads, validate, start, lastError, budget, calls, outcome)
    ensures forall i | 0 <= i < |calls| ::
      && calls[i].request.model == s.modelName
      && calls[i].request.temperature == s.temperature
      && calls[i].request.responseFormat == JsonObject
      && |calls[i].request.messages| == |start| + i
      && calls[i].request.messages[..|start|] == start
    ensures forall i, j | 0 <= j < i < |calls| ::
      var v := Judge(RawContent(calls[j].content), loads, validate);
      && !v.Valid?
      && calls[i].request.messages[|start| + j]
         == Message(System, if v.NotJson? then w.notJson else w.mismatchLead + v.error + w.mismatchTail)
  {
    var vs := Verdicts(calls, loads, validate);
    VerdictsAt(calls, loads, validate);
    forall i | 0 <= i < |calls|
      ensures AllFailed(vs[..i])
      ensures calls[i].request.messages == start + Feedbacks(w, vs[..i])
    {
      assert AllFailed(vs[..i]) by {
        forall k | 0 <= k < i ensures !vs[..i][k].Valid? { assert vs[..i][k] == vs[k]; }
      }
    }
    forall i, j | 0 <= j < i < |calls|
      ensures calls[i].request.messages[|start| + j] == Feedback(w, vs[j])
    {
      var m := calls[i].request.messages;
      assert m[|start| + j] == Feedbacks(w, vs[..i])[j];
      assert vs[..i][j] == vs[j];
    }
  }

  /** Request i + 1 is request i with the correction for reply i appended: the
      conversation only grows, one message per failed attempt. */
  lemma ConversationGrows<J, R>(s: Settings, w: Wording, loads: string -> Result<J, string>, validate: J -> Result<R, string>,
                                start: seq<Message>, lastError: string, budget: int,
                                calls: seq<Exchange>, outcome: Outcome<R>)
    requires Runs(s, w, loads, validate, start, lastError, budget, calls, outcome)
    ensures forall i | 0 <= i < |calls| - 1 ::
      var v := Judge(RawContent(calls[i].content), loads, validate);
      !v.Valid? && calls[i + 1].request.messages == calls[i].request.messages + [Feedback(w, v)]
  {
    var vs := Verdicts(calls, loads, validate);
    VerdictsAt(calls, loads, validate);
    forall i | 0 <= i < |calls| - 1
      ensures calls[i + 1].request.messages == calls[i].request.messages + [Feedback(w, vs[i])]
    {
      var prior := vs[..i];
      assert AllFailed(prior) by {
        forall k | 0 <= k < i ensures !prior[k].Valid? { assert prior[k] == vs[k]; }
      }
      assert vs[..i + 1] == prior + [vs[i]];
      FeedbacksSnoc(w, prior, vs[i]);
      AppendAssoc(start, Feedbacks(w, prior), [Feedback(w, vs[i])]);
    }
  }

  /** The loop makes a request exactly when it has an attempt left, never more
      than its budget, and goes on after reply i exactly when that reply failed
      and the budget allows another attempt. */
  lemma Progress<J, R>(s: Settings, w: Wording, loads: string -> Result<J, string>, validate: J -> Result<R, string>,
                       start: seq<Message>, lastError: string, budget: int,
                       calls: seq<Exchange>, outcome: Outcome<R>)
    requires Runs(s, w, loads, validate, start, lastError, budget, calls, outcome)
    ensures |calls| <= Max0(budget)
    ensures calls == [] <==> budget <= 0
    ensures forall i | 0 <= i < |calls| ::
      i + 1 < |calls| <==> !Judge(RawContent(calls[i].content), loads, validate).Valid? && i + 1 < Max0(budget)
  {
    var vs := Verdicts(calls, loads, validate);
    VerdictsAt(calls, loads, validate);
  }

  /** A validated outcome pairs the record with the raw text of the last reply,
      the one it was parsed and validated from; every reply before it failed. */
  lemma ValidatedMeaning<J, R>(s: Settings, w: Wording, loads: string -> Result<J, string>, validate: J -> Result<R, string>,
                               start: seq<Message>, lastError: string, budget: int,
                               calls: seq<Exchange>, record: R, raw: string)
    requires Runs(s, w, loads, validate, start, lastError, budget, calls, Validated(record, raw))
    ensures |calls| > 0 && raw == RawContent(calls[|calls| - 1].content)
    ensures loads(raw).Success? && validate(loads(raw).value) == Success(record)
    ensures forall i | 0 <= i < |calls| - 1 :: !Judge(RawContent(calls[i].content), loads, validate).Valid?
  {
    var vs := Verdicts(calls, loads, validate);
    VerdictsAt(calls, loads, validate);
    assert vs[|calls| - 1] == Judge(raw, loads, validate);
  }

  /** The run ends in exhaustion exactly when it spent its whole budget and
      every reply failed; it then reports `maxRetries` and the error text of
      the last failure (the parse error after the parsing lead, or the
      validation error after the validation lead), or the error it started
      with when it made no request. */
  lemma ExhaustedMeaning<J, R>(s: Settings, w: Wording, loads: string -> Result<J, string>, validate: J -> Result<R, string>,
                               start: seq<Message>, lastError: string, budget: int,
                               calls: seq<Exchange>, outcome: Outcome<R>)
    requires Runs(s, w, loads, validate, start, lastError, budget, calls, outcome)
    ensures outcome.Exhausted?
      <==> && |calls| == Max0(budget)
           && forall i | 0 <= i < |calls| :: !Judge(RawContent(calls[i].content), loads, validate).Valid?
    ensures outcome.Exhausted? ==> outcome.attempts == s.maxRetries
    ensures outcome.Exhausted? && calls == [] ==> outcome.lastError == lastError
    ensures outcome.Exhausted? && calls != [] ==>
      var parsed := loads(RawContent(calls[|calls| - 1].content));
      if parsed.Failure? then outcome.lastError == w.parseLead + parsed.error
      else validate(parsed.value).Failure? && outcome.lastError == w.validationLead + validate(parsed.value).error
  {
    var vs := Verdicts(calls, loads, validate);
    VerdictsAt(calls, loads, validate);
    if |calls| > 0 {
      assert vs[|calls| - 1] == Judge(RawContent(calls[|calls| - 1].content), loads, validate);
    }
    if outcome.Exhausted? {
      assert forall i | 0 <= i < |calls| :: !vs[i].Valid?;
    }
  }

  /** The replies alone decide a run: two runs from the same conversation,
      settings and budget whose replies agree as far as both go made the same
      requests, got the same replies and ended the same way. */
  lemma DeterminedByReplies<J, R>(s: Settings, w: Wording, loads: string -> Result<J, string>, validate: J -> Result<R, string>,
                                  start: seq<Message>, lastError: string, budget: int,
                                  calls: seq<Exchange>, outcome: Outcome<R>,
                                  calls': seq<Exchange>, outcome': Outcome<R>)
    requires Runs(s, w, loads, validate, start, lastError, budget, calls, outcome)
    requires Runs(s, w, loads, validate, start, lastError, budget, calls', outcome')
    requires forall i | 0 <= i < |calls| && i < |calls'| :: calls[i].content == calls'[i].content
    ensures calls == calls' && outcome == outcome'
  {
    RunsIffIterates(s, w, loads, validate, start, lastError, budget, calls, outcome);
    RunsIffIterates(s, w, loads, validate, start, lastError, budget, calls', outcome');
    IteratesDetermined(s, w, loads, validate, start, lastError, budget, calls, outcome, calls', outcome');
  }
}
