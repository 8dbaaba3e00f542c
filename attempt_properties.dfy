/** What a run of the attempt loop promises, proved from its specification
    `Runs`: a functional reference that replays the endpoint's replies one at
    a time, the equivalence of the two, and the guarantees `callStructured`
    gives its callers. */
module AttemptProperties {
  import opened Wrappers
  import opened Text
  import opened SchemaDescriptor
  import opened StructuredClient

  /** The attempt loop one iteration at a time. With no attempt left it makes
      no request and reports exhaustion with the error recorded so far.
      Otherwise its first request carries the settings and the conversation so
      far; a reply that validates ends the run with its record and raw text, and
      any other reply has its correction appended and its error recorded before
      the rest of the run, which has one attempt less. */
  ghost predicate Iterates<J, R>(s: Settings, w: Wording, loads: string -> Result<J, string>, validate: J -> Result<R, string>,
                                 messages: seq<Message>, lastError: string, budget: int,
                                 calls: seq<Exchange>, outcome: Outcome<R>)
    decreases |calls|
  {
    if budget <= 0 then calls == [] && outcome == Exhausted(s.maxRetries, lastError)
    else
      && calls != []
      && calls[0].request == RequestFor(s, messages)
      && var v := Judge(RawContent(calls[0].content), loads, validate);
         if v.Valid? then |calls| == 1 && outcome == Validated(v.record, RawContent(calls[0].content))
         else Iterates(s, w, loads, validate, messages + [Feedback(w, v)], ErrorText(w, v), budget - 1, calls[1..], outcome)
  }

  lemma VerdictsTail<J, R>(calls: seq<Exchange>, loads: string -> Result<J, string>, validate: J -> Result<R, string>)
    requires |calls| > 0
    ensures Verdicts(calls, loads, validate)
      == [Judge(RawContent(calls[0].content), loads, validate)] + Verdicts(calls[1..], loads, validate)
  {
    var vs := Verdicts(calls, loads, validate);
    var ws := [Judge(RawContent(calls[0].content), loads, validate)] + Verdicts(calls[1..], loads, validate);
    assert |vs| == |ws|;
    forall i | 0 <= i < |vs| ensures vs[i] == ws[i] {
      if i > 0 { assert calls[1..][i - 1] == calls[i]; }
    }
  }

  lemma FeedbacksCons<R>(w: Wording, v: Verdict<R>, ws: seq<Verdict<R>>)
    requires !v.Valid? && AllFailed(ws)
    ensures AllFailed([v] + ws)
    ensures Feedbacks(w, [v] + ws) == [Feedback(w, v)] + Feedbacks(w, ws)
  {
    var vs := [v] + ws;
    forall i | 0 < i < |vs| ensures vs[i] == ws[i - 1] { }
    assert AllFailed(vs);
    var l := Feedbacks(w, vs);
    var r := [Feedback(w, v)] + Feedbacks(w, ws);
    forall i | 0 <= i < |vs| ensures l[i] == r[i] { }
    assert l == r;
  }

  /** The conversation of request `i + 1` seen from the first correction on. */
  lemma ConversationShift<R>(w: Wording, start: seq<Message>, v: Verdict<R>, ws: seq<Verdict<R>>, i: nat)
    requires !v.Valid? && AllFailed(ws) && i <= |ws|
    ensures AllFailed(([v] + ws)[..i + 1]) && AllFailed(ws[..i])
    ensures start + Feedbacks(w, ([v] + ws)[..i + 1]) == (start + [Feedback(w, v)]) + Feedbacks(w, ws[..i])
  {
    assert ([v] + ws)[..i + 1] == [v] + ws[..i];
    assert AllFailed(ws[..i]) by {
      forall k | 0 <= k < i ensures !ws[..i][k].Valid? { assert ws[..i][k] == ws[k]; }
    }
    FeedbacksCons(w, v, ws[..i]);
    AppendAssoc(start, [Feedback(w, v)], Feedbacks(w, ws[..i]));
  }

  /** A run whose first reply fails is that request, made with `start`,
      followed by a run from the corrected conversation with one attempt less. */
  lemma RunsFailedFirst<J, R>(s: Settings, w: Wording, loads: string -> Result<J, string>, validate: J -> Result<R, string>,
                              start: seq<Message>, lastError: string, budget: int,
                              calls: seq<Exchange>, outcome: Outcome<R>)
    requires |calls| > 0
    requires !Judge(RawContent(calls[0].content), loads, validate).Valid?
    ensures var v := Judge(RawContent(calls[0].content), loads, validate);
      Runs(s, w, loads, validate, start, lastError, budget, calls, outcome)
      <==> && budget >= 1
           && calls[0].request == RequestFor(s, start)
           && Runs(s, w, loads, validate, start + [Feedback(w, v)], ErrorText(w, v), budget - 1, calls[1..], outcome)
  {
    var v := Judge(RawContent(calls[0].content), loads, validate);
    var vs := Verdicts(calls, loads, validate);
    var ws := Verdicts(calls[1..], loads, validate);
    VerdictsTail(calls, loads, validate);
    assert vs[..0] == [];
    var failedL := forall i | 0 <= i < |calls| - 1 :: !vs[i].Valid?;
    var failedR := forall i | 0 <= i < |calls| - 2 :: !ws[i].Valid?;
    assert failedL <==> failedR by {
      if failedR {
        forall i | 0 <= i < |calls| - 1 ensures !vs[i].Valid? {
          if i > 0 { assert vs[i] == ws[i - 1]; }
        }
      }
      if failedL {
        forall i | 0 <= i < |calls| - 2 ensures !ws[i].Valid? { assert vs[i + 1] == ws[i]; }
      }
    }
    if failedL {
      RequestsShift(s, w, start, calls, v, ws);
    }
    if budget >= 1 {
      EndsShift(s, w, lastError, budget, calls, v, ws, outcome);
    }
  }

  /** A run whose first reply failed ends as the rest of it, started with one
      attempt less and that failure's error recorded, does. */
  lemma EndsShift<R>(s: Settings, w: Wording, lastError: string, budget: int, calls: seq<Exchange>,
                     v: Verdict<R>, ws: seq<Verdict<R>>, outcome: Outcome<R>)
    requires |calls| == |ws| + 1 && !v.Valid? && budget >= 1
    ensures Ends(s, w, lastError, budget, calls, [v] + ws, outcome)
      <==> Ends(s, w, ErrorText(w, v), budget - 1, calls[1..], ws, outcome)
  {
    var vs := [v] + ws;
    if |calls| > 1 {
      assert vs[|calls| - 1] == ws[|calls| - 2];
      assert calls[1..][|calls| - 2] == calls[|calls| - 1];
    }
    assert AllFailed(vs) <==> AllFailed(ws) by {
      if AllFailed(ws) { FeedbacksCons(w, v, ws); }
      if AllFailed(vs) {
        forall i | 0 <= i < |ws| ensures !ws[i].Valid? { assert vs[i + 1] == ws[i]; }
      }
    }
  }

  /** Request i + 1 of a run whose first reply failed carries what request i
      of the rest of the run, started from the corrected conversation, does. */
  lemma RequestsShift<R>(s: Settings, w: Wording, start: seq<Message>, calls: seq<Exchange>, v: Verdict<R>, ws: seq<Verdict<R>>)
    requires |calls| == |ws| + 1 && !v.Valid?
    requires forall i | 0 <= i < |ws| - 1 :: !ws[i].Valid?
    ensures (forall i | 0 <= i < |calls| :: calls[i].request == RequestFor(s, start + Feedbacks(w, ([v] + ws)[..i])))
      <==> && calls[0].request == RequestFor(s, start)
           && forall i | 0 <= i < |calls| - 1 :: calls[1..][i].request == RequestFor(s, start + [Feedback(w, v)] + Feedbacks(w, ws[..i]))
  {
    var vs := [v] + ws;
    assert vs[..0] == [];
    forall i | 0 <= i < |ws|
      ensures start + Feedbacks(w, vs[..i + 1]) == start + [Feedback(w, v)] + Feedbacks(w, ws[..i])
    {
      ConversationShift(w, start, v, ws[..|ws| - 1], i);
      assert ws[..|ws| - 1][..i] == ws[..i];
      assert vs[..i + 1] == ([v] + ws[..|ws| - 1])[..i + 1];
    }
    if calls[0].request == RequestFor(s, start)
       && forall i | 0 <= i < |calls| - 1 :: calls[1..][i].request == RequestFor(s, start + [Feedback(w, v)] + Feedbacks(w, ws[..i]))
    {
      forall i | 0 <= i < |calls| ensures calls[i].request == RequestFor(s, start + Feedbacks(w, vs[..i])) {
        if i > 0 { assert calls[i] == calls[1..][i - 1]; }
      }
    }
  }

  /** A run whose first reply validates makes that one request and returns
      its record. */
  lemma RunsValidFirst<J, R>(s: Settings, w: Wording, loads: string -> Result<J, string>, validate: J -> Result<R, string>,
                             start: seq<Message>, lastError: string, budget: int,
                             calls: seq<Exchange>, outcome: Outcome<R>, record: R)
    requires |calls| > 0
    requires Judge(RawContent(calls[0].content), loads, validate) == Valid(record)
    ensures Runs(s, w, loads, validate, start, lastError, budget, calls, outcome)
      <==> && budget >= 1
           && |calls| == 1
           && calls[0].request == RequestFor(s, start)
           && outcome == Validated(record, RawContent(calls[0].content))
  {
    var vs := Verdicts(calls, loads, validate);
    assert vs[0] == Valid(record);
    assert vs[..0] == [];
  }

  /** The two descriptions of the loop agree: what every request carries and
      how the run ends, stated for all attempts at once, holds exactly when the
      loop, taken one iteration at a time, makes those requests and ends so. */
  lemma {:induction false} RunsIffIterates<J, R>(s: Settings, w: Wording, loads: string -> Result<J, string>, validate: J -> Result<R, string>,
                                                  start: seq<Message>, lastError: string, budget: int,
                                                  calls: seq<Exchange>, outcome: Outcome<R>)
    ensures Runs(s, w, loads, validate, start, lastError, budget, calls, outcome)
      <==> Iterates(s, w, loads, validate, start, lastError, budget, calls, outcome)
    decreases |calls|
  {
    if calls != [] && budget >= 1 {
      var v := Judge(RawContent(calls[0].content), loads, validate);
      if v.Valid? {
        RunsValidFirst(s, w, loads, validate, start, lastError, budget, calls, outcome, v.record);
      } else {
        RunsFailedFirst(s, w, loads, validate, start, lastError, budget, calls, outcome);
        RunsIffIterates(s, w, loads, validate, start + [Feedback(w, v)], ErrorText(w, v), budget - 1, calls[1..], outcome);
      }
    }
  }

  /** Two runs of the loop, taken one iteration at a time from the same
      conversation and settings, whose replies agree as far as both go made
      the same requests, stopped at the same point and ended the same way. */
  lemma {:induction false} IteratesDetermined<J, R>(s: Settings, w: Wording, loads: string -> Result<J, string>, validate: J -> Result<R, string>,
                                                      start: seq<Message>, lastError: string, budget: int,
                                                      calls: seq<Exchange>, outcome: Outcome<R>,
                                                      calls': seq<Exchange>, outcome': Outcome<R>)
    requires Iterates(s, w, loads, validate, start, lastError, budget, calls, outcome)
    requires Iterates(s, w, loads, validate, start, lastError, budget, calls', outcome')
    requires forall i | 0 <= i < |calls| && i < |calls'| :: calls[i].content == calls'[i].content
    ensures calls == calls' && outcome == outcome'
    decreases |calls|
  {
    if budget >= 1 {
      var v := Judge(RawContent(calls[0].content), loads, validate);
      assert calls[0] == calls'[0];
      if !v.Valid? {
        IteratesDetermined(s, w, loads, validate, start + [Feedback(w, v)], ErrorText(w, v), budget - 1,
                            calls[1..], outcome, calls'[1..], outcome');
        assert calls == [calls[0]] + calls[1..];
        assert calls' == [calls'[0]] + calls'[1..];
      }
    }
  }
}
