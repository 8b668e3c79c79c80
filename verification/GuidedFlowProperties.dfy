/** What every guided run satisfies, whatever the executor answers. */
module GuidedFlowProperties {
  import opened Base
  import opened GuidedTemplates
  import opened GuidedManifest
  import opened GuidedRuntime
  import H = InteractionHistory

  // ---------------------------------------------------------------------------
  // Retries
  // ---------------------------------------------------------------------------

  ghost predicate DrewRetryable(w: World, calls: seq<Operation>) {
    var a := w.execute(calls);
    a.Answer? && !a.late && Retryable(a.response)
  }

  /** The last call succeeded: an answer in time, no HTTP error, captures extracted, assertions met. */
  ghost predicate Accepted(w: World, step: Step, op: Operation, calls: seq<Operation>) {
    var a := w.execute(calls);
    && a.Answer? && !a.late && a.response.status < 400
    && w.adapt(op, a.response, Sources(step.captures)).Ok?
    && forall x :: x in step.assertions ==> w.holds(x, a.response)
  }

  lemma {:induction false} AssertionsAllHold(w: World, assertions: seq<Assertion>, response: Response)
    ensures EvaluateAssertions(w, assertions, response).None? <==> forall x :: x in assertions ==> w.holds(x, response)
  {
    if assertions == [] {
    } else {
      assert assertions == [assertions[0]] + assertions[1..];
      AssertionsAllHold(w, assertions[1..], response);
    }
  }

  /** A step repeats one operation, at most `limit` times; every attempt but the last drew a
      retryable answer in time, the last one did not unless the limit was reached, and the step
      succeeds exactly when the last answer is accepted. */
  lemma {:induction false} RetryDiscipline(
    w: World, protocol: ProtocolClass, step: Step, op: Operation, limit: nat,
    done: nat, last: Option<Response>, captures: map<string, string>, calls: seq<Operation>)
    requires done < limit
    ensures var a := Attempts(w, protocol, step, op, limit, done, last, captures, calls);
            && done < a.attempts <= limit
            && |a.calls| == |calls| + (a.attempts - done)
            && a.calls[..|calls|] == calls
            && (forall j :: |calls| <= j < |a.calls| ==> a.calls[j] == op)
            && (forall j :: |calls| < j < |a.calls| ==> DrewRetryable(w, a.calls[..j]))
            && (a.attempts < limit ==> !DrewRetryable(w, a.calls))
            && (a.error.None? <==> Accepted(w, step, op, a.calls))
    decreases limit - done
  {
    var a := Attempts(w, protocol, step, op, limit, done, last, captures, calls);
    var calls' := calls + [op];
    var first := w.execute(calls');
    if DrewRetryable(w, calls') && done + 1 < limit {
      RetryDiscipline(w, protocol, step, op, limit, done + 1, Some(first.response), captures, calls');
      assert a.calls[..|calls|] == a.calls[..|calls'|][..|calls|];
      assert a.calls[|calls|] == a.calls[..|calls'|][|calls|];
    } else {
      assert a.calls == calls' && a.attempts == done + 1;
      if first.Answer? {
        AssertionsAllHold(w, step.assertions, first.response);
      }
    }
  }

  // ---------------------------------------------------------------------------
  // Outcomes
  // ---------------------------------------------------------------------------

  function AttemptSum(outcomes: seq<StepOutcome>): nat {
    if outcomes == [] then 0 else outcomes[0].attempts + AttemptSum(outcomes[1..])
  }

  ghost predicate OutcomeOk(c: Setup, o: StepOutcome) {
    && (o.success <==> o.error.None?)
    && o.attempts <= c.limit
    && (o.attempts == 0 <==> o.error.Some? && o.error.value.Unresolved?)
  }

  /** Outcomes follow a prefix of the steps; all but the last succeeded; the flow failed exactly if
      the last did, and otherwise no step is missing. */
  ghost predicate Follows(c: Setup, outcomes: seq<StepOutcome>, steps: seq<Step>, failed: bool) {
    && |outcomes| <= |steps|
    && (forall i :: 0 <= i < |outcomes| ==> outcomes[i].id == steps[i].id && OutcomeOk(c, outcomes[i]))
    && (forall i :: 0 <= i < |outcomes| - 1 ==> outcomes[i].success)
    && (failed <==> outcomes != [] && !outcomes[|outcomes| - 1].success)
    && (!failed ==> |outcomes| == |steps|)
  }

  lemma StepShape(c: Setup, step: Step, r: Run)
    requires c.limit >= 1
    ensures var r' := RunStep(c, step, r);
            && |r'.outcomes| == |r.outcomes| + 1 && r'.outcomes == r.outcomes + [r'.outcomes[|r.outcomes|]]
            && OutcomeOk(c, r'.outcomes[|r.outcomes|]) && r'.outcomes[|r.outcomes|].id == step.id
            && (r'.failed <==> !r'.outcomes[|r.outcomes|].success)
            && |r'.calls| == |r.calls| + r'.outcomes[|r.outcomes|].attempts
  {
    hide ResolveOperation, Attempts, Recorded;
    var resolved := ResolveOperation(step.operation, c.Bindings(r.captures), c.world.generated, r.generated).0;
    if resolved.Ok? {
      RetryDiscipline(c.world, c.protocol, step, resolved.value, c.limit, 0, None, r.captures, r.calls);
      AttemptsResolve(c.world, c.protocol, step, resolved.value, c.limit, 0, None, r.captures, r.calls);
    }
  }

  lemma {:induction false} AttemptsResolve(
    w: World, protocol: ProtocolClass, step: Step, op: Operation, limit: nat,
    done: nat, last: Option<Response>, captures: map<string, string>, calls: seq<Operation>)
    requires done < limit
    ensures var e := Attempts(w, protocol, step, op, limit, done, last, captures, calls).error;
            e.Some? ==> !e.value.Unresolved?
    decreases limit - done
  {
    var calls' := calls + [op];
    var first := w.execute(calls');
    if DrewRetryable(w, calls') && done + 1 < limit {
      AttemptsResolve(w, protocol, step, op, limit, done + 1, Some(first.response), captures, calls');
    } else if first.Answer? {
      AssertionErrors(w, step.assertions, first.response);
    }
  }

  lemma {:induction false} AssertionErrors(w: World, assertions: seq<Assertion>, response: Response)
    ensures var e := EvaluateAssertions(w, assertions, response); e.Some? ==> e.value.AssertionFailed?
  {
    if assertions == [] {
    } else {
      AssertionErrors(w, assertions[1..], response);
    }
  }

  lemma {:induction false} RunShape(c: Setup, steps: seq<Step>, r: Run) returns (added: seq<StepOutcome>)
    requires c.limit >= 1 && !r.failed
    ensures var r' := RunSteps(c, steps, r);
            && r'.outcomes == r.outcomes + added
            && Follows(c, added, steps, r'.failed)
            && |r'.calls| == |r.calls| + AttemptSum(added)
    decreases |steps|
  {
    hide RunStep, Follows, OutcomeOk;
    if steps == [] {
      added := [];
      NothingFollows(c);
    } else {
      var r1 := RunStep(c, steps[0], r);
      StepShape(c, steps[0], r);
      var first := r1.outcomes[|r.outcomes|];
      if r1.failed {
        added := [first];
        assert RunSteps(c, steps[1..], r1) == r1;
        FailureFollows(c, first, steps);
      } else {
        var rest := RunShape(c, steps[1..], r1);
        added := [first] + rest;
        FollowsMore(c, first, rest, steps, RunSteps(c, steps, r).failed);
        assert added[1..] == rest;
        assert r.outcomes + [first] + rest == r.outcomes + added;
      }
    }
  }

  lemma NothingFollows(c: Setup)
    ensures Follows(c, [], [], false)
  {
  }

  lemma FailureFollows(c: Setup, first: StepOutcome, steps: seq<Step>)
    requires steps != [] && first.id == steps[0].id && OutcomeOk(c, first) && !first.success
    ensures Follows(c, [first], steps, true)
  {
  }

  lemma FollowsMore(c: Setup, first: StepOutcome, rest: seq<StepOutcome>, steps: seq<Step>, failed: bool)
    requires steps != [] && first.id == steps[0].id && OutcomeOk(c, first) && first.success
    requires Follows(c, rest, steps[1..], failed)
    ensures Follows(c, [first] + rest, steps, failed)
  {
  }

  // ---------------------------------------------------------------------------
  // Cleanup
  // ---------------------------------------------------------------------------

  /** How many of the steps resolve. */
  function Resolvable(c: Setup, steps: seq<Step>, captures: map<string, string>, n: nat): nat
    decreases |steps|
  {
    if steps == [] then 0
    else
      var (resolved, n') := ResolveOperation(steps[0].operation, c.Bindings(captures), c.world.generated, n);
      (if resolved.Ok? then 1 else 0) + Resolvable(c, steps[1..], captures, n')
  }

  lemma {:induction false} CleanShape(c: Setup, steps: seq<Step>, captures: map<string, string>, r: Cleaning)
    ensures var r' := Clean(c, steps, captures, r);
            && |r'.outcomes| == |r.outcomes| + |steps|
            && r'.outcomes[..|r.outcomes|] == r.outcomes
            && (forall i :: 0 <= i < |steps| ==> r'.outcomes[|r.outcomes| + i].id == steps[i].id)
            && |r'.calls| == |r.calls| + Resolvable(c, steps, captures, r.generated)
    decreases |steps|
  {
    hide ResolveOperation;
    if steps == [] {
    } else {
      var r1 := CleanStep(c, steps[0], captures, r);
      CleanShape(c, steps[1..], captures, r1);
      var r' := Clean(c, steps, captures, r);
      assert r'.outcomes[..|r.outcomes|] == r'.outcomes[..|r1.outcomes|][..|r.outcomes|];
      assert r'.outcomes[|r.outcomes|] == r'.outcomes[..|r1.outcomes|][|r.outcomes|];
      forall i | 0 <= i < |steps| ensures r'.outcomes[|r.outcomes| + i].id == steps[i].id {
        if i > 0 {
          assert r'.outcomes[|r1.outcomes| + (i - 1)].id == steps[1..][i - 1].id;
        }
      }
    }
  }

  // ---------------------------------------------------------------------------
  // Main results
  // ---------------------------------------------------------------------------

  /** The report of a whole run: outcomes follow a prefix of the steps and only the last may have
      failed; the flow succeeded exactly if every step did; cleanup reports on every cleanup step in
      order, after failures too; and the executor was called once per attempt and once per cleanup
      step that could be resolved. */
  lemma FlowReport(c: Setup, flow: Flow, captures: map<string, string>, calls: seq<Operation>,
                   history: seq<H.Entry<Operation>>, n: nat)
    requires c.limit >= 1
    ensures var r := RunSteps(c, flow.steps, Run(false, [], captures, calls, history, n));
            var k := Clean(c, flow.cleanup, r.captures, Cleaning([], r.calls, r.generated));
            && Follows(c, r.outcomes, flow.steps, r.failed)
            && (!r.failed <==>
                  |r.outcomes| == |flow.steps| && forall i :: 0 <= i < |r.outcomes| ==> r.outcomes[i].success)
            && |k.outcomes| == |flow.cleanup|
            && (forall i :: 0 <= i < |flow.cleanup| ==> k.outcomes[i].id == flow.cleanup[i].id)
            && |k.calls| == |calls| + AttemptSum(r.outcomes) + Resolvable(c, flow.cleanup, r.captures, r.generated)
  {
    hide RunSteps, Clean, Resolvable;
    var r := RunSteps(c, flow.steps, Run(false, [], captures, calls, history, n));
    var outcomes := RunShape(c, flow.steps, Run(false, [], captures, calls, history, n));
    assert [] + outcomes == outcomes;
    CleanShape(c, flow.cleanup, r.captures, Cleaning([], r.calls, r.generated));
  }

  /** In a flow of a linted manifest whose required inputs are supplied, no step ever fails to
      resolve except on a context or capture name that is not bound. */
  lemma {:induction false} LintedRunNeverStuck(m: Manifest, f: nat, c: Setup, steps: seq<Step>, r: Run, i: nat)
    requires Issues(m.flows, |m.flows|) == [] && f < |m.flows|
    requires StepsRequired(m.flows[f].steps + m.flows[f].cleanup) <= c.inputs.Keys
    requires c.limit >= 1 && !r.failed && forall s :: s in steps ==> s in m.flows[f].steps
    requires |r.outcomes| <= i < |RunSteps(c, steps, r).outcomes|
    ensures var e := RunSteps(c, steps, r).outcomes[i].error;
            e.Some? && e.value.Unresolved? ==> e.value.cause.Missing? && e.value.cause.source != Inputs
    decreases |steps|
  {
    hide Issues, StepsRequired, ResolveOperation, Attempts, Recorded, Texts;
    if steps == [] {
    } else {
      var r1 := RunStep(c, steps[0], r);
      assert forall s :: s in steps[1..] ==> s in steps;
      StepShape(c, steps[0], r);
      if i == |r.outcomes| {
        LintSoundness(m, f, steps[0], c.Bindings(r.captures), c.world.generated, r.generated);
        var resolved := ResolveOperation(steps[0].operation, c.Bindings(r.captures), c.world.generated, r.generated).0;
        if resolved.Ok? {
          AttemptsResolve(c.world, c.protocol, steps[0], resolved.value, c.limit, 0, None, r.captures, r.calls);
        }
        OutcomesKept(c, steps[1..], r1);
      } else {
        LintedRunNeverStuck(m, f, c, steps[1..], r1, i);
      }
    }
  }

  lemma {:induction false} OutcomesKept(c: Setup, steps: seq<Step>, r: Run)
    requires c.limit >= 1
    ensures r.outcomes <= RunSteps(c, steps, r).outcomes
    decreases |steps|
  {
    hide RunStep;
    if steps != [] && !r.failed {
      StepShape(c, steps[0], r);
      OutcomesKept(c, steps[1..], RunStep(c, steps[0], r));
    }
  }

  // ---------------------------------------------------------------------------
  // History
  // ---------------------------------------------------------------------------

  /** What a step adds to the history: its operation with the last response, if there was one. */
  function ExchangeOf(c: Setup, step: Step, r: Run): seq<H.Exchange<Operation>>
    requires c.limit >= 1
  {
    var resolved := ResolveOperation(step.operation, c.Bindings(r.captures), c.world.generated, r.generated).0;
    if resolved.Err? then []
    else
      var a := Attempts(c.world, c.protocol, step, resolved.value, c.limit, 0, None, r.captures, r.calls);
      if a.response.None? then [] else [H.Exchange(c.service, a.response.value.status, resolved.value)]
  }

  function Exchanges(c: Setup, steps: seq<Step>, r: Run): seq<H.Exchange<Operation>>
    requires c.limit >= 1
    decreases |steps|
  {
    if steps == [] || r.failed then []
    else ExchangeOf(c, steps[0], r) + Exchanges(c, steps[1..], RunStep(c, steps[0], r))
  }

  lemma RecordedMore(xs: seq<H.Exchange<Operation>>, x: H.Exchange<Operation>, capacity: nat)
    ensures var before := H.Recorded(xs, capacity);
            H.Recorded(xs + [x], capacity)
            == H.Pushed(before, H.Entry(H.NextIdOf(before), x.service, x.status, x.request), capacity)
  {
    assert (xs + [x])[..|xs + [x]| - 1] == xs;
  }

  lemma StepIsRecorded(c: Setup, step: Step, r: Run, xs: seq<H.Exchange<Operation>>)
    requires c.limit >= 1 && r.history == H.Recorded(xs, c.capacity)
    ensures RunStep(c, step, r).history == H.Recorded(xs + ExchangeOf(c, step, r), c.capacity)
  {
    hide ResolveOperation, Attempts, H.Pushed, H.Recorded, H.NextIdOf;
    var more := ExchangeOf(c, step, r);
    if more == [] {
      assert xs + more == xs;
    } else {
      RecordedMore(xs, more[0], c.capacity);
    }
  }

  /** A run extends the history by one exchange for each step that drew a response, in order. */
  lemma {:induction false} RunIsRecorded(c: Setup, steps: seq<Step>, r: Run, xs: seq<H.Exchange<Operation>>)
    requires c.limit >= 1 && r.history == H.Recorded(xs, c.capacity)
    ensures RunSteps(c, steps, r).history == H.Recorded(xs + Exchanges(c, steps, r), c.capacity)
    decreases |steps|
  {
    hide RunStep, ExchangeOf, H.Recorded;
    if steps == [] || r.failed {
      assert xs + [] == xs;
    } else {
      var first := ExchangeOf(c, steps[0], r);
      StepIsRecorded(c, steps[0], r, xs);
      RunIsRecorded(c, steps[1..], RunStep(c, steps[0], r), xs + first);
      assert xs + first + Exchanges(c, steps[1..], RunStep(c, steps[0], r)) == xs + Exchanges(c, steps, r);
    }
  }

  // ---------------------------------------------------------------------------
  // What a step reports and what it binds
  // ---------------------------------------------------------------------------

  /** A name that the step captures and the adapter found is bound to what was found; every other keeps its value. */
  lemma {:induction false} BindMeans(list: seq<Capture>, extracted: map<string, string>, bound: map<string, string>,
                                     x: string)
    ensures var r := Bind(list, extracted, bound);
            if x in extracted && exists k :: k in list && k.name == x then x in r && r[x] == extracted[x]
            else (x in r <==> x in bound) && (x in bound ==> r[x] == bound[x])
  {
    if list == [] {
    } else {
      assert forall k :: k in list <==> k == list[0] || k in list[1..];
      var next := if list[0].name in extracted then bound[list[0].name := extracted[list[0].name]] else bound;
      BindMeans(list[1..], extracted, next, x);
    }
  }

  /** Of two captures of one name, the adapter is given the source of the later. */
  lemma {:induction false} SourcesMean(captures: seq<Capture>, x: string)
    ensures x in Sources(captures) <==> exists k :: k in captures && k.name == x
    ensures forall i :: 0 <= i < |captures| && captures[i].name == x
                        && (forall j :: i < j < |captures| ==> captures[j].name != x) ==>
                          Sources(captures)[x] == captures[i].source
  {
    if captures == [] {
    } else {
      var n := |captures| - 1;
      SourcesMean(captures[..n], x);
      assert captures == captures[..n] + [captures[n]];
    }
  }

  /** The first assertion that does not hold, or none. */
  ghost predicate IsFirstBroken(w: World, assertions: seq<Assertion>, response: Response, error: Option<FlowError>) {
    match error
    case None => forall x :: x in assertions ==> w.holds(x, response)
    case Some(AssertionFailed(x)) =>
      exists k :: 0 <= k < |assertions| && assertions[k] == x && !w.holds(x, response)
                  && forall j :: 0 <= j < k ==> w.holds(assertions[j], response)
    case _ => false
  }

  lemma {:induction false} FirstBroken(w: World, assertions: seq<Assertion>, response: Response)
    ensures IsFirstBroken(w, assertions, response, EvaluateAssertions(w, assertions, response))
  {
    if assertions == [] {
    } else if !w.holds(assertions[0], response) {
      assert assertions[0] == assertions[0];
    } else {
      FirstBroken(w, assertions[1..], response);
      var error := EvaluateAssertions(w, assertions[1..], response);
      assert assertions == [assertions[0]] + assertions[1..];
      if error.Some? {
        var x := error.value.assertion;
        var k :| 0 <= k < |assertions[1..]| && assertions[1..][k] == x && !w.holds(x, response)
                 && forall j :: 0 <= j < k ==> w.holds(assertions[1..][j], response);
        forall j | 0 <= j < k + 1 ensures w.holds(assertions[j], response) {
          if j > 0 {
            assert assertions[j] == assertions[1..][j - 1];
          }
        }
        assert assertions[k + 1] == x;
      }
    }
  }

  predicate AnsweredInTime(a: Answer) {
    a.Answer? && !a.late
  }

  /** What the last answer makes of a step: its error, and the captures after it. */
  ghost predicate IsVerdict(w: World, protocol: ProtocolClass, step: Step, op: Operation, answer: Answer,
                            error: Option<FlowError>, before: map<string, string>, after: map<string, string>)
  {
    match answer
    case Failure(message) => error == Some(ExecutionError(message)) && after == before
    case Answer(r, late) =>
      if late then error == Some(StepTimeout) && after == before
      else if r.status >= 400 then
        && after == before && error.Some? && error.value.ProtocolError?
        && var e := error.value.error;
        && e.message == r.body && e.retryable == (r.status == 429 || r.status >= 500)
        && match protocol
           case Query => e.code == "query_error"
           case JsonTarget => e.code == "json_target_error"
           case RestXml => e.code == "rest_xml_error"
           case RestJson => e.code == "rest_json_error"
      else match w.adapt(op, r, Sources(step.captures))
        case Err(message) => error == Some(AdapterFailed(message)) && after == before
        case Ok(extracted) =>
          IsFirstBroken(w, step.assertions, r, error) && after == Bind(step.captures, extracted, before)
  }

  /** A step ends with what its last answer makes of it, and that answer is the one reported; if there was none in time,
      it is the one before, or none. */
  lemma {:induction false} AttemptsVerdict(
    w: World, protocol: ProtocolClass, step: Step, op: Operation, limit: nat,
    done: nat, last: Option<Response>, captures: map<string, string>, calls: seq<Operation>)
    requires done < limit
    ensures var a := Attempts(w, protocol, step, op, limit, done, last, captures, calls);
            && a.attempts > done && |a.calls| == |calls| + (a.attempts - done)
            && IsVerdict(w, protocol, step, op, w.execute(a.calls), a.error, captures, a.captures)
            && if AnsweredInTime(w.execute(a.calls)) then a.response == Some(w.execute(a.calls).response)
               else if a.attempts == done + 1 then a.response == last
               else
                 var earlier := w.execute(a.calls[..|a.calls| - 1]);
                 AnsweredInTime(earlier) && a.response == Some(earlier.response)
    decreases limit - done
  {
    var calls' := calls + [op];
    var first := w.execute(calls');
    if DrewRetryable(w, calls') && done + 1 < limit {
      hide IsVerdict;
      var a := Attempts(w, protocol, step, op, limit, done + 1, Some(first.response), captures, calls');
      AttemptsVerdict(w, protocol, step, op, limit, done + 1, Some(first.response), captures, calls');
      if a.attempts == done + 2 {
        RetryDiscipline(w, protocol, step, op, limit, done + 1, Some(first.response), captures, calls');
        assert a.calls[..|a.calls| - 1] == calls';
      }
    } else {
      LastAttempt(w, protocol, step, op, limit, done, last, captures, calls);
    }
  }

  lemma LastAttempt(
    w: World, protocol: ProtocolClass, step: Step, op: Operation, limit: nat,
    done: nat, last: Option<Response>, captures: map<string, string>, calls: seq<Operation>)
    requires done < limit && (DrewRetryable(w, calls + [op]) ==> done + 1 == limit)
    ensures var a := Attempts(w, protocol, step, op, limit, done, last, captures, calls);
            var answer := w.execute(calls + [op]);
            && a.attempts == done + 1 && a.calls == calls + [op]
            && IsVerdict(w, protocol, step, op, answer, a.error, captures, a.captures)
            && a.response == if AnsweredInTime(answer) then Some(answer.response) else last
  {
    var first := w.execute(calls + [op]);
    if first.Answer? {
      FirstBroken(w, step.assertions, first.response);
    }
  }

  /** The report of a step that could be resolved: the status and the error of its last answer, and the captures for
      the steps after it, which see the inputs and the context as they were. */
  lemma StepReport(c: Setup, step: Step, r: Run, op: Operation)
    requires c.limit >= 1
    requires ResolveOperation(step.operation, c.Bindings(r.captures), c.world.generated, r.generated).0 == Ok(op)
    ensures var r' := RunStep(c, step, r);
            && |r'.outcomes| == |r.outcomes| + 1
            && var o, answer := r'.outcomes[|r.outcomes|], c.world.execute(r'.calls);
            && o.id == step.id && |r'.calls| == |r.calls| + o.attempts && o.attempts >= 1
            && IsVerdict(c.world, c.protocol, step, op, answer, o.error, r.captures, r'.captures)
            && (AnsweredInTime(answer) ==> o.status == Some(answer.response.status))
            && (!AnsweredInTime(answer) && o.attempts == 1 ==> o.status == None)
            && (!AnsweredInTime(answer) && o.attempts > 1 ==>
                  var earlier := c.world.execute(r'.calls[..|r'.calls| - 1]);
                  earlier.Answer? && o.status == Some(earlier.response.status))
            && c.Bindings(r'.captures).captures == r'.captures
            && c.Bindings(r'.captures).inputs == c.inputs && c.Bindings(r'.captures).context == c.context
  {
    hide ResolveOperation, Attempts, Recorded, IsVerdict;
    AttemptsVerdict(c.world, c.protocol, step, op, c.limit, 0, None, r.captures, r.calls);
  }

  /** So a name that an accepted step extracts is what the next step's `captures.` expression stands for. */
  lemma CaptureReachesNextStep(c: Setup, step: Step, r: Run, op: Operation, x: string, next: string)
    requires c.limit >= 1
    requires ResolveOperation(step.operation, c.Bindings(r.captures), c.world.generated, r.generated).0 == Ok(op)
    requires (exists k :: k in step.captures && k.name == x) && Accepted(c.world, step, op, RunStep(c, step, r).calls)
    ensures var r' := RunStep(c, step, r);
            var extracted := c.world.adapt(op, c.world.execute(r'.calls).response, Sources(step.captures)).value;
            x in extracted ==>
              forall v :: Denotes("captures." + x, c.Bindings(r'.captures), next, Ok(v)) ==> v == extracted[x]
  {
    hide ResolveOperation, RunStep;
    StepReport(c, step, r, op);
    var r' := RunStep(c, step, r);
    var extracted := c.world.adapt(op, c.world.execute(r'.calls).response, Sources(step.captures)).value;
    BindMeans(step.captures, extracted, r.captures, x);
  }

  /** A cleanup step succeeded exactly if it could be resolved and was answered below 400, late or not. */
  lemma {:induction false} CleanupReport(c: Setup, steps: seq<Step>, captures: map<string, string>, r: Cleaning, i: nat)
    requires i < |steps|
    ensures var before, after := Clean(c, steps[..i], captures, r), Clean(c, steps, captures, r);
            var resolved := ResolveOperation(steps[i].operation, c.Bindings(captures), c.world.generated,
                                             before.generated).0;
            |after.outcomes| > |r.outcomes| + i
            && (after.outcomes[|r.outcomes| + i].success <==>
                 resolved.Ok?
                 && var answer := c.world.execute(before.calls + [resolved.value]);
                    answer.Answer? && answer.response.status < 400)
    decreases |steps|
  {
    hide ResolveOperation;
    var first := CleanStep(c, steps[0], captures, r);
    if i == 0 {
      CleanShape(c, steps[1..], captures, first);
      assert Clean(c, steps, captures, r).outcomes[|r.outcomes|] == first.outcomes[|r.outcomes|] by {
        assert Clean(c, steps, captures, r).outcomes[..|first.outcomes|] == first.outcomes;
      }
    } else {
      assert steps[..i][1..] == steps[1..][..i - 1];
      CleanupReport(c, steps[1..], captures, first, i - 1);
    }
  }
}
