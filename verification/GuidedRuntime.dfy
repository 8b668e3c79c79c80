/** The guided-flow runner: steps with retries, early stop, captures, history and cleanup. */
module GuidedRuntime {
  import opened Base
  import opened GuidedTemplates
  import opened GuidedManifest
  import H = InteractionHistory

  datatype Response = Response(status: nat, headers: map<string, string>, body: string)

  datatype AdapterError = AdapterError(code: string, message: string, retryable: bool)

  /** What the executor answers; `late` says that the step timeout, if there is one, was exceeded. */
  datatype Answer = Answer(response: Response, late: bool) | Failure(message: string)

  /** The outside world: the executor (any function of the calls made so far, the last one being the
      one to answer), the protocol adapter's captures, assertions, and random or clock texts. */
  datatype World = World(
    execute: seq<Operation> -> Answer,
    adapt: (Operation, Response, map<string, string>) -> Result<map<string, string>, string>,
    holds: (Assertion, Response) -> bool,
    generated: Generated)

  datatype FlowError =
    | Unresolved(cause: ResolveError)
    | ExecutionError(message: string)
    | StepTimeout
    | ProtocolError(error: AdapterError)
    | AssertionFailed(assertion: Assertion)
    | AdapterFailed(message: string)

  datatype StepOutcome = StepOutcome(id: string, success: bool, attempts: nat, status: Option<nat>,
                                     error: Option<FlowError>)

  datatype CleanupOutcome = CleanupOutcome(id: string, success: bool)

  datatype Report = Report(succeeded: bool, outcomes: seq<StepOutcome>, cleanup: seq<CleanupOutcome>,
                           captures: map<string, string>)

  function ErrorCode(protocol: ProtocolClass): string {
    match protocol
    case Query => "query_error"
    case JsonTarget => "json_target_error"
    case RestXml => "rest_xml_error"
    case RestJson => "rest_json_error"
  }

  predicate Retryable(response: Response) {
    response.status == 429 || response.status >= 500
  }

  /** `normalize_error`. */
  function NormalizeError(protocol: ProtocolClass, response: Response): Option<AdapterError> {
    if response.status < 400 then None
    else Some(AdapterError(ErrorCode(protocol), response.body, Retryable(response)))
  }

  function EvaluateAssertions(w: World, assertions: seq<Assertion>, response: Response): Option<FlowError> {
    if assertions == [] then None
    else if !w.holds(assertions[0], response) then Some(AssertionFailed(assertions[0]))
    else EvaluateAssertions(w, assertions[1..], response)
  }

  /** The capture list as a map: of two captures with one name the later counts. */
  function Sources(captures: seq<Capture>): map<string, string> {
    if captures == [] then map[]
    else Sources(captures[..|captures| - 1])[captures[|captures| - 1].name := captures[|captures| - 1].source]
  }

  /** `apply_capture_bindings`. */
  function Bind(captures: seq<Capture>, extracted: map<string, string>, bound: map<string, string>)
    : map<string, string>
  {
    if captures == [] then bound
    else Bind(captures[1..], extracted,
              if captures[0].name in extracted then bound[captures[0].name := extracted[captures[0].name]] else bound)
  }

  // ---------------------------------------------------------------------------
  // One step
  // ---------------------------------------------------------------------------

  datatype Attempted = Attempted(
    attempts: nat, response: Option<Response>, error: Option<FlowError>, captures: map<string, string>,
    calls: seq<Operation>)

  function Complete(w: World, step: Step, op: Operation, response: Response, captures: map<string, string>)
    : (Option<FlowError>, map<string, string>)
  {
    match w.adapt(op, response, Sources(step.captures))
    case Err(message) => (Some(AdapterFailed(message)), captures)
    case Ok(extracted) => (EvaluateAssertions(w, step.assertions, response), Bind(step.captures, extracted, captures))
  }

  /** The attempts at a step whose first `done` attempts all drew retryable errors. */
  function Attempts(w: World, protocol: ProtocolClass, step: Step, op: Operation, limit: nat,
                    done: nat, last: Option<Response>, captures: map<string, string>, calls: seq<Operation>): Attempted
    requires done < limit
    decreases limit - done
  {
    var calls' := calls + [op];
    match w.execute(calls')
    case Failure(message) => Attempted(done + 1, last, Some(ExecutionError(message)), captures, calls')
    case Answer(response, late) =>
      if late then Attempted(done + 1, last, Some(StepTimeout), captures, calls')
      else match NormalizeError(protocol, response)
        case Some(error) =>
          if error.retryable && done + 1 < limit then
            Attempts(w, protocol, step, op, limit, done + 1, Some(response), captures, calls')
          else Attempted(done + 1, Some(response), Some(ProtocolError(error)), captures, calls')
        case None =>
          var (error, captures') := Complete(w, step, op, response, captures);
          Attempted(done + 1, Some(response), error, captures', calls')
  }

  // ---------------------------------------------------------------------------
  // The whole flow
  // ---------------------------------------------------------------------------

  datatype Run = Run(
    failed: bool, outcomes: seq<StepOutcome>, captures: map<string, string>, calls: seq<Operation>,
    history: seq<H.Entry<Operation>>, generated: nat)

  datatype Setup = Setup(
    world: World, service: string, protocol: ProtocolClass, limit: nat, capacity: nat,
    inputs: map<string, string>, context: map<string, string>)
  {
    function Bindings(captures: map<string, string>): Bindings {
      GuidedTemplates.Bindings.Bindings(inputs, context, captures)
    }
  }

  function Recorded(c: Setup, history: seq<H.Entry<Operation>>, op: Operation, response: Option<Response>)
    : seq<H.Entry<Operation>>
  {
    match response
    case None => history
    case Some(r) => H.Pushed(history, H.Entry(H.NextIdOf(history), c.service, r.status, op), c.capacity)
  }

  function Status(response: Option<Response>): Option<nat> {
    match response case None => None case Some(r) => Some(r.status)
  }

  function RunStep(c: Setup, step: Step, r: Run): Run
    requires c.limit >= 1
  {
    var (resolved, n) := ResolveOperation(step.operation, c.Bindings(r.captures), c.world.generated, r.generated);
    match resolved
    case Err(cause) =>
      r.(failed := true, generated := n,
         outcomes := r.outcomes + [StepOutcome(step.id, false, 0, None, Some(Unresolved(cause)))])
    case Ok(op) =>
      var a := Attempts(c.world, c.protocol, step, op, c.limit, 0, None, r.captures, r.calls);
      Run(a.error.Some?, r.outcomes + [StepOutcome(step.id, a.error.None?, a.attempts, Status(a.response), a.error)],
          a.captures, a.calls, Recorded(c, r.history, op, a.response), n)
  }

  function RunSteps(c: Setup, steps: seq<Step>, r: Run): Run
    requires c.limit >= 1
    decreases |steps|
  {
    if steps == [] || r.failed then r else RunSteps(c, steps[1..], RunStep(c, steps[0], r))
  }

  datatype Cleaning = Cleaning(outcomes: seq<CleanupOutcome>, calls: seq<Operation>, generated: nat)

  function CleanStep(c: Setup, step: Step, captures: map<string, string>, r: Cleaning): Cleaning {
    var (resolved, n) := ResolveOperation(step.operation, c.Bindings(captures), c.world.generated, r.generated);
    match resolved
    case Err(_) => Cleaning(r.outcomes + [CleanupOutcome(step.id, false)], r.calls, n)
    case Ok(op) =>
      var calls := r.calls + [op];
      var answer := c.world.execute(calls);
      var success := answer.Answer? && NormalizeError(c.protocol, answer.response).None?;
      Cleaning(r.outcomes + [CleanupOutcome(step.id, success)], calls, n)
  }

  function Clean(c: Setup, steps: seq<Step>, captures: map<string, string>, r: Cleaning): Cleaning
    decreases |steps|
  {
    if steps == [] then r else Clean(c, steps[1..], captures, CleanStep(c, steps[0], captures, r))
  }

  // ---------------------------------------------------------------------------
  // The runner
  // ---------------------------------------------------------------------------

  class Executor {
    const answer: seq<Operation> -> Answer
    var calls: seq<Operation>

    constructor (answer: seq<Operation> -> Answer)
      ensures this.answer == answer && calls == []
    {
      this.answer := answer;
      calls := [];
    }

    method Execute(op: Operation) returns (a: Answer)
      modifies this`calls
      ensures calls == old(calls) + [op] && a == answer(calls)
    {
      calls := calls + [op];
      a := answer(calls);
    }
  }

  class BindingContext {
    const inputs: map<string, string>
    const context: map<string, string>
    var captures: map<string, string>

    constructor (inputs: map<string, string>)
      ensures this.inputs == inputs && context == map[] && captures == map[]
    {
      this.inputs, context, captures := inputs, map[], map[];
    }

    /** `apply_capture_bindings`. */
    method Apply(list: seq<Capture>, extracted: map<string, string>)
      modifies this`captures
      ensures captures == Bind(list, extracted, old(captures))
    {
      assert list[0..] == list;
      for i := 0 to |list|
        invariant Bind(list, extracted, old(captures)) == Bind(list[i..], extracted, captures)
      {
        assert list[i..][1..] == list[i + 1..];
        if list[i].name in extracted {
          captures := captures[list[i].name := extracted[list[i].name]];
        }
      }
    }
  }

  method RunAttempts(w: World, protocol: ProtocolClass, step: Step, op: Operation, limit: nat, executor: Executor,
                     ctx: BindingContext)
    returns (attempts: nat, response: Option<Response>, error: Option<FlowError>)
    requires limit >= 1 && executor.answer == w.execute
    modifies executor`calls, ctx`captures
    ensures Attempted(attempts, response, error, ctx.captures, executor.calls) ==
            Attempts(w, protocol, step, op, limit, 0, None, old(ctx.captures), old(executor.calls))
  {
    attempts, response, error := 0, None, None;
    while attempts < limit
      invariant attempts < limit && ctx.captures == old(ctx.captures)
      invariant Attempts(w, protocol, step, op, limit, 0, None, old(ctx.captures), old(executor.calls)) ==
                Attempts(w, protocol, step, op, limit, attempts, response, ctx.captures, executor.calls)
    {
      attempts := attempts + 1;
      var a := executor.Execute(op);
      if a.Failure? {
        return attempts, response, Some(ExecutionError(a.message));
      }
      if a.late {
        return attempts, response, Some(StepTimeout);
      }
      var normalized := NormalizeError(protocol, a.response);
      response := Some(a.response);
      if normalized.Some? {
        if normalized.value.retryable && attempts < limit {
          continue;
        }
        return attempts, response, Some(ProtocolError(normalized.value));
      }
      match w.adapt(op, a.response, Sources(step.captures)) {
        case Err(message) => error := Some(AdapterFailed(message));
        case Ok(extracted) =>
          ctx.Apply(step.captures, extracted);
          error := EvaluateAssertions(w, step.assertions, a.response);
      }
      return;
    }
  }

  ghost function Begin(executor: Executor, history: H.History<Operation>, ctx: BindingContext, n: nat): Run
    reads executor, history, ctx
  {
    Run(false, [], ctx.captures, executor.calls, history.entries, n)
  }

  /** `run_guided_flow`: the report, the calls and the history are those of `RunSteps` and `Clean`. */
  method RunGuidedFlow(c: Setup, flow: Flow, maxAttempts: nat, executor: Executor, history: H.History<Operation>,
                       ctx: BindingContext, start: nat)
    returns (report: Report, n: nat)
    requires c.limit == Max(1, maxAttempts) && c.world.execute == executor.answer && c.capacity == history.maxEntries
    requires c.inputs == ctx.inputs && c.context == ctx.context
    modifies executor`calls, history`entries, ctx`captures
    ensures var r := RunSteps(c, flow.steps, old(Begin(executor, history, ctx, start)));
            var k := Clean(c, flow.cleanup, r.captures, Cleaning([], r.calls, r.generated));
            && report == Report(!r.failed, r.outcomes, k.outcomes, r.captures)
            && executor.calls == k.calls && history.entries == r.history && ctx.captures == r.captures
            && n == k.generated
  {
    hide ResolveOperation, Attempts, Recorded;
    var failed, outcomes := false, [];
    n := start;
    ghost var begin := Begin(executor, history, ctx, start);
    var i := 0;
    assert flow.steps[0..] == flow.steps;
    while i < |flow.steps| && !failed
      invariant 0 <= i <= |flow.steps|
      invariant RunSteps(c, flow.steps, begin) ==
                RunSteps(c, flow.steps[i..], Run(failed, outcomes, ctx.captures, executor.calls, history.entries, n))
    {
      var step := flow.steps[i];
      assert flow.steps[i..][1..] == flow.steps[i + 1..];
      failed, outcomes, n := PerformStep(c, step, outcomes, executor, history, ctx, n);
      i := i + 1;
    }
    var cleanup;
    cleanup, n := RunCleanup(c, flow.cleanup, executor, ctx, n);
    report := Report(!failed, outcomes, cleanup, ctx.captures);
  }

  method PerformStep(c: Setup, step: Step, outcomes: seq<StepOutcome>, executor: Executor,
                     history: H.History<Operation>, ctx: BindingContext, n: nat)
    returns (failed: bool, outcomes': seq<StepOutcome>, n': nat)
    requires c.limit >= 1 && c.world.execute == executor.answer && c.capacity == history.maxEntries
    requires c.inputs == ctx.inputs && c.context == ctx.context
    modifies executor`calls, history`entries, ctx`captures
    ensures Run(failed, outcomes', ctx.captures, executor.calls, history.entries, n') ==
            RunStep(c, step, old(Run(false, outcomes, ctx.captures, executor.calls, history.entries, n)))
  {
    hide ResolveOperation, Attempts, H.Pushed, H.NextIdOf;
    var resolved;
    resolved, n' := InterpolateOperation(step.operation, c.Bindings(ctx.captures), c.world.generated, n);
    if resolved.Err? {
      return true, outcomes + [StepOutcome(step.id, false, 0, None, Some(Unresolved(resolved.error)))], n';
    }
    var op := resolved.value;
    var attempts, response, error := RunAttempts(c.world, c.protocol, step, op, c.limit, executor, ctx);
    if response.Some? {
      var id := history.NextId();
      history.Push(H.Entry(id, c.service, response.value.status, op));
    }
    failed := error.Some?;
    outcomes' := outcomes + [StepOutcome(step.id, !failed, attempts, Status(response), error)];
  }

  /** `run_cleanup`: never stops early and keeps no captures. */
  method RunCleanup(c: Setup, steps: seq<Step>, executor: Executor, ctx: BindingContext, start: nat)
    returns (outcomes: seq<CleanupOutcome>, n: nat)
    requires c.world.execute == executor.answer && c.inputs == ctx.inputs && c.context == ctx.context
    modifies executor`calls
    ensures Cleaning(outcomes, executor.calls, n)
            == Clean(c, steps, ctx.captures, Cleaning([], old(executor.calls), start))
  {
    hide ResolveOperation;
    outcomes, n := [], start;
    assert steps[0..] == steps;
    for i := 0 to |steps|
      invariant Clean(c, steps, ctx.captures, Cleaning([], old(executor.calls), start)) ==
                Clean(c, steps[i..], ctx.captures, Cleaning(outcomes, executor.calls, n))
    {
      assert steps[i..][1..] == steps[i + 1..];
      var resolved;
      resolved, n := InterpolateOperation(steps[i].operation, c.Bindings(ctx.captures), c.world.generated, n);
      if resolved.Err? {
        outcomes := outcomes + [CleanupOutcome(steps[i].id, false)];
      } else {
        var a := executor.Execute(resolved.value);
        outcomes := outcomes + [CleanupOutcome(steps[i].id, a.Answer? && NormalizeError(c.protocol, a.response).None?)];
      }
    }
  }
}
