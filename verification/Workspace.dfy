/** A service workspace: running guided flows and raw requests, and replaying from the history. */
module Workspace {
  import opened Base
  import opened GuidedTemplates
  import opened GuidedManifest
  import opened GuidedRuntime
  import opened GuidedFlowProperties
  import H = InteractionHistory

  datatype UxState = Idle | Running | Succeeded | Failed

  datatype WorkspaceError =
    | ServiceMismatch
    | FlowNotFound
    | MissingInputs(fields: set<string>)
    | RawFailed(message: string)

  function FlowNamed(flows: seq<Flow>, id: string): Option<Flow> {
    if flows == [] then None else if flows[0].id == id then Some(flows[0]) else FlowNamed(flows[1..], id)
  }

  /** The selected flow, or the first one when none is selected. */
  function Chosen(m: Manifest, selected: Option<string>): Option<Flow> {
    match selected
    case Some(id) => FlowNamed(m.flows, id)
    case None => if m.flows == [] then None else Some(m.flows[0])
  }

  lemma {:induction false} FlowNamedIsListed(flows: seq<Flow>, id: string)
    ensures var f := FlowNamed(flows, id);
            if f.Some? then f.value in flows && f.value.id == id else forall g :: g in flows ==> g.id != id
  {
    if flows == [] {
    } else {
      assert flows == [flows[0]] + flows[1..];
      FlowNamedIsListed(flows[1..], id);
    }
  }

  /** `validate_guided_inputs`: a field is missing when it is unbound or empty. */
  function Unsupplied(required: set<string>, inputs: map<string, string>): set<string> {
    set f | f in required && (f !in inputs || inputs[f] == "")
  }

  /** No step failed to resolve but for a capture or context name that is not bound. */
  ghost predicate NeverStuck(outcomes: seq<StepOutcome>) {
    forall i :: 0 <= i < |outcomes| ==>
      var e := outcomes[i].error;
      e.Some? && e.value.Unresolved? ==> e.value.cause.Missing? && e.value.cause.source != Inputs
  }

  function SetupOf(w: World, m: Manifest, maxAttempts: nat, capacity: nat, inputs: map<string, string>): (c: Setup)
    ensures c.limit >= 1
  {
    Setup(w, m.service, m.protocol, Max(1, maxAttempts), capacity, inputs, map[])
  }

  /** One execution: a guided run, admitted and set up as `ExecuteGuided` does, or a raw request with its answer. */
  datatype Work =
    | GuidedWork(m: Manifest, w: World, maxAttempts: nat, inputs: map<string, string>, flow: Flow,
        calls: seq<Operation>, start: nat)
    | RawWork(service: string, request: Operation, answer: Result<Response, WorkspaceError>)

  function StartOf(work: Work, entries: seq<H.Entry<Operation>>): GuidedRuntime.Run
    requires work.GuidedWork?
  {
    GuidedRuntime.Run(false, [], map[], work.calls, entries, work.start)
  }

  /** The history after one execution, as `ExecuteGuided` and `ExecuteRaw` leave it. */
  function After(work: Work, entries: seq<H.Entry<Operation>>, capacity: nat): seq<H.Entry<Operation>> {
    match work
    case GuidedWork(m, w, maxAttempts, inputs, flow, _, _) =>
      RunSteps(SetupOf(w, m, maxAttempts, capacity, inputs), flow.steps, StartOf(work, entries)).history
    case RawWork(service, request, answer) =>
      if answer.Err? then entries
      else H.Pushed(entries, H.Entry(H.NextIdOf(entries), service, answer.value.status, request), capacity)
  }

  class ServiceWorkspace {
    const service: string
    var selected: Option<string>
    var inputs: map<string, string>
    var required: set<string>
    var state: UxState
    var report: Option<Report>
    var console: Operation
    var lastResponse: Option<Response>
    var replayed: Option<nat>

    constructor (service: string)
      ensures this.service == service && state == Idle && report == None && inputs == map[] && selected == None
    {
      this.service := service;
      selected, inputs, required, state, report := None, map[], {}, Idle, None;
      console := Operation("GET", "/_localstack/health", [], [], None);
      lastResponse, replayed := None, None;
    }

    /** `execute_guided`: refused before anything is called unless the flow exists and every required input
        is supplied; once a linted manifest's flow runs, no step wants for an input. */
    method ExecuteGuided(m: Manifest, w: World, executor: Executor, history: H.History<Operation>, maxAttempts: nat,
                         start: nat)
      returns (r: Result<Report, WorkspaceError>)
      requires w.execute == executor.answer
      modifies this, executor`calls, history`entries
      ensures inputs == old(inputs)
      ensures m.service != service ==> r == Err(ServiceMismatch)
      ensures m.service == service && Chosen(m, old(selected)).None? ==> r == Err(FlowNotFound)
      ensures m.service == service && Chosen(m, old(selected)).Some? ==>
                var flow := Chosen(m, old(selected)).value;
                var missing := Unsupplied(StepsRequired(flow.steps + flow.cleanup), inputs);
                if missing != {} then r == Err(MissingInputs(missing))
                else
                  var c := SetupOf(w, m, maxAttempts, history.maxEntries, inputs);
                  var run := RunSteps(c, flow.steps,
                      GuidedRuntime.Run(false, [], map[], old(executor.calls), old(history.entries), start));
                  var clean := Clean(c, flow.cleanup, run.captures, Cleaning([], run.calls, run.generated));
                  && r == Ok(Report(!run.failed, run.outcomes, clean.outcomes, run.captures))
                  && executor.calls == clean.calls
                  && history.entries == After(GuidedWork(m, w, maxAttempts, inputs, flow, old(executor.calls), start),
                                              old(history.entries), history.maxEntries)
                  && selected == Some(flow.id) && required == StepsRequired(flow.steps + flow.cleanup)
      ensures r.Ok? <==>
                m.service == service && Chosen(m, old(selected)).Some?
                && var flow := Chosen(m, old(selected)).value;
                   forall x :: x in StepsRequired(flow.steps + flow.cleanup) ==> x in inputs && inputs[x] != ""
      ensures r.Err? ==> state == Idle && report == None && selected == old(selected)
                         && executor.calls == old(executor.calls) && history.entries == old(history.entries)
      ensures r.Ok? ==> report == Some(r.value) && state == (if r.value.succeeded then Succeeded else Failed)
      ensures r.Ok? && Issues(m.flows, |m.flows|) == [] ==> NeverStuck(r.value.outcomes)
    {
      hide Issues, StepsRequired, RunSteps, Clean, Unsupplied, NeverStuck;
      state, report := Idle, None;
      if m.service != service {
        return Err(ServiceMismatch);
      }
      var chosen := Chosen(m, selected);
      if chosen.None? {
        return Err(FlowNotFound);
      }
      var flow := chosen.value;
      var fields := RequiredInputs(flow);
      var missing := Unsupplied(fields, inputs);
      NothingMissing(fields, inputs);
      if missing != {} {
        return Err(MissingInputs(missing));
      }
      state, required := Running, fields;
      var ctx := new BindingContext(inputs);
      var c := SetupOf(w, m, maxAttempts, history.maxEntries, inputs);
      AdmittedRunNeverStuck(m, flow, selected, c, executor.calls, history.entries, start);
      var done, _ := RunGuidedFlow(c, flow, maxAttempts, executor, history, ctx, start);
      state := if done.succeeded then Succeeded else Failed;
      report, selected := Some(done), Some(flow.id);
      r := Ok(done);
    }

    /** `execute_raw`: a request that was answered is recorded under the next id; a failed one leaves no trace. */
    method ExecuteRaw(history: H.History<Operation>, execute: Operation -> Result<Response, WorkspaceError>)
      returns (r: Result<Response, WorkspaceError>)
      modifies this`lastResponse, history`entries
      ensures r == execute(console)
      ensures match r
              case Err(_) => history.entries == old(history.entries) && lastResponse == old(lastResponse)
              case Ok(response) =>
                var id := H.NextIdOf(old(history.entries));
                && history.entries == H.Pushed(old(history.entries), H.Entry(id, service, response.status, console),
                    history.maxEntries)
                && lastResponse == Some(response)
      ensures history.entries == After(RawWork(service, console, r), old(history.entries), history.maxEntries)
      ensures r.Ok? && history.maxEntries >= 1 ==>
                H.Lookup(history.entries, H.NextIdOf(old(history.entries))) == Some(console)
    {
      var request := console;
      r := execute(request);
      if r.Err? {
        return;
      }
      var id := history.NextId();
      history.Push(H.Entry(id, service, r.value.status, request));
      lastResponse := Some(r.value);
    }

    /** `replay_into_raw`: the console takes the recorded request over and forgets the last response. */
    method ReplayIntoRaw(history: H.History<Operation>, id: nat) returns (r: Option<Operation>)
      modifies this`console, this`lastResponse, this`replayed
      ensures r == H.Lookup(history.entries, id)
      ensures match r
              case None => console == old(console) && lastResponse == old(lastResponse) && replayed == old(replayed)
              case Some(request) => console == request && lastResponse == None && replayed == Some(id)
    {
      r := history.ReplayRequest(id);
      if r.Some? {
        console, lastResponse, replayed := r.value, None, Some(id);
      }
    }
  }

  lemma NothingMissing(required: set<string>, inputs: map<string, string>)
    ensures Unsupplied(required, inputs) == {} <==> forall x :: x in required ==> x in inputs && inputs[x] != ""
  {
    if Unsupplied(required, inputs) == {} {
      forall x | x in required ensures x in inputs && inputs[x] != "" {
        assert x !in Unsupplied(required, inputs);
      }
    }
  }

  /** A selected flow is the first of that id, and without a selection it is the first of all. */
  lemma {:induction false} ChosenIsFirst(m: Manifest, selected: Option<string>, i: nat)
    requires i < |m.flows|
    requires match selected
             case None => i == 0
             case Some(id) => m.flows[i].id == id && forall j :: 0 <= j < i ==> m.flows[j].id != id
    ensures Chosen(m, selected) == Some(m.flows[i])
  {
    if selected.Some? {
      FirstNamed(m.flows, selected.value, i);
    }
  }

  lemma {:induction false} FirstNamed(flows: seq<Flow>, id: string, i: nat)
    requires i < |flows| && flows[i].id == id && forall j :: 0 <= j < i ==> flows[j].id != id
    ensures FlowNamed(flows, id) == Some(flows[i])
  {
    if i > 0 {
      FirstNamed(flows[1..], id, i - 1);
    }
  }

  lemma SuppliedInputs(required: set<string>, inputs: map<string, string>)
    requires Unsupplied(required, inputs) == {}
    ensures required <= inputs.Keys
  {
    forall f | f in required ensures f in inputs {
      assert f !in Unsupplied(required, inputs);
    }
  }

  /** The guard of `execute_guided` is enough for the soundness of the lint. */
  lemma AdmittedRunNeverStuck(m: Manifest, flow: Flow, selected: Option<string>, c: Setup, calls: seq<Operation>,
                              history: seq<H.Entry<Operation>>, start: nat)
    requires Chosen(m, selected) == Some(flow) && c.limit >= 1
    requires Unsupplied(StepsRequired(flow.steps + flow.cleanup), c.inputs) == {}
    ensures Issues(m.flows, |m.flows|) == [] ==>
              NeverStuck(RunSteps(c, flow.steps, GuidedRuntime.Run(false, [], map[], calls, history, start)).outcomes)
  {
    hide Issues, StepsRequired, RunSteps, Unsupplied;
    SuppliedInputs(StepsRequired(flow.steps + flow.cleanup), c.inputs);
    if selected.Some? {
      FlowNamedIsListed(m.flows, selected.value);
    }
    var begin := GuidedRuntime.Run(false, [], map[], calls, history, start);
    if Issues(m.flows, |m.flows|) == [] {
      var f :| 0 <= f < |m.flows| && m.flows[f] == flow;
      forall i | 0 <= i < |RunSteps(c, flow.steps, begin).outcomes|
        ensures var e := RunSteps(c, flow.steps, begin).outcomes[i].error;
                e.Some? && e.value.Unresolved? ==> e.value.cause.Missing? && e.value.cause.source != Inputs
      {
        LintedRunNeverStuck(m, f, c, flow.steps, begin, i);
      }
    }
  }

  // ---------------------------------------------------------------------------
  // The history that any work leaves
  // ---------------------------------------------------------------------------

  function Added(work: Work, entries: seq<H.Entry<Operation>>, capacity: nat): seq<H.Exchange<Operation>> {
    match work
    case GuidedWork(m, w, maxAttempts, inputs, flow, _, _) =>
      Exchanges(SetupOf(w, m, maxAttempts, capacity, inputs), flow.steps, StartOf(work, entries))
    case RawWork(service, request, answer) =>
      if answer.Err? then [] else [H.Exchange(service, answer.value.status, request)]
  }

  /** The history after all the work, and the exchanges behind it. */
  function AfterAll(works: seq<Work>, capacity: nat): (seq<H.Entry<Operation>>, seq<H.Exchange<Operation>>) {
    if works == [] then ([], [])
    else
      var (entries, xs) := AfterAll(works[..|works| - 1], capacity);
      var last := works[|works| - 1];
      (After(last, entries, capacity), xs + Added(last, entries, capacity))
  }

  lemma WorkIsRecorded(work: Work, xs: seq<H.Exchange<Operation>>, capacity: nat)
    ensures var entries := H.Recorded(xs, capacity);
            After(work, entries, capacity) == H.Recorded(xs + Added(work, entries, capacity), capacity)
  {
    hide RunSteps, Exchanges, H.Recorded, H.Pushed, H.NextIdOf;
    var entries := H.Recorded(xs, capacity);
    match work
    case GuidedWork(m, w, maxAttempts, inputs, flow, _, _) =>
      RunIsRecorded(SetupOf(w, m, maxAttempts, capacity, inputs), flow.steps, StartOf(work, entries), xs);
    case RawWork(service, request, answer) =>
      if answer.Err? {
        assert xs + [] == xs;
      } else {
        RecordedMore(xs, H.Exchange(service, answer.value.status, request), capacity);
      }
  }

  lemma {:induction false} AllWorkIsRecorded(works: seq<Work>, capacity: nat)
    ensures AfterAll(works, capacity).0 == H.Recorded(AfterAll(works, capacity).1, capacity)
  {
    hide After, Added, H.Recorded;
    if works == [] {
      NothingRecorded(capacity);
    } else {
      AllWorkIsRecorded(works[..|works| - 1], capacity);
      WorkIsRecorded(works[|works| - 1], AfterAll(works[..|works| - 1], capacity).1, capacity);
    }
  }

  lemma NothingRecorded(capacity: nat)
    ensures H.Recorded<Operation>([], capacity) == []
  {
  }

  /** After any guided runs and raw requests, replaying id k gives back exactly the k-th request that was answered,
      while it is among the newest. */
  lemma ReplayAfterAnyWork(works: seq<Work>, capacity: nat, id: nat)
    requires capacity >= 1 && |AfterAll(works, capacity).1| <= U64_MAX
    ensures var (entries, xs) := AfterAll(works, capacity);
            H.Lookup(entries, id) == if 1 <= id <= |xs| && id > |xs| - capacity then Some(xs[id - 1].request) else None
  {
    hide AfterAll, H.Recorded, H.Lookup;
    AllWorkIsRecorded(works, capacity);
    H.ReplayIsExact(AfterAll(works, capacity).1, capacity, id);
  }
}
