/** Guided manifests: the semantic lint, the required inputs of a flow, and what a clean lint buys
    at run time. A map of the source is a list of pairs here, in that map's iteration order. */
module GuidedManifest {
  import opened Base
  import opened GuidedTemplates

  type Pairs = seq<(string, string)>

  datatype Operation = Operation(httpMethod: string, path: string, headers: Pairs, query: Pairs, body: Option<string>)

  datatype Assertion = Assertion(kind: string, target: string, expected: string)

  datatype Capture = Capture(name: string, source: string)

  datatype Step = Step(id: string, operation: Operation, assertions: seq<Assertion>, captures: seq<Capture>)

  datatype Flow = Flow(id: string, level: string, steps: seq<Step>, cleanup: seq<Step>)

  datatype ProtocolClass = Query | JsonTarget | RestXml | RestJson

  datatype Manifest = Manifest(service: string, protocol: ProtocolClass, flows: seq<Flow>)

  // ---------------------------------------------------------------------------
  // The lint
  // ---------------------------------------------------------------------------

  datatype Field = PathField | HeaderField(name: string) | QueryField(name: string) | BodyField

  datatype Place =
    | FlowPlace(flow: nat)
    | CleanupPlace(flow: nat)
    | FieldPlace(flow: nat, cleanup: bool, step: nat, field: Field)

  datatype Issue = NoAssertion(place: Place) | NoCleanup(place: Place) | BadText(place: Place, complaint: Complaint)

  function Tag(place: Place, complaints: seq<Complaint>): seq<Issue> {
    if complaints == [] then [] else [BadText(place, complaints[0])] + Tag(place, complaints[1..])
  }

  function TextIssues(place: Place, text: string): seq<Issue> {
    Tag(place, Complaints(Scan(text)))
  }

  /** Where the pairs of a header or query map are reported. */
  datatype Spot = Spot(flow: nat, cleanup: bool, step: nat) {
    function At(field: Field): Place {
      FieldPlace(flow, cleanup, step, field)
    }
  }

  function PairIssues(spot: Spot, pairs: Pairs, header: bool): seq<Issue> {
    if pairs == [] then []
    else TextIssues(spot.At(if header then HeaderField(pairs[0].0) else QueryField(pairs[0].0)), pairs[0].1)
         + PairIssues(spot, pairs[1..], header)
  }

  function OperationIssues(spot: Spot, op: Operation): seq<Issue> {
    TextIssues(spot.At(PathField), op.path) + PairIssues(spot, op.headers, true) + PairIssues(spot, op.query, false)
    + (match op.body case None => [] case Some(text) => TextIssues(spot.At(BodyField), text))
  }

  /** The issues of the first n steps. */
  function StepIssues(flow: nat, cleanup: bool, steps: seq<Step>, n: nat): seq<Issue>
    requires n <= |steps|
  {
    if n == 0 then []
    else StepIssues(flow, cleanup, steps, n - 1) + OperationIssues(Spot(flow, cleanup, n - 1), steps[n - 1].operation)
  }

  function AssertionCount(steps: seq<Step>): nat {
    if steps == [] then 0 else |steps[0].assertions| + AssertionCount(steps[1..])
  }

  predicate IsL1(level: string) {
    level == "l1" || level == "L1"
  }

  function FlowIssues(i: nat, flow: Flow): seq<Issue> {
    (if AssertionCount(flow.steps) == 0 then [NoAssertion(FlowPlace(i))] else [])
    + (if IsL1(flow.level) && flow.cleanup == [] then [NoCleanup(CleanupPlace(i))] else [])
    + StepIssues(i, false, flow.steps, |flow.steps|)
    + StepIssues(i, true, flow.cleanup, |flow.cleanup|)
  }

  function Issues(flows: seq<Flow>, n: nat): seq<Issue>
    requires n <= |flows|
  {
    if n == 0 then [] else Issues(flows, n - 1) + FlowIssues(n - 1, flows[n - 1])
  }

  method CheckText(place: Place, text: string, issues: seq<Issue>) returns (all: seq<Issue>)
    ensures all == issues + TextIssues(place, text)
  {
    var complaints := CheckInterpolationValue(text, []);
    assert complaints == Complaints(Scan(text));
    all := issues + Tag(place, complaints);
  }

  method CheckPairs(spot: Spot, pairs: Pairs, header: bool, issues: seq<Issue>) returns (all: seq<Issue>)
    ensures all == issues + PairIssues(spot, pairs, header)
  {
    hide TextIssues;
    all := issues;
    assert pairs[0..] == pairs;
    for i := 0 to |pairs|
      invariant issues + PairIssues(spot, pairs, header) == all + PairIssues(spot, pairs[i..], header)
    {
      assert pairs[i..][1..] == pairs[i + 1..];
      all := CheckText(spot.At(if header then HeaderField(pairs[i].0) else QueryField(pairs[i].0)), pairs[i].1, all);
    }
  }

  method CheckSteps(flow: nat, cleanup: bool, steps: seq<Step>, issues: seq<Issue>) returns (all: seq<Issue>)
    ensures all == issues + StepIssues(flow, cleanup, steps, |steps|)
  {
    hide TextIssues, PairIssues;
    all := issues;
    for i := 0 to |steps|
      invariant all == issues + StepIssues(flow, cleanup, steps, i)
    {
      var spot, op := Spot(flow, cleanup, i), steps[i].operation;
      ghost var before := all;
      all := CheckText(spot.At(PathField), op.path, all);
      all := CheckPairs(spot, op.headers, true, all);
      all := CheckPairs(spot, op.query, false, all);
      if op.body.Some? {
        all := CheckText(spot.At(BodyField), op.body.value, all);
      }
      assert all == before + OperationIssues(spot, op);
    }
  }

  /** `lint_manifest_semantics`. */
  method LintManifest(m: Manifest) returns (issues: seq<Issue>)
    ensures issues == Issues(m.flows, |m.flows|)
  {
    hide StepIssues;
    issues := [];
    for i := 0 to |m.flows|
      invariant issues == Issues(m.flows, i)
    {
      var flow := m.flows[i];
      var count := 0;
      assert flow.steps[0..] == flow.steps;
      for j := 0 to |flow.steps|
        invariant count + AssertionCount(flow.steps[j..]) == AssertionCount(flow.steps)
      {
        assert flow.steps[j..][1..] == flow.steps[j + 1..];
        count := count + |flow.steps[j].assertions|;
      }
      if count == 0 {
        issues := issues + [NoAssertion(FlowPlace(i))];
      }
      if IsL1(flow.level) && flow.cleanup == [] {
        issues := issues + [NoCleanup(CleanupPlace(i))];
      }
      issues := CheckSteps(i, false, flow.steps, issues);
      issues := CheckSteps(i, true, flow.cleanup, issues);
      assert issues == Issues(m.flows, i) + FlowIssues(i, flow);
    }
  }

  // ---------------------------------------------------------------------------
  // Texts of an operation
  // ---------------------------------------------------------------------------

  function Values(pairs: Pairs): seq<string> {
    if pairs == [] then [] else [pairs[0].1] + Values(pairs[1..])
  }

  /** Every text of an operation that is interpolated. */
  function Texts(op: Operation): seq<string> {
    Values(op.headers) + Values(op.query) + [op.path] + match op.body case None => [] case Some(text) => [text]
  }

  ghost predicate CleanOperation(op: Operation) {
    forall text :: text in Texts(op) ==> Complaints(Scan(text)) == []
  }

  // ---------------------------------------------------------------------------
  // Required inputs
  // ---------------------------------------------------------------------------

  function AllRequired(texts: seq<string>): set<string> {
    if texts == [] then {} else Required(Scan(texts[0])) + AllRequired(texts[1..])
  }

  function StepsRequired(steps: seq<Step>): set<string> {
    if steps == [] then {} else AllRequired(Texts(steps[0].operation)) + StepsRequired(steps[1..])
  }

  /** `required_inputs`, before it is listed in order. */
  method RequiredInputs(flow: Flow) returns (fields: set<string>)
    ensures fields == StepsRequired(flow.steps + flow.cleanup)
  {
    hide Texts, AllRequired;
    fields := {};
    var steps := flow.steps + flow.cleanup;
    assert steps[0..] == steps;
    for i := 0 to |steps|
      invariant StepsRequired(steps) == fields + StepsRequired(steps[i..])
    {
      assert steps[i..][1..] == steps[i + 1..];
      fields := CollectFromTexts(Texts(steps[i].operation), fields);
    }
  }

  method CollectFromTexts(texts: seq<string>, fields: set<string>) returns (all: set<string>)
    ensures all == fields + AllRequired(texts)
  {
    hide Required, Scan;
    all := fields;
    assert texts[0..] == texts;
    for j := 0 to |texts|
      invariant fields + AllRequired(texts) == all + AllRequired(texts[j..])
    {
      assert texts[j..][1..] == texts[j + 1..];
      all := CollectFromText(texts[j], all);
    }
  }

  // ---------------------------------------------------------------------------
  // Resolving an operation
  // ---------------------------------------------------------------------------

  function ResolvePairs(pairs: Pairs, b: Bindings, gen: Generated, n: nat): (Result<Pairs, ResolveError>, nat) {
    if pairs == [] then (Ok([]), n)
    else
      var (value, n1) := Render(Scan(pairs[0].1), b, gen, n);
      if value.Err? then (Err(value.error), n1)
      else
        var (rest, n2) := ResolvePairs(pairs[1..], b, gen, n1);
        if rest.Err? then (rest, n2) else (Ok([(pairs[0].0, value.value)] + rest.value), n2)
  }

  function ResolveBody(body: Option<string>, b: Bindings, gen: Generated, n: nat)
    : (Result<Option<string>, ResolveError>, nat)
  {
    match body
    case None => (Ok(None), n)
    case Some(text) =>
      var (value, n1) := Render(Scan(text), b, gen, n);
      (if value.Err? then Err(value.error) else Ok(Some(value.value)), n1)
  }

  /** `resolve_operation`: headers, query, path, body, stopping at the first error. */
  function ResolveOperation(op: Operation, b: Bindings, gen: Generated, n: nat)
    : (Result<Operation, ResolveError>, nat)
  {
    var (headers, n1) := ResolvePairs(op.headers, b, gen, n);
    if headers.Err? then (Err(headers.error), n1)
    else
      var (query, n2) := ResolvePairs(op.query, b, gen, n1);
      if query.Err? then (Err(query.error), n2)
      else
        var (path, n3) := Render(Scan(op.path), b, gen, n2);
        if path.Err? then (Err(path.error), n3)
        else
          var (body, n4) := ResolveBody(op.body, b, gen, n3);
          if body.Err? then (Err(body.error), n4)
          else (Ok(Operation(op.httpMethod, path.value, headers.value, query.value, body.value)), n4)
  }

  function AddDone(done: Pairs, rest: (Result<Pairs, ResolveError>, nat)): (Result<Pairs, ResolveError>, nat) {
    if rest.0.Err? then rest else (Ok(done + rest.0.value), rest.1)
  }

  lemma AddNone(r: (Result<Pairs, ResolveError>, nat))
    ensures AddDone([], r) == r
  {
    if r.0.Ok? {
      assert [] + r.0.value == r.0.value;
    }
  }

  lemma AddDoneTwice(done: Pairs, pairs: Pairs, b: Bindings, gen: Generated, n: nat)
    requires pairs != []
    ensures var (value, n1) := Render(Scan(pairs[0].1), b, gen, n);
            AddDone(done, ResolvePairs(pairs, b, gen, n)) ==
              if value.Err? then (Err(value.error), n1)
              else AddDone(done + [(pairs[0].0, value.value)], ResolvePairs(pairs[1..], b, gen, n1))
  {
    hide Render, Scan;
    var (value, n1) := Render(Scan(pairs[0].1), b, gen, n);
    if value.Ok? {
      var rest := ResolvePairs(pairs[1..], b, gen, n1).0;
      if rest.Ok? {
        assert done + [(pairs[0].0, value.value)] + rest.value == done + ([(pairs[0].0, value.value)] + rest.value);
      }
    }
  }

  method InterpolatePairs(pairs: Pairs, b: Bindings, gen: Generated, n: nat)
    returns (r: Result<Pairs, ResolveError>, n': nat)
    ensures (r, n') == ResolvePairs(pairs, b, gen, n)
  {
    hide Render;
    var done: Pairs := [];
    n' := n;
    assert pairs[0..] == pairs;
    AddNone(ResolvePairs(pairs, b, gen, n));
    for i := 0 to |pairs|
      invariant ResolvePairs(pairs, b, gen, n) == AddDone(done, ResolvePairs(pairs[i..], b, gen, n'))
    {
      AddDoneTwice(done, pairs[i..], b, gen, n');
      assert pairs[i..][1..] == pairs[i + 1..];
      var value;
      value, n' := InterpolateValue(pairs[i].1, b, gen, n');
      if value.Err? {
        return Err(value.error), n';
      }
      done := done + [(pairs[i].0, value.value)];
    }
    r := Ok(done);
    assert done + [] == done;
  }

  method InterpolateOperation(op: Operation, b: Bindings, gen: Generated, n: nat)
    returns (r: Result<Operation, ResolveError>, n': nat)
    ensures (r, n') == ResolveOperation(op, b, gen, n)
  {
    hide ResolvePairs, Render;
    var headers, query, path, body;
    headers, n' := InterpolatePairs(op.headers, b, gen, n);
    if headers.Err? {
      return Err(headers.error), n';
    }
    query, n' := InterpolatePairs(op.query, b, gen, n');
    if query.Err? {
      return Err(query.error), n';
    }
    path, n' := InterpolateValue(op.path, b, gen, n');
    if path.Err? {
      return Err(path.error), n';
    }
    if op.body.None? {
      return Ok(Operation(op.httpMethod, path.value, headers.value, query.value, None)), n';
    }
    body, n' := InterpolateValue(op.body.value, b, gen, n');
    if body.Err? {
      return Err(body.error), n';
    }
    r := Ok(Operation(op.httpMethod, path.value, headers.value, query.value, Some(body.value)));
  }

  // ---------------------------------------------------------------------------
  // A clean lint covers every text
  // ---------------------------------------------------------------------------

  lemma TagEmpty(place: Place, complaints: seq<Complaint>)
    ensures Tag(place, complaints) == [] <==> complaints == []
  {
  }

  lemma {:induction false} PairsClean(spot: Spot, pairs: Pairs, header: bool)
    requires PairIssues(spot, pairs, header) == []
    ensures forall text :: text in Values(pairs) ==> Complaints(Scan(text)) == []
  {
    hide Scan, Complaints;
    if pairs == [] {
    } else {
      var place := spot.At(if header then HeaderField(pairs[0].0) else QueryField(pairs[0].0));
      assert TextIssues(place, pairs[0].1) == [] && PairIssues(spot, pairs[1..], header) == [];
      TagEmpty(place, Complaints(Scan(pairs[0].1)));
      PairsClean(spot, pairs[1..], header);
    }
  }

  lemma OperationClean(spot: Spot, op: Operation)
    requires OperationIssues(spot, op) == []
    ensures CleanOperation(op)
  {
    hide Scan, Complaints, Tag;
    PairsClean(spot, op.headers, true);
    PairsClean(spot, op.query, false);
    TagEmpty(spot.At(PathField), Complaints(Scan(op.path)));
    if op.body.Some? {
      TagEmpty(spot.At(BodyField), Complaints(Scan(op.body.value)));
    }
  }

  lemma {:induction false} StepsClean(flow: nat, cleanup: bool, steps: seq<Step>, n: nat, i: nat)
    requires i < n <= |steps| && StepIssues(flow, cleanup, steps, n) == []
    ensures CleanOperation(steps[i].operation)
  {
    hide OperationIssues, CleanOperation;
    if i == n - 1 {
      OperationClean(Spot(flow, cleanup, i), steps[i].operation);
    } else {
      StepsClean(flow, cleanup, steps, n - 1, i);
    }
  }

  lemma {:induction false} FlowsClean(flows: seq<Flow>, n: nat, i: nat)
    requires i < n <= |flows| && Issues(flows, n) == []
    ensures FlowIssues(i, flows[i]) == []
  {
    hide FlowIssues;
    if i < n - 1 {
      FlowsClean(flows, n - 1, i);
    }
  }

  lemma LintCoversSteps(m: Manifest, i: nat, step: Step)
    requires Issues(m.flows, |m.flows|) == [] && i < |m.flows| && step in m.flows[i].steps + m.flows[i].cleanup
    ensures CleanOperation(step.operation)
  {
    hide CleanOperation, StepIssues, Issues;
    var flow := m.flows[i];
    FlowsClean(m.flows, |m.flows|, i);
    if step in flow.steps {
      var j :| 0 <= j < |flow.steps| && flow.steps[j] == step;
      StepsClean(i, false, flow.steps, |flow.steps|, j);
    } else {
      var j :| 0 <= j < |flow.cleanup| && flow.cleanup[j] == step;
      StepsClean(i, true, flow.cleanup, |flow.cleanup|, j);
    }
  }

  lemma {:induction false} RequiredCoversTexts(texts: seq<string>, text: string)
    requires text in texts
    ensures Required(Scan(text)) <= AllRequired(texts)
  {
    if text != texts[0] {
      RequiredCoversTexts(texts[1..], text);
    }
  }

  lemma {:induction false} RequiredCoversSteps(steps: seq<Step>, step: Step)
    requires step in steps
    ensures AllRequired(Texts(step.operation)) <= StepsRequired(steps)
  {
    hide AllRequired;
    if step != steps[0] {
      RequiredCoversSteps(steps[1..], step);
    }
  }

  // ---------------------------------------------------------------------------
  // Lint soundness
  // ---------------------------------------------------------------------------

  ghost predicate Ready(text: string, b: Bindings) {
    Complaints(Scan(text)) == [] && Required(Scan(text)) <= b.inputs.Keys
  }

  ghost predicate AllReady(texts: seq<string>, b: Bindings) {
    forall text :: text in texts ==> Ready(text, b)
  }

  ghost predicate AllBound(texts: seq<string>, b: Bindings) {
    forall text :: text in texts ==> Bound(Scan(text), b)
  }

  ghost predicate SomeMisses(texts: seq<string>, b: Bindings, e: ResolveError) {
    exists text :: text in texts && MissesRunTimeName(Scan(text), b, e)
  }

  lemma RenderReady(text: string, b: Bindings, gen: Generated, n: nat)
    requires Ready(text, b)
    ensures var r := Render(Scan(text), b, gen, n).0;
            (r.Ok? <==> Bound(Scan(text), b)) && (r.Err? ==> MissesRunTimeName(Scan(text), b, r.error))
  {
    CleanTemplate(Scan(text), b, gen, n);
  }

  lemma {:induction false} ResolvePairsReady(pairs: Pairs, b: Bindings, gen: Generated, n: nat)
    requires AllReady(Values(pairs), b)
    ensures var r := ResolvePairs(pairs, b, gen, n).0;
            (r.Ok? <==> AllBound(Values(pairs), b)) && (r.Err? ==> SomeMisses(Values(pairs), b, r.error))
  {
    hide Ready, Bound, MissesRunTimeName, Render, Scan;
    if pairs == [] {
    } else {
      var first := Render(Scan(pairs[0].1), b, gen, n);
      assert Values(pairs) == [pairs[0].1] + Values(pairs[1..]);
      assert pairs[0].1 in Values(pairs);
      RenderReady(pairs[0].1, b, gen, n);
      if first.0.Ok? {
        ResolvePairsReady(pairs[1..], b, gen, first.1);
      }
    }
  }

  /** If the lint finds nothing in a manifest and every required input of a flow is bound, then
      resolving any step or cleanup step succeeds exactly when all its context and capture names are
      bound; and it can fail only because such a name is missing, never on an input and never
      because of the template's form. */
  lemma LintSoundness(m: Manifest, i: nat, step: Step, b: Bindings, gen: Generated, n: nat)
    requires Issues(m.flows, |m.flows|) == [] && i < |m.flows| && step in m.flows[i].steps + m.flows[i].cleanup
    requires StepsRequired(m.flows[i].steps + m.flows[i].cleanup) <= b.inputs.Keys
    ensures var r := ResolveOperation(step.operation, b, gen, n).0;
            && (r.Ok? <==> AllBound(Texts(step.operation), b))
            && (r.Err? ==> SomeMisses(Texts(step.operation), b, r.error))
  {
    var op := step.operation;
    LintCoversSteps(m, i, step);
    RequiredCoversSteps(m.flows[i].steps + m.flows[i].cleanup, step);
    forall text | text in Texts(op) ensures Ready(text, b) {
      RequiredCoversTexts(Texts(op), text);
    }
    ReadyResolves(op, b, gen, n);
  }

  lemma ReadyResolves(op: Operation, b: Bindings, gen: Generated, n: nat)
    requires AllReady(Texts(op), b)
    ensures var r := ResolveOperation(op, b, gen, n).0;
            && (r.Ok? <==> AllBound(Texts(op), b))
            && (r.Err? ==> SomeMisses(Texts(op), b, r.error))
  {
    hide Ready, Bound, MissesRunTimeName, Render, Scan, ResolvePairs;
    var (headers, n1) := ResolvePairs(op.headers, b, gen, n);
    ResolvePairsReady(op.headers, b, gen, n);
    if headers.Ok? {
      var (query, n2) := ResolvePairs(op.query, b, gen, n1);
      ResolvePairsReady(op.query, b, gen, n1);
      if query.Ok? {
        var (path, n3) := Render(Scan(op.path), b, gen, n2);
        assert op.path in Texts(op);
        RenderReady(op.path, b, gen, n2);
        if path.Ok? && op.body.Some? {
          RenderReady(op.body.value, b, gen, n3);
        }
      }
    }
  }

  // ---------------------------------------------------------------------------
  // What the lint and the collector report, exactly
  // ---------------------------------------------------------------------------

  predicate HasText(op: Operation, field: Field, text: string) {
    match field
    case PathField => op.path == text
    case HeaderField(name) => (name, text) in op.headers
    case QueryField(name) => (name, text) in op.query
    case BodyField => op.body == Some(text)
  }

  ghost predicate HasComplaint(op: Operation, field: Field, complaint: Complaint) {
    exists text :: HasText(op, field, text) && complaint in Complaints(Scan(text))
  }

  /** What is wrong with the flows, told without the order of the report. */
  ghost predicate IsDefect(flows: seq<Flow>, issue: Issue) {
    match issue
    case NoAssertion(place) =>
      place.FlowPlace? && place.flow < |flows|
      && forall step :: step in flows[place.flow].steps ==> step.assertions == []
    case NoCleanup(place) =>
      place.CleanupPlace? && place.flow < |flows| && IsL1(flows[place.flow].level) && flows[place.flow].cleanup == []
    case BadText(place, complaint) =>
      place.FieldPlace? && place.flow < |flows|
      && IsBadStep(StepsAt(flows[place.flow], place.cleanup), place, complaint)
  }

  function StepsAt(flow: Flow, cleanup: bool): seq<Step> {
    if cleanup then flow.cleanup else flow.steps
  }

  ghost predicate IsBadStep(steps: seq<Step>, place: Place, complaint: Complaint)
    requires place.FieldPlace?
  {
    place.step < |steps| && HasComplaint(steps[place.step].operation, place.field, complaint)
  }

  lemma {:induction false} TagHas(place: Place, complaints: seq<Complaint>, issue: Issue)
    ensures issue in Tag(place, complaints) <==> issue.BadText? && issue.place == place && issue.complaint in complaints
  {
    if complaints != [] {
      TagHas(place, complaints[1..], issue);
    }
  }

  function PairField(name: string, header: bool): Field {
    if header then HeaderField(name) else QueryField(name)
  }

  lemma {:induction false} PairIssuesHave(spot: Spot, pairs: Pairs, header: bool, issue: Issue)
    ensures issue in PairIssues(spot, pairs, header) <==>
            issue.BadText? && exists p :: p in pairs && issue.place == spot.At(PairField(p.0, header))
                                          && issue.complaint in Complaints(Scan(p.1))
  {
    hide Tag, Scan, Complaints;
    if pairs != [] {
      PairIssuesHave(spot, pairs[1..], header, issue);
      TagHas(spot.At(PairField(pairs[0].0, header)), Complaints(Scan(pairs[0].1)), issue);
      assert forall p :: p in pairs <==> p == pairs[0] || p in pairs[1..];
    }
  }

  lemma OperationIssuesHave(spot: Spot, op: Operation, issue: Issue)
    ensures issue in OperationIssues(spot, op) <==>
            issue.BadText? && issue.place.FieldPlace? && issue.place == spot.At(issue.place.field)
            && HasComplaint(op, issue.place.field, issue.complaint)
  {
    hide Tag, Scan, Complaints, PairIssues;
    PairIssuesHave(spot, op.headers, true, issue);
    PairIssuesHave(spot, op.query, false, issue);
    TagHas(spot.At(PathField), Complaints(Scan(op.path)), issue);
    if op.body.Some? {
      TagHas(spot.At(BodyField), Complaints(Scan(op.body.value)), issue);
    }
    if issue.BadText? && issue.place.FieldPlace? {
      FieldComplaint(op, issue.place.field, issue.complaint);
    }
  }

  /** The texts of a field, case by case. */
  lemma FieldComplaint(op: Operation, field: Field, complaint: Complaint)
    ensures HasComplaint(op, field, complaint) <==>
            match field
            case PathField => complaint in Complaints(Scan(op.path))
            case HeaderField(name) => exists p :: p in op.headers && p.0 == name && complaint in Complaints(Scan(p.1))
            case QueryField(name) => exists p :: p in op.query && p.0 == name && complaint in Complaints(Scan(p.1))
            case BodyField => op.body.Some? && complaint in Complaints(Scan(op.body.value))
  {
    hide Scan, Complaints;
    match field
    case PathField => assert HasText(op, field, op.path);
    case BodyField => assert op.body.Some? ==> HasText(op, field, op.body.value);
    case HeaderField(name) =>
      if p :| p in op.headers && p.0 == name && complaint in Complaints(Scan(p.1)) {
        assert p == (name, p.1) && HasText(op, field, p.1);
      }
    case QueryField(name) =>
      if p :| p in op.query && p.0 == name && complaint in Complaints(Scan(p.1)) {
        assert p == (name, p.1) && HasText(op, field, p.1);
      }
  }

  lemma {:induction false} StepIssuesHave(flow: nat, cleanup: bool, steps: seq<Step>, n: nat, issue: Issue)
    requires n <= |steps|
    ensures issue in StepIssues(flow, cleanup, steps, n) <==>
            issue.BadText? && issue.place.FieldPlace? && issue.place.flow == flow && issue.place.cleanup == cleanup
            && issue.place.step < n
            && HasComplaint(steps[issue.place.step].operation, issue.place.field, issue.complaint)
  {
    hide OperationIssues, HasComplaint;
    if n > 0 {
      StepIssuesHave(flow, cleanup, steps, n - 1, issue);
      OperationIssuesHave(Spot(flow, cleanup, n - 1), steps[n - 1].operation, issue);
    }
  }

  lemma {:induction false} NoAssertions(steps: seq<Step>)
    ensures AssertionCount(steps) == 0 <==> forall step :: step in steps ==> step.assertions == []
  {
    if steps != [] {
      NoAssertions(steps[1..]);
      assert forall step :: step in steps <==> step == steps[0] || step in steps[1..];
    }
  }

  lemma FlowIssuesHave(flows: seq<Flow>, i: nat, issue: Issue)
    requires i < |flows|
    ensures issue in FlowIssues(i, flows[i]) <==> issue.place.flow == i && IsDefect(flows, issue)
  {
    hide StepIssues, HasComplaint;
    var flow := flows[i];
    NoAssertions(flow.steps);
    StepIssuesHave(i, false, flow.steps, |flow.steps|, issue);
    StepIssuesHave(i, true, flow.cleanup, |flow.cleanup|, issue);
  }

  lemma {:induction false} IssuesHave(flows: seq<Flow>, n: nat, issue: Issue)
    requires n <= |flows|
    ensures issue in Issues(flows, n) <==> issue.place.flow < n && IsDefect(flows, issue)
  {
    hide FlowIssues, IsDefect;
    if n > 0 {
      IssuesHave(flows, n - 1, issue);
      FlowIssuesHave(flows, n - 1, issue);
    }
  }

  lemma DefectPlace(flows: seq<Flow>, issue: Issue)
    requires IsDefect(flows, issue)
    ensures issue.place.flow < |flows|
  {
  }

  /** The lint reports exactly what is wrong: flows without any assertion, L1 flows without cleanup, and every complaint
      of every text of every step, each at its own place. */
  lemma LintReportsExactly(m: Manifest, issue: Issue)
    ensures issue in Issues(m.flows, |m.flows|) <==> IsDefect(m.flows, issue)
  {
    hide Issues, IsDefect;
    IssuesHave(m.flows, |m.flows|, issue);
    if IsDefect(m.flows, issue) {
      DefectPlace(m.flows, issue);
    }
  }

  lemma {:induction false} AllRequiredHas(texts: seq<string>, x: string)
    ensures x in AllRequired(texts) <==> exists text :: text in texts && x in Required(Scan(text))
  {
    hide Required, Scan;
    if texts != [] {
      AllRequiredHas(texts[1..], x);
      assert texts[0] in texts && forall text :: text in texts <==> text == texts[0] || text in texts[1..];
      assert x in AllRequired(texts) <==> x in Required(Scan(texts[0])) || x in AllRequired(texts[1..]);
    }
  }

  lemma {:induction false} StepsRequiredHas(steps: seq<Step>, x: string)
    ensures x in StepsRequired(steps) <==> exists step :: step in steps && x in AllRequired(Texts(step.operation))
  {
    hide AllRequired, Texts;
    if steps != [] {
      StepsRequiredHas(steps[1..], x);
      assert forall step :: step in steps <==> step == steps[0] || step in steps[1..];
    }
  }

  /** Some text of these steps reads this input. */
  ghost predicate ReadsInput(steps: seq<Step>, x: string) {
    exists step, text :: step in steps && text in Texts(step.operation) && "inputs." + x in Expressions(Scan(text))
  }

  /** The required inputs are exactly the non-empty names that some text of some step reads. */
  lemma RequiredExactly(steps: seq<Step>, x: string)
    ensures x in StepsRequired(steps) <==> x != "" && ReadsInput(steps, x)
  {
    hide StepsRequired, AllRequired, Texts, Names, Expressions, Scan;
    StepsRequiredHas(steps, x);
    forall step: Step ensures x in AllRequired(Texts(step.operation)) <==>
      x != "" && exists text :: text in Texts(step.operation) && "inputs." + x in Expressions(Scan(text))
    {
      AllRequiredHas(Texts(step.operation), x);
      forall text: string ensures x in Names(Scan(text), Inputs) <==> "inputs." + x in Expressions(Scan(text)) {
        NamesAreExpressions(Scan(text), Inputs, x);
      }
    }
  }

  // ---------------------------------------------------------------------------
  // A resolved operation, field by field
  // ---------------------------------------------------------------------------

  /** How many generated texts these texts take. */
  function Takes(texts: seq<string>): nat {
    if texts == [] then 0 else Builtins(Expressions(Scan(texts[0]))) + Takes(texts[1..])
  }

  /** The names in their order, each with its own text rendered after the texts before it. */
  ghost predicate AreRendered(pairs: Pairs, done: Pairs, b: Bindings, gen: Generated, n: nat) {
    |done| == |pairs| && forall i :: 0 <= i < |pairs| ==>
      done[i].0 == pairs[i].0
      && Render(Scan(pairs[i].1), b, gen, n + Takes(Values(pairs[..i]))).0 == Ok(done[i].1)
  }

  lemma {:induction false} PairsAreRendered(pairs: Pairs, b: Bindings, gen: Generated, n: nat)
    requires ResolvePairs(pairs, b, gen, n).0.Ok?
    ensures AreRendered(pairs, ResolvePairs(pairs, b, gen, n).0.value, b, gen, n)
    ensures ResolvePairs(pairs, b, gen, n).1 == n + Takes(Values(pairs))
  {
    hide Scan, Render, Builtins, Expressions, AreRendered;
    if pairs == [] {
      NoneRendered(b, gen, n);
    } else {
      var (value, n1) := Render(Scan(pairs[0].1), b, gen, n);
      RenderTakes(Scan(pairs[0].1), b, gen, n);
      assert Values(pairs)[1..] == Values(pairs[1..]);
      PairsAreRendered(pairs[1..], b, gen, n1);
      MoreRendered(pairs, value.value, ResolvePairs(pairs[1..], b, gen, n1).0.value, b, gen, n);
    }
  }

  lemma NoneRendered(b: Bindings, gen: Generated, n: nat)
    ensures AreRendered([], [], b, gen, n)
  {
  }

  lemma MoreRendered(pairs: Pairs, value: string, rest: Pairs, b: Bindings, gen: Generated, n: nat)
    requires pairs != [] && Render(Scan(pairs[0].1), b, gen, n).0 == Ok(value)
    requires AreRendered(pairs[1..], rest, b, gen, n + Builtins(Expressions(Scan(pairs[0].1))))
    ensures AreRendered(pairs, [(pairs[0].0, value)] + rest, b, gen, n)
  {
    hide Scan, Render, Builtins, Expressions;
    var done := [(pairs[0].0, value)] + rest;
    forall i | 0 <= i < |pairs|
      ensures done[i].0 == pairs[i].0
              && Render(Scan(pairs[i].1), b, gen, n + Takes(Values(pairs[..i]))).0 == Ok(done[i].1)
    {
      if i > 0 {
        TakesMore(pairs, i);
        assert done[i] == rest[i - 1] && pairs[i] == pairs[1..][i - 1];
      } else {
        assert Values(pairs[..0]) == [];
      }
    }
  }

  lemma TakesMore(pairs: Pairs, i: nat)
    requires 0 < i <= |pairs|
    ensures Takes(Values(pairs[..i])) == Builtins(Expressions(Scan(pairs[0].1))) + Takes(Values(pairs[1..][..i - 1]))
  {
    hide Scan, Builtins, Expressions;
    assert pairs[..i][1..] == pairs[1..][..i - 1];
    assert Values(pairs[..i])[1..] == Values(pairs[1..][..i - 1]);
  }

  /** A resolved operation has the method of the given one, its header and query names in their order, and in every
      place the text of that place rendered, after the texts read before it. */
  lemma ResolvedFields(op: Operation, b: Bindings, gen: Generated, n: nat)
    requires ResolveOperation(op, b, gen, n).0.Ok?
    ensures var r := ResolveOperation(op, b, gen, n).0.value;
            var n1 := n + Takes(Values(op.headers));
            var n2 := n1 + Takes(Values(op.query));
            var n3 := n2 + Takes([op.path]);
            && r.httpMethod == op.httpMethod
            && AreRendered(op.headers, r.headers, b, gen, n) && AreRendered(op.query, r.query, b, gen, n1)
            && Render(Scan(op.path), b, gen, n2).0 == Ok(r.path)
            && match op.body
               case None => r.body == None
               case Some(text) => r.body.Some? && Render(Scan(text), b, gen, n3).0 == Ok(r.body.value)
  {
    hide Scan, Render, Builtins, Expressions, AreRendered, ResolvePairs;
    PairsAreRendered(op.headers, b, gen, n);
    var n1 := n + Takes(Values(op.headers));
    PairsAreRendered(op.query, b, gen, n1);
    var n2 := n1 + Takes(Values(op.query));
    RenderTakes(Scan(op.path), b, gen, n2);
    assert [op.path][1..] == [];
    assert Takes([op.path]) == Builtins(Expressions(Scan(op.path))) + Takes([]);
  }
}
