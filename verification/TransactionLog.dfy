/** The studio's bounded transaction log, with a 64-bit id counter of its own. */
module TransactionLog {
  import opened Base

  datatype Verdict = Success | ClientError | ServerError | Pending

  /** `TransactionOutcome::from_status`. */
  function FromStatus(status: nat): Verdict {
    if status == 0 then Pending
    else if 200 <= status <= 299 then Success
    else if 400 <= status <= 499 then ClientError
    else if 500 <= status <= 599 then ServerError
    else ClientError
  }

  datatype Record = Record(id: nat, service: string, outcome: Verdict, duration: Option<nat>)

  /** `complete`: the outcome follows from the status, and the duration is known. */
  function Complete(r: Record, status: nat, duration: nat): Record {
    r.(outcome := FromStatus(status), duration := Some(duration))
  }

  datatype Summary = Summary(
    total: nat, success: nat, clientError: nat, serverError: nat, pending: nat, averageDuration: Option<nat>)

  function Count(records: seq<Record>, v: Verdict): nat {
    if records == [] then 0 else (if records[0].outcome == v then 1 else 0) + Count(records[1..], v)
  }

  function Durations(records: seq<Record>): seq<nat> {
    if records == [] then []
    else (match records[0].duration case None => [] case Some(d) => [d]) + Durations(records[1..])
  }

  function Sum(values: seq<nat>): nat {
    if values == [] then 0 else values[0] + Sum(values[1..])
  }

  /** Arithmetic on u64 in a release build. */
  function Wrapped(n: nat): nat {
    n % (U64_MAX + 1)
  }

  function Without(records: seq<Record>, service: string): seq<Record> {
    if records == [] then []
    else (if records[0].service == service then [] else [records[0]]) + Without(records[1..], service)
  }

  function Edited(records: seq<Record>, id: nat, edit: Record -> Record): seq<Record> {
    if records == [] then []
    else if records[0].id == id then [edit(records[0])] + records[1..]
    else [records[0]] + Edited(records[1..], id, edit)
  }

  function Kept(records: seq<Record>, capacity: nat): seq<Record> {
    if |records| > capacity then records[..capacity] else records
  }

  /** Newest first, under strictly descending ids below the counter. */
  ghost predicate Descending(records: seq<Record>, nextId: nat) {
    && (forall i :: 0 <= i < |records| ==> records[i].id < nextId)
    && forall i, j :: 0 <= i < j < |records| ==> records[i].id > records[j].id
  }

  class Log {
    const maxEntries: nat
    var entries: seq<Record>
    var nextId: nat

    ghost predicate Valid()
      reads this
    {
      1 <= nextId <= U64_MAX && 1 <= maxEntries && |entries| <= maxEntries && Descending(entries, nextId)
    }

    constructor (maxEntries: nat)
      ensures Valid() && entries == [] && nextId == 1 && this.maxEntries == Max(1, maxEntries)
    {
      this.maxEntries := Max(1, maxEntries);
      entries, nextId := [], 1;
    }

    /** The invariant survives a push exactly when the counter does not wrap around. */
    method Push(r: Record) returns (id: nat)
      requires Valid()
      modifies this`entries, this`nextId
      ensures id == old(nextId) && nextId == Wrapped(old(nextId) + 1)
      ensures entries == Kept([r.(id := id)] + old(entries), maxEntries)
      ensures Valid() <==> old(nextId) + 1 <= U64_MAX
    {
      id := nextId;
      nextId := Wrapped(nextId + 1);
      entries := [r.(id := id)] + entries;
      ghost var all := entries;
      while |entries| > maxEntries
        invariant |all| >= |entries| >= Min(|all|, maxEntries) && entries == all[..|entries|]
        invariant nextId == Wrapped(old(nextId) + 1)
      {
        entries := entries[..|entries| - 1];
      }
      assert |all| <= maxEntries ==> entries == all;
    }

    method Clear()
      requires Valid()
      modifies this`entries
      ensures Valid() && entries == [] && nextId == old(nextId)
    {
      entries := [];
    }

    method ClearService(service: string) returns (removed: nat)
      requires Valid()
      modifies this`entries
      ensures Valid() && entries == Without(old(entries), service) && removed == |old(entries)| - |entries|
    {
      WithoutKeepsOrder(entries, service, nextId);
      var before := |entries|;
      entries := Without(entries, service);
      removed := before - |entries|;
    }

    /** The closure may write any field, the id included. */
    method Update(id: nat, edit: Record -> Record) returns (found: bool)
      requires Valid()
      modifies this`entries
      ensures found <==> exists r :: r in old(entries) && r.id == id
      ensures entries == Edited(old(entries), id, edit)
      ensures (forall r: Record :: edit(r).id == r.id) ==> Valid()
    {
      EditedAt(entries, id, edit, nextId);
      var i := 0;
      while i < |entries| && entries[i].id != id
        invariant i <= |entries| && forall j :: 0 <= j < i ==> entries[j].id != id
      {
        i := i + 1;
      }
      found := i < |entries|;
      if found {
        EditedIs(entries, id, edit, i);
        entries := entries[i := edit(entries[i])];
      } else {
        EditedNothing(entries, id, edit);
      }
    }

    method Summarize() returns (s: Summary)
      ensures s.total == |entries|
      ensures s.success == Count(entries, Success) && s.clientError == Count(entries, ClientError)
      ensures s.serverError == Count(entries, ServerError) && s.pending == Count(entries, Pending)
      ensures s.success + s.clientError + s.serverError + s.pending == s.total
      ensures s.averageDuration ==
              if Durations(entries) == [] then None else Some(Wrapped(Sum(Durations(entries))) / |Durations(entries)|)
    {
      hide Durations, Sum, Wrapped, Count;
      WrapLater(0, 0);
      NoDurations();
      CountNone();
      var success: nat, clientError: nat, serverError: nat, pending: nat, total: nat := 0, 0, 0, 0, 0;
      var completed := 0;
      assert entries[0..] == entries;
      for i := 0 to |entries|
        invariant success + Count(entries[i..], Success) == Count(entries, Success)
        invariant clientError + Count(entries[i..], ClientError) == Count(entries, ClientError)
        invariant serverError + Count(entries[i..], ServerError) == Count(entries, ServerError)
        invariant pending + Count(entries[i..], Pending) == Count(entries, Pending)
        invariant success + clientError + serverError + pending == i
        invariant total == Wrapped(total)
                  && Wrapped(total + Sum(Durations(entries[i..]))) == Wrapped(Sum(Durations(entries)))
        invariant completed + |Durations(entries[i..])| == |Durations(entries)|
      {
        var r := entries[i];
        assert entries[i..][1..] == entries[i + 1..];
        DurationsStep(entries[i..]);
        CountStep(entries[i..]);
        match r.outcome {
          case Success => success := success + 1;
          case ClientError => clientError := clientError + 1;
          case ServerError => serverError := serverError + 1;
          case Pending => pending := pending + 1;
        }
        if r.duration.Some? {
          WrapLater(total + r.duration.value, Sum(Durations(entries[i + 1..])));
          total := Wrapped(total + r.duration.value);
          completed := completed + 1;
        }
      }
      s := Summary(|entries|, success, clientError, serverError, pending,
                   if completed > 0 then Some(total / completed) else None);
    }
  }

  lemma NoDurations()
    ensures Durations([]) == [] && Sum([]) == 0
  {
  }

  lemma CountNone()
    ensures forall v :: Count([], v) == 0
  {
  }

  lemma CountStep(records: seq<Record>)
    requires records != []
    ensures forall v :: Count(records, v) == Count(records[1..], v) + if records[0].outcome == v then 1 else 0
  {
  }

  lemma DurationsStep(records: seq<Record>)
    requires records != []
    ensures var d, rest := records[0].duration, Durations(records[1..]);
            && |Durations(records)| == |rest| + (if d.Some? then 1 else 0)
            && Sum(Durations(records)) == Sum(rest) + if d.Some? then d.value else 0
  {
    var d, rest := records[0].duration, Durations(records[1..]);
    if d.Some? {
      assert Durations(records)[1..] == rest;
    } else {
      assert Durations(records) == rest;
    }
  }

  lemma WrapLater(a: nat, b: nat)
    ensures Wrapped(Wrapped(a) + b) == Wrapped(a + b)
    ensures Wrapped(Wrapped(a)) == Wrapped(a) && Wrapped(0) == 0
  {
  }

  lemma {:induction false} WithoutSelects(records: seq<Record>, service: string)
    ensures |Without(records, service)| <= |records|
    ensures forall r :: r in Without(records, service) <==> r in records && r.service != service
  {
    if records == [] {
    } else {
      WithoutSelects(records[1..], service);
      assert records == [records[0]] + records[1..];
    }
  }

  lemma {:induction false} WithoutKeepsOrder(records: seq<Record>, service: string, nextId: nat)
    requires Descending(records, nextId)
    ensures Descending(Without(records, service), nextId)
    ensures |Without(records, service)| <= |records|
    ensures forall r :: r in Without(records, service) ==> r in records
  {
    WithoutSelects(records, service);
    if records == [] {
    } else {
      hide Descending;
      var rest := Without(records[1..], service);
      DescendingTail(records, nextId);
      WithoutKeepsOrder(records[1..], service, nextId);
      assert forall r :: r in rest ==> r in records[1..];
      DescendingMore(records[0], rest, nextId);
    }
  }

  lemma DescendingTail(records: seq<Record>, nextId: nat)
    requires records != [] && Descending(records, nextId)
    ensures records[0].id < nextId && Descending(records[1..], nextId)
    ensures forall r :: r in records[1..] ==> r.id < records[0].id
  {
  }

  lemma DescendingMore(first: Record, rest: seq<Record>, nextId: nat)
    requires first.id < nextId && Descending(rest, nextId) && forall r :: r in rest ==> r.id < first.id
    ensures Descending([first] + rest, nextId)
  {
  }

  lemma {:induction false} EditedIs(records: seq<Record>, id: nat, edit: Record -> Record, i: nat)
    requires i < |records| && records[i].id == id && forall j :: 0 <= j < i ==> records[j].id != id
    ensures Edited(records, id, edit) == records[i := edit(records[i])]
  {
    if i == 0 {
    } else {
      EditedIs(records[1..], id, edit, i - 1);
    }
  }

  lemma {:induction false} EditedNothing(records: seq<Record>, id: nat, edit: Record -> Record)
    requires forall r :: r in records ==> r.id != id
    ensures Edited(records, id, edit) == records
  {
    if records == [] {
    } else {
      EditedNothing(records[1..], id, edit);
    }
  }

  lemma {:induction false} EditedAt(records: seq<Record>, id: nat, edit: Record -> Record, nextId: nat)
    requires Descending(records, nextId)
    ensures |Edited(records, id, edit)| == |records|
    ensures (forall r: Record :: edit(r).id == r.id) ==>
              forall i :: 0 <= i < |records| ==> Edited(records, id, edit)[i].id == records[i].id
  {
    if records != [] && records[0].id != id {
      EditedAt(records[1..], id, edit, nextId);
    }
  }

  /** This id belongs between the neighbours of place i. */
  predicate Fits(records: seq<Record>, i: nat, id: nat, nextId: nat)
    requires i < |records|
  {
    id < nextId && (i > 0 ==> id < records[i - 1].id) && (i + 1 < |records| ==> records[i + 1].id < id)
  }

  lemma FitKeepsOrder(records: seq<Record>, i: nat, r: Record, nextId: nat)
    requires Descending(records, nextId) && i < |records| && Fits(records, i, r.id, nextId)
    ensures Descending(records[i := r], nextId)
  {
    var done := records[i := r];
    forall j, k | 0 <= j < k < |done| ensures done[j].id > done[k].id {
      assert k == i && j < i - 1 ==> records[j].id > records[i - 1].id;
      assert j == i && k > i + 1 ==> records[i + 1].id > records[k].id;
    }
  }

  lemma OrderMeansFit(records: seq<Record>, i: nat, r: Record, nextId: nat)
    requires i < |records| && Descending(records[i := r], nextId)
    ensures Fits(records, i, r.id, nextId)
  {
    var done := records[i := r];
    assert done[i] == r;
    assert i > 0 ==> done[i - 1] == records[i - 1];
    assert i + 1 < |records| ==> done[i + 1] == records[i + 1];
  }

  /** An update that rewrites the id of the record it finds keeps the ids descending below the counter exactly if
      the new id still fits between the neighbours'. */
  lemma UpdateKeepsOrderIff(records: seq<Record>, i: nat, edit: Record -> Record, nextId: nat)
    requires Descending(records, nextId) && i < |records|
    ensures Descending(Edited(records, records[i].id, edit), nextId) <==> Fits(records, i, edit(records[i]).id, nextId)
  {
    EditedIs(records, records[i].id, edit, i);
    hide Edited, Fits;
    var r := edit(records[i]);
    if Fits(records, i, r.id, nextId) {
      FitKeepsOrder(records, i, r, nextId);
    }
    if Descending(records[i := r], nextId) {
      OrderMeansFit(records, i, r, nextId);
    }
  }

  // ---------------------------------------------------------------------------
  // The mean
  // ---------------------------------------------------------------------------

  ghost predicate AllBetween(values: seq<nat>, low: nat, high: nat) {
    forall i :: 0 <= i < |values| ==> low <= values[i] <= high
  }

  lemma {:induction false} SumBetween(values: seq<nat>, low: nat, high: nat)
    requires AllBetween(values, low, high)
    ensures low * |values| <= Sum(values) <= high * |values|
  {
    if values == [] {
    } else {
      SumBetween(values[1..], low, high);
      var k := |values| - 1;
      assert low * (k + 1) == low * k + low && high * (k + 1) == high * k + high;
    }
  }

  lemma MulMonotone(a: nat, b: nat, n: nat)
    requires a <= b
    ensures a * n <= b * n
  {
  }

  lemma QuotientIsUnique(q: nat, r: nat, d: nat, m: nat, n: nat)
    requires q * n + r == d * n + m && r < n && m < n
    ensures q == d
  {
    if q < d {
      MulMonotone(q + 1, d, n);
    } else if d < q {
      MulMonotone(d + 1, q, n);
    }
  }

  lemma DivideAgain(q: nat, n: nat, r: nat)
    requires 0 < n && r < n
    ensures (q * n + r) / n == q
  {
    var x := q * n + r;
    assert x == (x / n) * n + x % n;
    QuotientIsUnique(q, r, x / n, x % n, n);
  }

  lemma DivApart(a: nat, b: nat, n: nat)
    requires 0 < n && a + n <= b
    ensures a / n < b / n
  {
    DivideAgain(a / n + 1, n, a % n);
    assert (a / n + 1) * n + a % n == a + n;
    DivMonotone(a + n, b, n);
  }

  lemma DivMonotone(a: nat, b: nat, n: nat)
    requires 0 < n && a <= b
    ensures a / n <= b / n
  {
    assert a == (a / n) * n + a % n && b == (b / n) * n + b % n;
    if a / n > b / n {
      MulMonotone(b / n + 1, a / n, n);
    }
  }

  lemma WrapIsLess(sum: nat, n: nat)
    requires n <= U64_MAX
    ensures if sum <= U64_MAX then Wrapped(sum) == sum else Wrapped(sum) + n <= sum
  {
  }

  /** The reported average is the mean, rounded down and between the extremes, exactly when the
      durations add up to less than 2^64 ms. */
  lemma AverageIsMean(values: seq<nat>, low: nat, high: nat)
    requires 0 < |values| <= U64_MAX && AllBetween(values, low, high)
    ensures low <= Sum(values) / |values| <= high
    ensures Wrapped(Sum(values)) / |values| == Sum(values) / |values| <==> Sum(values) <= U64_MAX
  {
    hide Wrapped;
    var n, sum := |values|, Sum(values);
    SumBetween(values, low, high);
    DivideAgain(low, n, 0);
    DivideAgain(high, n, 0);
    DivMonotone(low * n, sum, n);
    DivMonotone(sum, high * n, n);
    WrapIsLess(sum, n);
    if sum > U64_MAX {
      DivApart(Wrapped(sum), sum, n);
    }
  }

  /** How a status counts; 0 is that of a request not yet answered, and whatever is neither success nor server error
      is put on the client. */
  predicate CountsAs(status: nat, v: Verdict) {
    match v
    case Pending => status == 0
    case Success => 200 <= status < 300
    case ServerError => 500 <= status < 600
    case ClientError => status != 0 && status / 100 != 2 && status / 100 != 5
  }

  lemma VerdictOf(status: nat, v: Verdict)
    ensures FromStatus(status) == v <==> CountsAs(status, v)
  {
  }

  /** Completing the record in place i moves exactly it from its outcome to that of the status, whatever the others are,
      and its duration takes the place in the sum of the one it had, if any. */
  lemma {:induction false} CompletionMovesOne(records: seq<Record>, i: nat, id: nat, status: nat, duration: nat,
                                              v: Verdict)
    requires i < |records| && records[i].id == id && forall j :: 0 <= j < i ==> records[j].id != id
    ensures var done, had := Edited(records, id, r => Complete(r, status, duration)), records[i].duration;
            && |done| == |records|
            && Count(done, v) + (if records[i].outcome == v then 1 else 0)
               == Count(records, v) + (if CountsAs(status, v) then 1 else 0)
            && Sum(Durations(done)) + (if had.Some? then had.value else 0) == Sum(Durations(records)) + duration
            && |Durations(done)| + (if had.Some? then 1 else 0) == |Durations(records)| + 1
  {
    hide FromStatus, CountsAs, Durations, Sum;
    VerdictOf(status, v);
    var done := Edited(records, id, r => Complete(r, status, duration));
    DurationsStep(records);
    DurationsStep(done);
    if i == 0 {
      assert done[1..] == records[1..];
    } else {
      assert done[1..] == Edited(records[1..], id, r => Complete(r, status, duration));
      CompletionMovesOne(records[1..], i - 1, id, status, duration, v);
    }
  }

  // ---------------------------------------------------------------------------
  // Whole runs
  // ---------------------------------------------------------------------------

  datatype LogOp =
    | PushOp(record: Record)
    | ClearOp
    | ClearServiceOp(service: string)
    | UpdateOp(id: nat, edit: Record -> Record)

  datatype LogState = LogState(entries: seq<Record>, nextId: nat)

  function Apply(s: LogState, op: LogOp, capacity: nat): LogState {
    match op
    case PushOp(r) => LogState(Kept([r.(id := s.nextId)] + s.entries, capacity), Wrapped(s.nextId + 1))
    case ClearOp => s.(entries := [])
    case ClearServiceOp(service) => s.(entries := Without(s.entries, service))
    case UpdateOp(id, edit) => s.(entries := Edited(s.entries, id, edit))
  }

  function Run(s: LogState, ops: seq<LogOp>, capacity: nat): LogState
    decreases |ops|
  {
    if ops == [] then s else Run(Apply(s, ops[0], capacity), ops[1..], capacity)
  }

  function Pushes(ops: seq<LogOp>): nat {
    if ops == [] then 0 else (if ops[0].PushOp? then 1 else 0) + Pushes(ops[1..])
  }

  /** Updates leave the ids of records alone. */
  ghost predicate KeepsIds(ops: seq<LogOp>) {
    forall op :: op in ops && op.UpdateOp? ==> forall r: Record :: op.edit(r).id == r.id
  }

  /** And their services. */
  ghost predicate KeepsServices(ops: seq<LogOp>) {
    forall op :: op in ops && op.UpdateOp? ==> forall r: Record :: op.edit(r).service == r.service
  }

  ghost predicate Ok(s: LogState, capacity: nat) {
    |s.entries| <= capacity && Descending(s.entries, s.nextId)
  }

  lemma ApplyOk(s: LogState, op: LogOp, capacity: nat)
    requires Ok(s, capacity) && capacity >= 1 && KeepsIds([op])
    requires s.nextId + (if op.PushOp? then 1 else 0) <= U64_MAX
    ensures Ok(Apply(s, op, capacity), capacity)
    ensures Apply(s, op, capacity).nextId == s.nextId + if op.PushOp? then 1 else 0
  {
    assert op in [op];
    if op.ClearServiceOp? {
      WithoutKeepsOrder(s.entries, op.service, s.nextId);
    } else if op.UpdateOp? {
      EditedAt(s.entries, op.id, op.edit, s.nextId);
    }
  }

  /** Over any run of fewer than 2^64 pushes: the length stays within capacity, ids descend, and
      the counter only moves forward, so no id comes back after a clear. */
  lemma {:induction false} IdsNeverReused(s: LogState, ops: seq<LogOp>, capacity: nat)
    requires Ok(s, capacity) && capacity >= 1 && KeepsIds(ops) && s.nextId + Pushes(ops) <= U64_MAX
    ensures Ok(Run(s, ops, capacity), capacity)
    ensures Run(s, ops, capacity).nextId == s.nextId + Pushes(ops)
    ensures forall r :: r in Run(s, ops, capacity).entries ==>
              r.id >= s.nextId || exists q :: q in s.entries && q.id == r.id
    decreases |ops|
  {
    if ops == [] {
    } else {
      assert ops == [ops[0]] + ops[1..];
      ApplyOk(s, ops[0], capacity);
      OldOrNew(s, ops[0], capacity);
      IdsNeverReused(Apply(s, ops[0], capacity), ops[1..], capacity);
    }
  }

  lemma OldOrNew(s: LogState, op: LogOp, capacity: nat)
    requires Ok(s, capacity) && KeepsIds([op])
    ensures forall r :: r in Apply(s, op, capacity).entries ==>
              r.id >= s.nextId || exists q :: q in s.entries && q.id == r.id
  {
    assert op in [op];
    if op.ClearServiceOp? {
      WithoutKeepsOrder(s.entries, op.service, s.nextId);
    } else if op.UpdateOp? {
      EditedAt(s.entries, op.id, op.edit, s.nextId);
    }
  }

  ghost predicate Spares(ops: seq<LogOp>, service: string) {
    forall op :: op in ops ==> op != ClearOp && op != ClearServiceOp(service)
  }

  ghost predicate HeldAt(s: LogState, id: nat, service: string, place: nat) {
    exists i :: 0 <= i <= place && i < |s.entries| && s.entries[i].id == id && s.entries[i].service == service
  }

  /** A record that no clear concerns is still there after fewer than `capacity` further pushes. */
  lemma {:induction false} RecordSurvives(s: LogState, ops: seq<LogOp>, capacity: nat, id: nat, service: string,
                                          place: nat)
    requires Ok(s, capacity) && KeepsIds(ops) && KeepsServices(ops) && Spares(ops, service)
    requires s.nextId + Pushes(ops) <= U64_MAX
    requires HeldAt(s, id, service, place) && place + Pushes(ops) < capacity
    ensures HeldAt(Run(s, ops, capacity), id, service, place + Pushes(ops))
    decreases |ops|
  {
    if ops == [] {
    } else {
      assert ops == [ops[0]] + ops[1..];
      ApplyOk(s, ops[0], capacity);
      assert forall op :: op in ops[1..] ==> op in ops;
      var place' := place + if ops[0].PushOp? then 1 else 0;
      assert ops[0] in ops;
      StepSurvives(s, ops[0], capacity, id, service, place);
      RecordSurvives(Apply(s, ops[0], capacity), ops[1..], capacity, id, service, place');
    }
  }

  lemma StepSurvives(s: LogState, op: LogOp, capacity: nat, id: nat, service: string, place: nat)
    requires Ok(s, capacity) && KeepsIds([op]) && KeepsServices([op]) && op != ClearOp && op != ClearServiceOp(service)
    requires HeldAt(s, id, service, place) && place + (if op.PushOp? then 1 else 0) < capacity
    ensures HeldAt(Apply(s, op, capacity), id, service, place + if op.PushOp? then 1 else 0)
  {
    var i :| 0 <= i <= place && i < |s.entries| && s.entries[i].id == id && s.entries[i].service == service;
    var s' := Apply(s, op, capacity);
    assert op in [op];
    match op
    case PushOp(r) =>
      assert s'.entries[i + 1] == s.entries[i];
    case ClearServiceOp(other) =>
      var j := StaysBefore(s.entries, other, i);
    case UpdateOp(target, edit) =>
      EditedKeeps(s.entries, target, edit, i);
      assert s'.entries[i].id == id;
  }

  lemma {:induction false} StaysBefore(records: seq<Record>, service: string, i: nat) returns (j: nat)
    requires i < |records| && records[i].service != service
    ensures j <= i && j < |Without(records, service)| && Without(records, service)[j] == records[i]
  {
    if i == 0 {
      j := 0;
    } else {
      j := StaysBefore(records[1..], service, i - 1);
      if records[0].service != service {
        j := j + 1;
      }
    }
  }

  lemma {:induction false} EditedKeeps(records: seq<Record>, id: nat, edit: Record -> Record, i: nat)
    requires i < |records| && forall r: Record :: edit(r).id == r.id && edit(r).service == r.service
    ensures |Edited(records, id, edit)| == |records|
    ensures Edited(records, id, edit)[i].id == records[i].id
            && Edited(records, id, edit)[i].service == records[i].service
  {
    if records[0].id != id {
      if i > 0 {
        EditedKeeps(records[1..], id, edit, i - 1);
      } else if |records| > 1 {
        EditedKeeps(records[1..], id, edit, 0);
      }
    }
  }
}
