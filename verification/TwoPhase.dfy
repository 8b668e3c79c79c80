/** Any number of DynamoDB writers interleaved lock by lock and access by access. */
module TwoPhase {
  import opened Base
  import opened Store
  import opened ItemWriters

  // ---------------------------------------------------------------------------
  // The step system
  // ---------------------------------------------------------------------------

  /** Where a task stands in its current unit: `Acquiring(n)` holds the first n locks,
      `Releasing(n, r)` has dropped the first n guards and will answer r. */
  datatype Phase =
    | Acquiring(n: nat)
    | Running(rest: seq<Op>, replaced: seq<Option<Item>>)
    | Releasing(dropped: nat, outcome: Outcome)

  datatype Task = Task(todo: seq<Unit>, phase: Phase, results: seq<Outcome>)

  /** `log` is not part of the program: it lists the units in the order of their last lock. */
  datatype Entry = Entry(task: nat, unit: Unit)

  datatype State = State(db: Database, holder: map<string, nat>, tasks: seq<Task>, log: seq<Entry>)

  function Start(db: Database, programs: seq<seq<Unit>>): State {
    State(db, map[], seq(|programs|, i requires 0 <= i < |programs| => Task(programs[i], Acquiring(0), [])), [])
  }

  ghost predicate Enabled(s: State, i: nat) {
    && i < |s.tasks|
    && s.tasks[i].todo != []
    && var t := s.tasks[i];
       t.phase.Acquiring? && t.phase.n < |t.todo[0].locks| ==> t.todo[0].locks[t.phase.n] !in s.holder
  }

  /** One step of task i: take or drop one lock, or perform one access. */
  function Advance(s: State, i: nat): State
    requires i < |s.tasks| && s.tasks[i].todo != []
  {
    var t := s.tasks[i];
    var u := t.todo[0];
    match t.phase
    case Acquiring(n) =>
      var holder := if n < |u.locks| then s.holder[u.locks[n] := i] else s.holder;
      if n + 1 < |u.locks| then s.(holder := holder, tasks := s.tasks[i := t.(phase := Acquiring(n + 1))])
      else s.(holder := holder, tasks := s.tasks[i := t.(phase := Running(u.ops, []))], log := s.log + [Entry(i, u)])
    case Running(rest, replaced) =>
      if rest == [] then s.(tasks := s.tasks[i := t.(phase := Releasing(0, Done(replaced)))])
      else (match Perform(rest[0], s.db, replaced)
        case Abort(e) => s.(tasks := s.tasks[i := t.(phase := Releasing(0, Failed(e)))])
        case Next(db, replaced') => s.(db := db, tasks := s.tasks[i := t.(phase := Running(rest[1..], replaced'))]))
    case Releasing(n, outcome) =>
      if n < |u.locks| then
        s.(holder := s.holder - {u.locks[n]}, tasks := s.tasks[i := t.(phase := Releasing(n + 1, outcome))])
      else
        var todo := if outcome.Failed? then [] else t.todo[1..];
        s.(tasks := s.tasks[i := Task(todo, Acquiring(0), t.results + [outcome])])
  }

  /** A run is the sequence of the tasks that step. */
  ghost predicate Legal(s: State, schedule: seq<nat>)
    decreases |schedule|
  {
    schedule == [] || (Enabled(s, schedule[0]) && Legal(Advance(s, schedule[0]), schedule[1..]))
  }

  ghost function After(s: State, schedule: seq<nat>): State
    requires Legal(s, schedule)
    decreases |schedule|
  {
    if schedule == [] then s else After(Advance(s, schedule[0]), schedule[1..])
  }

  // ---------------------------------------------------------------------------
  // The serial reference
  // ---------------------------------------------------------------------------

  ghost function Serial(log: seq<Entry>, db: Database): Database
    decreases |log|
  {
    if log == [] then db else Run(log[|log| - 1].unit.ops, Serial(log[..|log| - 1], db), []).0
  }

  /** The answers task i gets when the logged units run one after the other. */
  ghost function Answers(log: seq<Entry>, db: Database, i: nat): seq<Outcome>
    decreases |log|
  {
    if log == [] then []
    else
      var last, before := log[|log| - 1], log[..|log| - 1];
      Answers(before, db, i) + if last.task == i then [Run(last.unit.ops, Serial(before, db), []).1] else []
  }

  ghost function UnitsRunBy(log: seq<Entry>, i: nat): seq<Unit>
    decreases |log|
  {
    if log == [] then []
    else UnitsRunBy(log[..|log| - 1], i) + if log[|log| - 1].task == i then [log[|log| - 1].unit] else []
  }

  // ---------------------------------------------------------------------------
  // The invariant
  // ---------------------------------------------------------------------------

  ghost predicate Holds(t: Task, key: string) {
    && t.todo != []
    && var locks := t.todo[0].locks;
       match t.phase
       case Acquiring(n) => exists j :: 0 <= j < n && j < |locks| && locks[j] == key
       case Running(_, _) => key in locks
       case Releasing(n, _) => exists j :: n <= j < |locks| && locks[j] == key
  }

  ghost predicate TaskOk(t: Task) {
    && (forall u :: u in t.todo ==> WellFormed(u))
    && (t.todo == [] ==> t.phase == Acquiring(0))
    && (t.todo != [] ==>
          match t.phase
          case Acquiring(n) => n < |t.todo[0].locks| || n == 0
          case Running(rest, _) => Covered(rest, t.todo[0].locks)
          case Releasing(n, _) => n <= |t.todo[0].locks|)
  }

  /** Each mutex has at most one owner, and the owner is the task whose phase says so. */
  ghost predicate LocksOk(s: State) {
    && (forall k :: k in s.holder ==> s.holder[k] < |s.tasks| && Holds(s.tasks[s.holder[k]], k))
    && (forall i, k :: 0 <= i < |s.tasks| && Holds(s.tasks[i], k) ==> k in s.holder && s.holder[k] == i)
  }

  ghost predicate Busy(s: State, key: string)
    requires LocksOk(s)
  {
    key in s.holder && s.tasks[s.holder[key]].phase.Running?
  }

  /** The contents table t will have once the unit that is running under its lock has finished. */
  ghost function Settled(s: State, t: TableId): Table
    requires LocksOk(s) && t in s.db
  {
    if Busy(s, LockKey(t)) then Finish(s, s.holder[LockKey(t)]).0[t] else s.db[t]
  }

  ghost function Finish(s: State, i: nat): (r: (Database, Outcome))
    requires i < |s.tasks| && s.tasks[i].phase.Running?
    ensures r.0.Keys == s.db.Keys
  {
    RunKeepsTables(s.tasks[i].phase.rest, s.db, s.tasks[i].phase.replaced);
    Run(s.tasks[i].phase.rest, s.db, s.tasks[i].phase.replaced)
  }

  ghost predicate DataOk(s: State, init: Database)
    requires LocksOk(s)
  {
    && s.db.Keys == Serial(s.log, init).Keys
    && forall t :: t in s.db ==> Settled(s, t) == Serial(s.log, init)[t]
  }

  ghost function Pending(s: State, i: nat): seq<Outcome>
    requires i < |s.tasks|
  {
    match s.tasks[i].phase
    case Acquiring(_) => []
    case Running(_, _) => [Finish(s, i).1]
    case Releasing(_, outcome) => [outcome]
  }

  ghost predicate AnswersOk(s: State, init: Database) {
    forall i :: 0 <= i < |s.tasks| ==> Answers(s.log, init, i) == s.tasks[i].results + Pending(s, i)
  }

  /** Task t has run `ran` out of its program and, unless it failed, still has the rest to do. */
  ghost predicate OnTrack(t: Task, ran: seq<Unit>, program: seq<Unit>) {
    if t.todo == [] then
      ran == program || (ran <= program && t.results != [] && t.results[|t.results| - 1].Failed?)
    else if t.phase.Acquiring? then ran + t.todo == program
    else ran != [] && ran[|ran| - 1] == t.todo[0] && ran + t.todo[1..] == program
  }

  ghost predicate ProgramsOk(s: State, programs: seq<seq<Unit>>) {
    && |s.tasks| == |programs|
    && (forall e :: e in s.log ==> e.task < |programs|)
    && forall i :: 0 <= i < |s.tasks| ==> OnTrack(s.tasks[i], UnitsRunBy(s.log, i), programs[i])
  }

  ghost predicate Inv(s: State, init: Database, programs: seq<seq<Unit>>) {
    && (forall i :: 0 <= i < |s.tasks| ==> TaskOk(s.tasks[i]))
    && LocksOk(s)
    && DataOk(s, init)
    && AnswersOk(s, init)
    && ProgramsOk(s, programs)
  }

  // ---------------------------------------------------------------------------
  // Running a unit touches and sees nothing but the tables under its locks
  // ---------------------------------------------------------------------------

  lemma {:induction false} RunKeepsTables(ops: seq<Op>, db: Database, replaced: seq<Option<Item>>)
    ensures Run(ops, db, replaced).0.Keys == db.Keys
  {
    if ops == [] {
    } else {
      var r := Perform(ops[0], db, replaced);
      if r.Next? {
        assert r.db.Keys == db.Keys;
        RunKeepsTables(ops[1..], r.db, r.replaced);
      }
    }
  }

  ghost predicate AgreeUnder(locks: seq<string>, a: Database, b: Database) {
    a.Keys == b.Keys && forall t :: t in a && LockKey(t) in locks ==> a[t] == b[t]
  }

  ghost predicate AgreeOutside(locks: seq<string>, a: Database, b: Database) {
    a.Keys == b.Keys && forall t :: t in a && LockKey(t) !in locks ==> a[t] == b[t]
  }

  lemma {:induction false} RunIsLocal(ops: seq<Op>, locks: seq<string>, a: Database, b: Database,
                                      replaced: seq<Option<Item>>)
    requires Covered(ops, locks) && AgreeUnder(locks, a, b)
    ensures AgreeUnder(locks, Run(ops, a, replaced).0, Run(ops, b, replaced).0)
    ensures Run(ops, a, replaced).1 == Run(ops, b, replaced).1
    ensures AgreeOutside(locks, a, Run(ops, a, replaced).0)
  {
    if ops == [] {
    } else {
      assert LockKey(ops[0].table) in locks;
      var r, q := Perform(ops[0], a, replaced), Perform(ops[0], b, replaced);
      assert r.Next? <==> q.Next?;
      if r.Next? {
        assert r.replaced == q.replaced && AgreeUnder(locks, r.db, q.db) && AgreeOutside(locks, a, r.db);
        assert Covered(ops[1..], locks);
        RunIsLocal(ops[1..], locks, r.db, q.db, r.replaced);
      }
    }
  }
}
