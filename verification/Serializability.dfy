/** Every run of the interleaved writers is equivalent to a serial one, and none can get stuck. */
module Serializability {
  import opened Text
  import opened ItemWriters
  import opened TwoPhase

  // ---------------------------------------------------------------------------
  // Locks
  // ---------------------------------------------------------------------------

  lemma SortedDistinct(v: seq<string>, i: nat, j: nat)
    requires StrictlySorted(v) && i < |v| && j < |v| && v[i] == v[j]
    ensures i == j
  {
    LessIrreflexive(v[i]);
  }

  lemma StepTaskOk(s: State, i: nat)
    requires Enabled(s, i) && TaskOk(s.tasks[i])
    ensures TaskOk(Advance(s, i).tasks[i])
  {
    var t := s.tasks[i];
    assert forall u :: u in t.todo[1..] ==> u in t.todo;
    if t.phase.Acquiring? {
      assert t.todo[0] in t.todo;
    } else if t.phase.Running? && t.phase.rest != [] {
      assert forall op :: op in t.phase.rest[1..] ==> op in t.phase.rest;
    }
  }

  lemma HoldsAfter(s: State, i: nat, key: string)
    requires Enabled(s, i) && TaskOk(s.tasks[i])
    ensures var t, t', locks := s.tasks[i], Advance(s, i).tasks[i], s.tasks[i].todo[0].locks;
            Holds(t', key) <==>
              if t.phase.Acquiring? && t.phase.n < |locks| && key == locks[t.phase.n] then true
              else if t.phase.Releasing? && t.phase.dropped < |locks| && key == locks[t.phase.dropped] then false
              else Holds(t, key)
  {
    var t, t' := s.tasks[i], Advance(s, i).tasks[i];
    var locks := t.todo[0].locks;
    assert t.todo[0] in t.todo;
    match t.phase
    case Acquiring(n) =>
      if n < |locks| && key == locks[n] {
      } else if Holds(t, key) {
        var j :| 0 <= j < n && j < |locks| && locks[j] == key;
      }
    case Running(_, _) =>
    case Releasing(n, _) =>
      if n < |locks| && key == locks[n] {
        forall j | n + 1 <= j < |locks| ensures locks[j] != key {
          if locks[j] == key { SortedDistinct(locks, n, j); }
        }
      }
  }

  lemma HolderAfter(s: State, i: nat, key: string)
    requires Enabled(s, i)
    ensures var t, holder, locks := s.tasks[i], Advance(s, i).holder, s.tasks[i].todo[0].locks;
            if t.phase.Acquiring? && t.phase.n < |locks| && key == locks[t.phase.n] then
              key in holder && holder[key] == i
            else if t.phase.Releasing? && t.phase.dropped < |locks| && key == locks[t.phase.dropped] then key !in holder
            else key in holder <==> key in s.holder
    ensures key in Advance(s, i).holder && key in s.holder ==> Advance(s, i).holder[key] == s.holder[key]
  {
  }

  lemma Frame(s: State, i: nat, j: nat)
    requires Enabled(s, i) && j < |s.tasks| && j != i
    ensures |Advance(s, i).tasks| == |s.tasks| && Advance(s, i).tasks[j] == s.tasks[j]
  {
  }

  lemma TasksKept(s: State, i: nat)
    requires Enabled(s, i)
    ensures |Advance(s, i).tasks| == |s.tasks|
  {
  }

  lemma StepLocksOk(s: State, i: nat)
    requires Enabled(s, i) && TaskOk(s.tasks[i]) && LocksOk(s)
    ensures |Advance(s, i).tasks| == |s.tasks| && LocksOk(Advance(s, i))
  {
    hide Holds, TaskOk, Advance;
    var s' := Advance(s, i);
    TasksKept(s, i);
    forall k | k in s'.holder ensures s'.holder[k] < |s'.tasks| && Holds(s'.tasks[s'.holder[k]], k) {
      OwnerHolds(s, i, k);
    }
    forall j, k | 0 <= j < |s'.tasks| && Holds(s'.tasks[j], k) ensures k in s'.holder && s'.holder[k] == j {
      HolderOwns(s, i, j, k);
    }
  }

  lemma OwnerHolds(s: State, i: nat, k: string)
    requires Enabled(s, i) && TaskOk(s.tasks[i]) && LocksOk(s) && k in Advance(s, i).holder
    ensures var s' := Advance(s, i); s'.holder[k] < |s'.tasks| && Holds(s'.tasks[s'.holder[k]], k)
  {
    HoldsAfter(s, i, k);
    HolderAfter(s, i, k);
    if k in s.holder && s.holder[k] != i {
      Frame(s, i, s.holder[k]);
    }
  }

  lemma HolderOwns(s: State, i: nat, j: nat, k: string)
    requires Enabled(s, i) && TaskOk(s.tasks[i]) && LocksOk(s) && j < |s.tasks| && Holds(Advance(s, i).tasks[j], k)
    ensures k in Advance(s, i).holder && Advance(s, i).holder[k] == j
  {
    HoldsAfter(s, i, k);
    HolderAfter(s, i, k);
    if j != i {
      Frame(s, i, j);
      assert Holds(s.tasks[j], k);
      assert k in s.holder && s.holder[k] == j;
      if s.tasks[i].phase.Releasing? && s.tasks[i].phase.dropped < |s.tasks[i].todo[0].locks| {
        assert Holds(s.tasks[i], s.tasks[i].todo[0].locks[s.tasks[i].phase.dropped]);
      }
    }
  }

  // ---------------------------------------------------------------------------
  // Data and answers
  // ---------------------------------------------------------------------------

  /** What another running task will still do is unaffected by a step of task i. */
  lemma OthersUnaffected(s: State, i: nat, j: nat)
    requires Enabled(s, i) && LocksOk(s) && TaskOk(s.tasks[i])
    requires j < |s.tasks| && j != i && TaskOk(s.tasks[j]) && s.tasks[j].phase.Running?
    ensures Advance(s, i).tasks[j] == s.tasks[j]
    ensures var s' := Advance(s, i); var locks := s.tasks[j].todo[0].locks;
            AgreeUnder(locks, Finish(s, j).0, Finish(s', j).0) && Finish(s, j).1 == Finish(s', j).1
  {
    var s' := Advance(s, i);
    var locks := s.tasks[j].todo[0].locks;
    forall t | t in s.db && LockKey(t) in locks ensures s'.db[t] == s.db[t] {
      assert Holds(s.tasks[j], LockKey(t));
      if s.tasks[i].phase.Running? && s.tasks[i].phase.rest != [] {
        var op := s.tasks[i].phase.rest[0];
        assert op in s.tasks[i].phase.rest;
        assert LockKey(op.table) in s.tasks[i].todo[0].locks;
        assert Holds(s.tasks[i], LockKey(op.table));
        assert s.holder[LockKey(op.table)] == i && s.holder[LockKey(t)] == j;
        assert t != op.table;
      }
    }
    assert s'.db.Keys == s.db.Keys;
    RunIsLocal(s.tasks[j].phase.rest, locks, s.db, s'.db, s.tasks[j].phase.replaced);
  }

  ghost predicate Enters(s: State, i: nat)
    requires Enabled(s, i)
  {
    s.tasks[i].phase.Acquiring? && s.tasks[i].phase.n + 1 >= |s.tasks[i].todo[0].locks|
  }

  lemma OwnFinish(s: State, i: nat)
    requires Enabled(s, i) && s.tasks[i].phase.Running?
    ensures var s' := Advance(s, i);
            if s'.tasks[i].phase.Running? then Finish(s', i) == Finish(s, i)
            else Finish(s, i) == (s'.db, s'.tasks[i].phase.outcome)
  {
  }

  lemma SettledKept(s: State, i: nat, t: TableId)
    requires Enabled(s, i) && !Enters(s, i) && t in s.db
    requires (forall j :: 0 <= j < |s.tasks| ==> TaskOk(s.tasks[j])) && LocksOk(s)
    ensures LocksOk(Advance(s, i)) && t in Advance(s, i).db
    ensures Settled(Advance(s, i), t) == Settled(s, t)
  {
    hide Run;
    StepLocksOk(s, i);
    var s', key := Advance(s, i), LockKey(t);
    HoldsAfter(s, i, key);
    if s.tasks[i].phase.Running? {
      OwnFinish(s, i);
      RunKeepsTables(s.tasks[i].phase.rest, s.db, s.tasks[i].phase.replaced);
      if !Holds(s.tasks[i], key) && s.tasks[i].phase.rest != [] {
        assert LockKey(s.tasks[i].phase.rest[0].table) in s.tasks[i].todo[0].locks;
        assert s'.db[t] == s.db[t];
      }
    }
    if Busy(s, key) && s.holder[key] != i {
      OthersUnaffected(s, i, s.holder[key]);
      assert Holds(s.tasks[s.holder[key]], key);
    }
  }

  lemma SerialExtends(log: seq<Entry>, e: Entry, init: Database)
    ensures Serial(log + [e], init) == Run(e.unit.ops, Serial(log, init), []).0
    ensures forall i: nat :: Answers(log + [e], init, i) ==
              Answers(log, init, i) + if e.task == i then [Run(e.unit.ops, Serial(log, init), []).1] else []
    ensures forall i: nat :: UnitsRunBy(log + [e], i) == UnitsRunBy(log, i) + if e.task == i then [e.unit] else []
  {
    assert (log + [e])[..|log + [e]| - 1] == log;
  }

  lemma EntrySeesSerial(s: State, i: nat, init: Database)
    requires Enabled(s, i) && Enters(s, i)
    requires (forall j :: 0 <= j < |s.tasks| ==> TaskOk(s.tasks[j])) && LocksOk(s) && DataOk(s, init)
    ensures AgreeUnder(s.tasks[i].todo[0].locks, Serial(s.log, init), s.db)
  {
    hide Serial, Finish;
    StepLocksOk(s, i);
    var s', locks := Advance(s, i), s.tasks[i].todo[0].locks;
    forall t | t in s.db && LockKey(t) in locks ensures s.db[t] == Serial(s.log, init)[t] {
      HoldsAfter(s, i, LockKey(t));
      assert Holds(s'.tasks[i], LockKey(t));
      assert !Busy(s, LockKey(t));
      assert Settled(s, t) == s.db[t];
    }
  }

  /** When a unit gets its last lock, nobody else is running on its tables, so what it is about
      to do now is what it would do after the units already logged. */
  lemma EntryIsSerial(s: State, i: nat, init: Database)
    requires Enabled(s, i) && Enters(s, i)
    requires (forall j :: 0 <= j < |s.tasks| ==> TaskOk(s.tasks[j])) && LocksOk(s) && DataOk(s, init)
    ensures LocksOk(Advance(s, i)) && DataOk(Advance(s, i), init)
    ensures Finish(Advance(s, i), i).1 == Run(s.tasks[i].todo[0].ops, Serial(s.log, init), []).1
  {
    hide Run, Serial;
    StepLocksOk(s, i);
    var s', u := Advance(s, i), s.tasks[i].todo[0];
    var serial := Serial(s.log, init);
    assert u in s.tasks[i].todo;
    SerialExtends(s.log, Entry(i, u), init);
    EntrySeesSerial(s, i, init);
    RunIsLocal(u.ops, u.locks, serial, s.db, []);
    forall t | t in s'.db ensures Settled(s', t) == Serial(s'.log, init)[t] {
      var key := LockKey(t);
      HoldsAfter(s, i, key);
      if key in u.locks {
        assert Holds(s'.tasks[i], key);
      } else {
        assert !Holds(s'.tasks[i], key);
        assert Settled(s, t) == serial[t];
        if Busy(s, key) {
          OthersUnaffected(s, i, s.holder[key]);
          assert Holds(s.tasks[s.holder[key]], key);
        }
      }
    }
  }

  lemma StepDataOk(s: State, i: nat, init: Database)
    requires Enabled(s, i)
    requires (forall j :: 0 <= j < |s.tasks| ==> TaskOk(s.tasks[j])) && LocksOk(s) && DataOk(s, init)
    ensures LocksOk(Advance(s, i)) && DataOk(Advance(s, i), init)
  {
    hide Run, Holds, Serial, Settled, TaskOk;
    StepLocksOk(s, i);
    if Enters(s, i) {
      EntryIsSerial(s, i, init);
    } else {
      var s' := Advance(s, i);
      assert s'.db.Keys == s.db.Keys;
      forall t | t in s'.db ensures Settled(s', t) == Serial(s'.log, init)[t] {
        SettledKept(s, i, t);
        assert Settled(s, t) == Serial(s.log, init)[t];
      }
    }
  }

  lemma StepAnswersOk(s: State, i: nat, init: Database)
    requires Enabled(s, i)
    requires (forall j :: 0 <= j < |s.tasks| ==> TaskOk(s.tasks[j])) && LocksOk(s) && DataOk(s, init)
             && AnswersOk(s, init)
    ensures AnswersOk(Advance(s, i), init)
  {
    var s' := Advance(s, i);
    StepLocksOk(s, i);
    forall j | 0 <= j < |s'.tasks| ensures Answers(s'.log, init, j) == s'.tasks[j].results + Pending(s', j) {
      assert Answers(s.log, init, j) == s.tasks[j].results + Pending(s, j);
      if j == i {
        OwnAnswers(s, i, init);
      } else {
        OtherAnswers(s, i, j, init);
      }
    }
  }

  lemma OwnAnswers(s: State, i: nat, init: Database)
    requires Enabled(s, i)
    requires (forall j :: 0 <= j < |s.tasks| ==> TaskOk(s.tasks[j])) && LocksOk(s) && DataOk(s, init)
    requires Answers(s.log, init, i) == s.tasks[i].results + Pending(s, i)
    ensures Answers(Advance(s, i).log, init, i) == Advance(s, i).tasks[i].results + Pending(Advance(s, i), i)
  {
    hide Run, Perform, Holds, LocksOk, Serial, Answers, UnitsRunBy, DataOk, TaskOk;
    if Enters(s, i) {
      EntryIsSerial(s, i, init);
      SerialExtends(s.log, Entry(i, s.tasks[i].todo[0]), init);
    } else if s.tasks[i].phase.Running? {
      OwnFinish(s, i);
    }
  }

  lemma OtherAnswers(s: State, i: nat, j: nat, init: Database)
    requires Enabled(s, i) && j < |s.tasks| && j != i
    requires TaskOk(s.tasks[i]) && TaskOk(s.tasks[j]) && LocksOk(s)
    requires Answers(s.log, init, j) == s.tasks[j].results + Pending(s, j)
    ensures |Advance(s, i).tasks| == |s.tasks|
    ensures Answers(Advance(s, i).log, init, j) == Advance(s, i).tasks[j].results + Pending(Advance(s, i), j)
  {
    Frame(s, i, j);
    if Enters(s, i) {
      SerialExtends(s.log, Entry(i, s.tasks[i].todo[0]), init);
    }
    if s.tasks[j].phase.Running? {
      OthersUnaffected(s, i, j);
    }
  }

  lemma StepProgramsOk(s: State, i: nat, programs: seq<seq<Unit>>)
    requires Enabled(s, i) && TaskOk(s.tasks[i]) && ProgramsOk(s, programs)
    ensures ProgramsOk(Advance(s, i), programs)
  {
    hide OnTrack, TaskOk, Perform;
    var s', t := Advance(s, i), s.tasks[i];
    if Enters(s, i) {
      SerialExtends(s.log, Entry(i, t.todo[0]), s.db);
    }
    assert OnTrack(t, UnitsRunBy(s.log, i), programs[i]);
    OwnTrack(s, i, UnitsRunBy(s.log, i), programs[i]);
    forall j | 0 <= j < |s'.tasks| ensures OnTrack(s'.tasks[j], UnitsRunBy(s'.log, j), programs[j]) {
      assert OnTrack(s.tasks[j], UnitsRunBy(s.log, j), programs[j]);
      if j != i {
        Frame(s, i, j);
        assert UnitsRunBy(s'.log, j) == UnitsRunBy(s.log, j);
      }
    }
  }

  lemma OwnTrack(s: State, i: nat, ran: seq<Unit>, program: seq<Unit>)
    requires Enabled(s, i) && TaskOk(s.tasks[i]) && OnTrack(s.tasks[i], ran, program)
    ensures OnTrack(Advance(s, i).tasks[i], if Enters(s, i) then ran + [s.tasks[i].todo[0]] else ran, program)
  {
    var t, t' := s.tasks[i], Advance(s, i).tasks[i];
    if Enters(s, i) {
      assert t.todo == [t.todo[0]] + t.todo[1..];
      assert ran + [t.todo[0]] + t.todo[1..] == ran + t.todo;
    } else if t.phase.Releasing? && t'.phase.Acquiring? && t.todo[1..] == [] {
      assert ran + t.todo[1..] == ran;
    }
  }

  // ---------------------------------------------------------------------------
  // Serializability
  // ---------------------------------------------------------------------------

  ghost predicate Programs(programs: seq<seq<Unit>>) {
    forall p, u :: p in programs && u in p ==> WellFormed(u)
  }

  lemma StartInv(db: Database, programs: seq<seq<Unit>>)
    requires Programs(programs)
    ensures Inv(Start(db, programs), db, programs)
  {
    var s := Start(db, programs);
    assert forall i :: 0 <= i < |programs| ==> programs[i] in programs;
    assert forall i :: 0 <= i < |programs| ==> [] + programs[i] == programs[i];
  }

  lemma StepInv(s: State, i: nat, init: Database, programs: seq<seq<Unit>>)
    requires Inv(s, init, programs) && Enabled(s, i)
    ensures Inv(Advance(s, i), init, programs)
  {
    StepLocksOk(s, i);
    forall j | 0 <= j < |s.tasks| ensures TaskOk(Advance(s, i).tasks[j]) {
      if j == i { StepTaskOk(s, i); } else { Frame(s, i, j); }
    }
    StepDataOk(s, i, init);
    StepAnswersOk(s, i, init);
    StepProgramsOk(s, i, programs);
  }

  lemma {:induction false} RunInv(s: State, schedule: seq<nat>, init: Database, programs: seq<seq<Unit>>)
    requires Inv(s, init, programs) && Legal(s, schedule)
    ensures Inv(After(s, schedule), init, programs)
    decreases |schedule|
  {
    if schedule == [] {
    } else {
      StepInv(s, schedule[0], init, programs);
      RunInv(Advance(s, schedule[0]), schedule[1..], init, programs);
    }
  }

  ghost predicate Finished(s: State) {
    forall i :: 0 <= i < |s.tasks| ==> s.tasks[i].todo == []
  }

  /** The units task i ran in the order `log`: all of its program, or a prefix whose last unit failed. */
  ghost predicate RanProgram(log: seq<Entry>, db: Database, i: nat, program: seq<Unit>) {
    var ran, answers := UnitsRunBy(log, i), Answers(log, db, i);
    ran == program || (ran <= program && answers != [] && answers[|answers| - 1].Failed?)
  }

  ghost predicate IsSerialOrder(log: seq<Entry>, db: Database, programs: seq<seq<Unit>>) {
    && (forall e :: e in log ==> e.task < |programs|)
    && forall i :: 0 <= i < |programs| ==> RanProgram(log, db, i, programs[i])
  }

  /** Any finished run of any number of requests leaves the tables, and gives every caller the
      answers, of running the units one at a time in the order in which each got its last lock. */
  lemma Serializable(db: Database, contexts: seq<Context>, requests: seq<Request>, schedule: seq<nat>)
    requires |contexts| == |requests|
    requires Legal(Start(db, Compile(contexts, requests)), schedule)
    requires Finished(After(Start(db, Compile(contexts, requests)), schedule))
    ensures var end := After(Start(db, Compile(contexts, requests)), schedule);
            && IsSerialOrder(end.log, db, Compile(contexts, requests))
            && end.db == Serial(end.log, db)
            && |end.tasks| == |requests|
            && (forall i :: 0 <= i < |requests| ==> end.tasks[i].results == Answers(end.log, db, i))
            && end.holder == map[]
  {
    hide Run, Holds, Serial, Answers, UnitsRunBy;
    var programs := Compile(contexts, requests);
    var start := Start(db, programs);
    var end := After(start, schedule);
    CompiledPrograms(contexts, requests);
    StartInv(db, programs);
    RunInv(start, schedule, db, programs);
    FinishedHoldsNothing(end);
    forall t | t in end.db ensures end.db[t] == Serial(end.log, db)[t] {
      assert Settled(end, t) == Serial(end.log, db)[t];
    }
    forall i | 0 <= i < |requests|
      ensures end.tasks[i].results == Answers(end.log, db, i) && RanProgram(end.log, db, i, programs[i])
    {
      assert OnTrack(end.tasks[i], UnitsRunBy(end.log, i), programs[i]);
      assert TaskOk(end.tasks[i]);
      assert Answers(end.log, db, i) == end.tasks[i].results + Pending(end, i);
    }
  }

  lemma FinishedHoldsNothing(s: State)
    requires LocksOk(s) && Finished(s)
    ensures s.holder == map[]
  {
    forall k ensures k !in s.holder {
      NotHeld(s, k);
    }
  }

  lemma NotHeld(s: State, k: string)
    requires LocksOk(s) && Finished(s)
    ensures k !in s.holder
  {
  }

  /** Nothing is ever inserted before a logged unit: a unit that got its last lock after another
      request was answered comes after it in the serial order. */
  lemma {:induction false} LogOnlyGrows(s: State, schedule: seq<nat>)
    requires Legal(s, schedule)
    ensures s.log <= After(s, schedule).log
    decreases |schedule|
  {
    if schedule == [] {
    } else {
      LogOnlyGrows(Advance(s, schedule[0]), schedule[1..]);
    }
  }

  function Compile(contexts: seq<Context>, requests: seq<Request>): seq<seq<Unit>>
    requires |contexts| == |requests|
  {
    seq(|requests|, i requires 0 <= i < |requests| => UnitsOf(contexts[i], requests[i]))
  }

  lemma CompiledPrograms(contexts: seq<Context>, requests: seq<Request>)
    requires |contexts| == |requests|
    ensures Programs(Compile(contexts, requests))
  {
    forall p, u | p in Compile(contexts, requests) && u in p ensures WellFormed(u) {
      var i :| 0 <= i < |requests| && p == UnitsOf(contexts[i], requests[i]);
      UnitsWellFormed(contexts[i], requests[i], u);
    }
  }

  // ---------------------------------------------------------------------------
  // Progress
  // ---------------------------------------------------------------------------

  ghost predicate Blocked(s: State, i: nat) {
    && i < |s.tasks| && s.tasks[i].todo != []
    && var t := s.tasks[i];
       t.phase.Acquiring? && t.phase.n < |t.todo[0].locks| && t.todo[0].locks[t.phase.n] in s.holder
  }

  ghost function Wanted(s: State, i: nat): string
    requires Blocked(s, i)
  {
    s.tasks[i].todo[0].locks[s.tasks[i].phase.n]
  }

  /** Whoever owns the lock a blocked task wants is unfinished, and if blocked itself it wants a greater one. */
  lemma OwnerWantsMore(s: State, i: nat)
    requires (forall j :: 0 <= j < |s.tasks| ==> TaskOk(s.tasks[j])) && LocksOk(s) && Blocked(s, i)
    ensures var o := s.holder[Wanted(s, i)];
            o < |s.tasks| && s.tasks[o].todo != [] && (Blocked(s, o) ==> Less(Wanted(s, i), Wanted(s, o)))
  {
    var o := s.holder[Wanted(s, i)];
    assert Holds(s.tasks[o], Wanted(s, i));
    assert s.tasks[o].todo[0] in s.tasks[o].todo;
  }

  /** Among blocked tasks one wants a lock no smaller than any other's. */
  lemma {:induction false} GreatestWish(s: State, n: nat) returns (i: nat)
    requires 0 < n <= |s.tasks| && forall j :: 0 <= j < n ==> s.tasks[j].todo != [] ==> Blocked(s, j)
    requires exists j :: 0 <= j < n && s.tasks[j].todo != []
    ensures i < n && Blocked(s, i)
    ensures forall j :: 0 <= j < n && s.tasks[j].todo != [] ==> !Less(Wanted(s, i), Wanted(s, j))
  {
    if exists j :: 0 <= j < n - 1 && s.tasks[j].todo != [] {
      i := GreatestWish(s, n - 1);
      if s.tasks[n - 1].todo != [] && Less(Wanted(s, i), Wanted(s, n - 1)) {
        forall j | 0 <= j < n - 1 && s.tasks[j].todo != [] ensures !Less(Wanted(s, n - 1), Wanted(s, j)) {
          if Less(Wanted(s, n - 1), Wanted(s, j)) {
            LessTransitive(Wanted(s, i), Wanted(s, n - 1), Wanted(s, j));
          }
        }
        i := n - 1;
      }
      LessIrreflexive(Wanted(s, i));
    } else {
      i := n - 1;
      LessIrreflexive(Wanted(s, i));
    }
  }

  /** In every reachable state with unfinished requests, some task can step. */
  lemma DeadlockFree(db: Database, contexts: seq<Context>, requests: seq<Request>, schedule: seq<nat>)
    requires |contexts| == |requests|
    requires Legal(Start(db, Compile(contexts, requests)), schedule)
    ensures var s := After(Start(db, Compile(contexts, requests)), schedule);
            Finished(s) || exists i: nat :: Enabled(s, i)
  {
    var programs := Compile(contexts, requests);
    CompiledPrograms(contexts, requests);
    StartInv(db, programs);
    RunInv(Start(db, programs), schedule, db, programs);
    SomeoneCanStep(After(Start(db, programs), schedule));
  }

  lemma SomeoneCanStep(s: State)
    requires (forall j :: 0 <= j < |s.tasks| ==> TaskOk(s.tasks[j])) && LocksOk(s)
    ensures Finished(s) || exists i: nat :: Enabled(s, i)
  {
    if !Finished(s) && !exists i: nat :: Enabled(s, i) {
      forall j | 0 <= j < |s.tasks| && s.tasks[j].todo != [] ensures Blocked(s, j) {
        assert !Enabled(s, j);
      }
      var i := GreatestWish(s, |s.tasks|);
      OwnerWantsMore(s, i);
      assert false;
    }
  }

  /** Steps left to a task: two per lock, one per access, two to enter the answer and move on. */
  ghost function Cost(units: seq<Unit>): nat {
    if units == [] then 0 else 2 * |units[0].locks| + |units[0].ops| + 3 + Cost(units[1..])
  }

  ghost function Left(t: Task): nat
    requires TaskOk(t)
  {
    if t.todo == [] then 0
    else
      var u := t.todo[0];
      Cost(t.todo[1..]) +
      match t.phase
      case Acquiring(n) => if |u.locks| == 0 then |u.ops| + 3 else 2 * |u.locks| - n + |u.ops| + 2
      case Running(rest, _) => |u.locks| + |rest| + 2
      case Releasing(n, _) => |u.locks| - n + 1
  }

  ghost function TotalLeft(tasks: seq<Task>): nat
    requires forall j :: 0 <= j < |tasks| ==> TaskOk(tasks[j])
  {
    if tasks == [] then 0 else Left(tasks[0]) + TotalLeft(tasks[1..])
  }

  lemma StepCosts(s: State, i: nat)
    requires Enabled(s, i) && TaskOk(s.tasks[i])
    ensures TaskOk(Advance(s, i).tasks[i]) && Left(Advance(s, i).tasks[i]) < Left(s.tasks[i])
  {
    StepTaskOk(s, i);
  }

  lemma {:induction false} TotalDrops(tasks: seq<Task>, i: nat, t: Task)
    requires (forall j :: 0 <= j < |tasks| ==> TaskOk(tasks[j])) && i < |tasks| && TaskOk(t) && Left(t) < Left(tasks[i])
    ensures TotalLeft(tasks[i := t]) < TotalLeft(tasks)
  {
    if i > 0 {
      assert tasks[i := t][1..] == tasks[1..][i - 1 := t];
      TotalDrops(tasks[1..], i - 1, t);
    } else {
      assert tasks[0 := t][1..] == tasks[1..];
    }
  }

  /** No run is longer than the work in its requests: with `DeadlockFree`, every run that is
      continued while it can be comes to an end with every request answered. */
  lemma {:induction false} RunsAreBounded(s: State, schedule: seq<nat>, init: Database, programs: seq<seq<Unit>>)
    requires Inv(s, init, programs) && Legal(s, schedule)
    ensures |schedule| <= TotalLeft(s.tasks)
    decreases |schedule|
  {
    hide Holds, LocksOk, DataOk, AnswersOk, ProgramsOk, Left;
    if schedule == [] {
    } else {
      var s' := Advance(s, schedule[0]);
      StepInv(s, schedule[0], init, programs);
      StepCosts(s, schedule[0]);
      assert s'.tasks == s.tasks[schedule[0] := s'.tasks[schedule[0]]];
      TotalDrops(s.tasks, schedule[0], s'.tasks[schedule[0]]);
      RunsAreBounded(s', schedule[1..], init, programs);
    }
  }
}
