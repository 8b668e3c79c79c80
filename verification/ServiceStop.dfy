/** Any number of `stop` calls among the calls of `ensure_running`: exactly when the atomic mirror survives them.
    Every lock operation, state write and mirror store of either side is a step of its own. */
module ServiceStop {
  import opened Base
  import opened ServiceContainer

  /** A stop writes state and mirror under the write lock, first Stopping and then Stopped, without the init lock.
      The provider's own `stop()` may fail, which ends it early. */
  datatype StopPc =
    | LockStopping
    | WriteStopping
    | MirrorStopping
    | CallStop
    | LockStopped
    | WriteStopped
    | MirrorStopped
    | StopReturned

  /** `stopper` is the stop that holds the write lock. */
  datatype Service = Service(container: Container, stops: seq<StopPc>, stopper: Option<nat>)

  datatype Turn = CallTurn(move: Move) | StopTurn(stop: nat, failed: bool)

  function Fresh(calls: nat, stops: nat): Service {
    Service(Initial(calls), seq(stops, _ => LockStopping), None)
  }

  predicate TakesStateLock(pc: Pc) {
    pc.LockRead? || pc.LockReadAgain? || pc.LockWriteStarting? || pc.LockWriteRunning? || pc.LockWriteError?
  }

  predicate TakesWriteLock(pc: StopPc) {
    pc.LockStopping? || pc.LockStopped?
  }

  predicate CanTurn(v: Service, t: Turn) {
    match t
    case CallTurn(m) => Enabled(v.container, m.call) && (TakesStateLock(v.container.calls[m.call]) ==> v.stopper.None?)
    case StopTurn(j, _) =>
      && j < |v.stops| && v.stops[j] != StopReturned
      && (TakesWriteLock(v.stops[j]) ==> v.stopper.None? && v.container.writer.None? && v.container.readers == {})
  }

  function TakeTurn(v: Service, t: Turn): Service
    requires CanTurn(v, t)
  {
    match t
    case CallTurn(m) => v.(container := Advance(v.container, m.call, m.failure))
    case StopTurn(j, failed) => StopStep(v, j, failed)
  }

  function StopStep(v: Service, j: nat, failed: bool): Service
    requires j < |v.stops|
  {
    var c := v.container;
    match v.stops[j]
    case LockStopping => v.(stops := v.stops[j := WriteStopping], stopper := Some(j))
    case WriteStopping => v.(stops := v.stops[j := MirrorStopping], container := c.(state := Stopping))
    case MirrorStopping =>
      v.(stops := v.stops[j := CallStop], stopper := None, container := c.(atomic := ATOMIC_STOPPING))
    case CallStop => v.(stops := v.stops[j := if failed then StopReturned else LockStopped])
    case LockStopped => v.(stops := v.stops[j := WriteStopped], stopper := Some(j))
    case WriteStopped => v.(stops := v.stops[j := MirrorStopped], container := c.(state := Stopped))
    case MirrorStopped =>
      v.(stops := v.stops[j := StopReturned], stopper := None, container := c.(atomic := ATOMIC_STOPPED))
    case StopReturned => v
  }

  ghost predicate IsRun(v: Service, turns: seq<Turn>)
    decreases |turns|
  {
    turns == [] || (CanTurn(v, turns[0]) && IsRun(TakeTurn(v, turns[0]), turns[1..]))
  }

  ghost function EndOf(v: Service, turns: seq<Turn>): Service
    requires IsRun(v, turns)
    decreases |turns|
  {
    if turns == [] then v else EndOf(TakeTurn(v, turns[0]), turns[1..])
  }

  // ---------------------------------------------------------------------------
  // The one step that can go wrong
  // ---------------------------------------------------------------------------

  predicate StoresLate(pc: Pc) {
    pc.MirrorRunning? || pc.MirrorError?
  }

  /** The state that a call has written and is about to mirror. */
  function Written(pc: Pc): ServiceState
    requires StoresLate(pc)
  {
    match pc
    case MirrorRunning => Running
    case MirrorError(m) => Error(m)
  }

  predicate Overwritten(state: ServiceState) {
    state.Stopping? || state.Stopped?
  }

  /** A call stores its mirror after a stop has overwritten its state, and no stop that holds the lock will store
      after it. */
  predicate Hazard(v: Service, t: Turn)
    requires CanTurn(v, t)
  {
    t.CallTurn? && StoresLate(v.container.calls[t.move.call]) && Overwritten(v.container.state) && v.stopper.None?
  }

  ghost predicate AvoidsHazards(v: Service, turns: seq<Turn>)
    requires IsRun(v, turns)
    decreases |turns|
  {
    turns == [] || (!Hazard(v, turns[0]) && AvoidsHazards(TakeTurn(v, turns[0]), turns[1..]))
  }

  /** Nobody is inside a start, and nobody holds the write lock. */
  predicate Quiet(v: Service) {
    v.container.initOwner.None? && v.container.writer.None? && v.stopper.None?
  }

  predicate Agrees(v: Service) {
    v.container.atomic == Mirror(v.container.state)
  }

  // ---------------------------------------------------------------------------
  // The invariant
  // ---------------------------------------------------------------------------

  predicate InSection(pc: StopPc) {
    pc.WriteStopping? || pc.MirrorStopping? || pc.WriteStopped? || pc.MirrorStopped?
  }

  ghost predicate StopLocksOk(v: Service) {
    && LocksOk(v.container)
    && (forall j: nat :: v.stopper == Some(j) <==> j < |v.stops| && InSection(v.stops[j]))
    && (v.stopper.Some? ==> v.container.writer.None? && v.container.readers == {})
  }

  /** Under a stop's lock the mirror may be anything, since the stop will store it; otherwise it agrees with the
      state, but for the call that still has to store what it wrote. */
  ghost predicate MirrorOk(v: Service) {
    var c := v.container;
    match v.stopper
    case Some(j) =>
      (j < |v.stops|
       && (v.stops[j].MirrorStopping? ==> c.state.Stopping?) && (v.stops[j].MirrorStopped? ==> c.state.Stopped?))
    case None =>
      (match c.initOwner
       case None => Agrees(v)
       case Some(i) => i < |c.calls| && OwnerAgrees(v, c.calls[i]))
  }

  ghost predicate OwnerAgrees(v: Service, pc: Pc) {
    if pc.MirrorStarting? then v.container.state.Starting?
    else if StoresLate(pc) then v.container.state == Written(pc) || (Overwritten(v.container.state) && Agrees(v))
    else Agrees(v)
  }

  ghost predicate StopInv(v: Service) {
    StopLocksOk(v) && MirrorOk(v)
  }

  lemma FreshInv(calls: nat, stops: nat)
    ensures StopInv(Fresh(calls, stops))
  {
    InitialInv(calls);
  }

  lemma CallKeepsLocks(v: Service, t: Turn)
    requires StopLocksOk(v) && t.CallTurn? && CanTurn(v, t)
    ensures StopLocksOk(TakeTurn(v, t))
  {
    var c, i := v.container, t.move.call;
    StepLocksOk(c, i, t.move.failure);
    NoReaderNow(c, i);
  }

  lemma NoReaderNow(c: Container, i: nat)
    requires LocksOk(c) && Enabled(c, i)
    ensures c.readers == {} ==> !Reading(c.calls[i])
    ensures c.writer.None? ==> !Writing(c.calls[i])
  {
    assert i in c.readers <==> Reading(c.calls[i]);
    assert c.writer == Some(i) <==> Writing(c.calls[i]);
  }

  lemma StopKeepsLocks(v: Service, t: Turn)
    requires StopLocksOk(v) && t.StopTurn? && CanTurn(v, t)
    ensures StopLocksOk(TakeTurn(v, t))
  {
    var c, d := v.container, TakeTurn(v, t).container;
    SameLocks(c, d);
  }

  lemma SameLocks(c: Container, d: Container)
    requires LocksOk(c) && d == c.(state := d.state, atomic := d.atomic)
    ensures LocksOk(d)
  {
  }

  /** A call keeps the invariant exactly if its step is no hazard. */
  lemma CallKeepsMirror(v: Service, t: Turn)
    requires StopInv(v) && t.CallTurn? && CanTurn(v, t)
    ensures MirrorOk(TakeTurn(v, t)) <==> !Hazard(v, t)
  {
    var c, i := v.container, t.move.call;
    NoReaderNow(c, i);
    if InCritical(c.calls[i]) {
      assert c.initOwner == Some(i);
    } else {
      BystanderStep(c, i, t.move.failure);
    }
  }

  lemma StopKeepsMirror(v: Service, t: Turn)
    requires StopInv(v) && t.StopTurn? && CanTurn(v, t)
    ensures MirrorOk(TakeTurn(v, t))
  {
    var c := v.container;
    if InSection(v.stops[t.stop]) {
      assert v.stopper == Some(t.stop);
      OwnerIsNotWriting(c);
    }
  }

  lemma OwnerIsNotWriting(c: Container)
    requires LocksOk(c) && c.writer.None?
    ensures c.initOwner.Some? ==> c.initOwner.value < |c.calls| && !Writing(c.calls[c.initOwner.value])
  {
    if c.initOwner.Some? {
      var i := c.initOwner.value;
      assert c.initOwner == Some(i) && c.writer != Some(i);
    }
  }

  lemma {:induction false} RunKeepsInv(v: Service, turns: seq<Turn>)
    requires StopInv(v) && IsRun(v, turns) && AvoidsHazards(v, turns)
    ensures StopInv(EndOf(v, turns))
    decreases |turns|
  {
    hide StopLocksOk, MirrorOk, CanTurn, TakeTurn, Hazard;
    if turns == [] {
    } else {
      TurnKeepsInv(v, turns[0]);
      RunKeepsInv(TakeTurn(v, turns[0]), turns[1..]);
    }
  }

  lemma TurnKeepsInv(v: Service, t: Turn)
    requires StopInv(v) && CanTurn(v, t)
    ensures StopLocksOk(TakeTurn(v, t))
    ensures MirrorOk(TakeTurn(v, t)) <==> !Hazard(v, t)
  {
    hide StopLocksOk, MirrorOk, TakeTurn, CanTurn;
    if t.CallTurn? {
      CallKeepsLocks(v, t);
      CallKeepsMirror(v, t);
    } else {
      StopKeepsLocks(v, t);
      StopKeepsMirror(v, t);
    }
  }

  // ---------------------------------------------------------------------------
  // Main results
  // ---------------------------------------------------------------------------

  /** With any number of calls and stops, mirror and state agree at every quiet moment of a run without a hazard. */
  lemma MirrorSurvivesStops(calls: nat, stops: nat, turns: seq<Turn>)
    requires IsRun(Fresh(calls, stops), turns) && AvoidsHazards(Fresh(calls, stops), turns)
    ensures var v := EndOf(Fresh(calls, stops), turns); Quiet(v) ==> Agrees(v)
  {
    FreshInv(calls, stops);
    RunKeepsInv(Fresh(calls, stops), turns);
  }

  ghost predicate AlwaysAgrees(v: Service) {
    forall turns :: IsRun(v, turns) && AvoidsHazards(v, turns) && Quiet(EndOf(v, turns)) ==> Agrees(EndOf(v, turns))
  }

  /** A step of such a run leaves mirror and state agreeing at every later quiet moment exactly if it is no hazard. */
  lemma StepIsSafeIff(calls: nat, stops: nat, turns: seq<Turn>, t: Turn)
    requires IsRun(Fresh(calls, stops), turns) && AvoidsHazards(Fresh(calls, stops), turns)
    requires CanTurn(EndOf(Fresh(calls, stops), turns), t)
    ensures var v := EndOf(Fresh(calls, stops), turns); AlwaysAgrees(TakeTurn(v, t)) <==> !Hazard(v, t)
  {
    var v := EndOf(Fresh(calls, stops), turns);
    FreshInv(calls, stops);
    RunKeepsInv(Fresh(calls, stops), turns);
    TurnKeepsInv(v, t);
    hide StopInv, Hazard, CanTurn, TakeTurn, IsRun, AvoidsHazards, EndOf, AlwaysAgrees;
    if Hazard(v, t) {
      HazardShows(v, t);
    } else {
      InvAlwaysAgrees(TakeTurn(v, t));
    }
  }

  lemma InvAlwaysAgrees(v: Service)
    requires StopInv(v)
    ensures AlwaysAgrees(v)
  {
    forall turns | IsRun(v, turns) && AvoidsHazards(v, turns) && Quiet(EndOf(v, turns))
      ensures Agrees(EndOf(v, turns))
    {
      RunKeepsInv(v, turns);
    }
  }

  /** The call drops the init lock next, and nothing corrects the mirror. */
  lemma HazardShows(v: Service, t: Turn)
    requires StopInv(v) && CanTurn(v, t) && Hazard(v, t)
    ensures !AlwaysAgrees(TakeTurn(v, t))
  {
    var i, w := t.move.call, TakeTurn(v, t);
    OwnerWritesLast(v.container, i);
    var drop := CallTurn(Move(i, None));
    assert CanTurn(w, drop) && !Hazard(w, drop);
    OneTurn(w, drop);
    assert Quiet(EndOf(w, [drop])) && !Agrees(EndOf(w, [drop]));
  }

  lemma OwnerWritesLast(c: Container, i: nat)
    requires LocksOk(c) && i < |c.calls| && StoresLate(c.calls[i])
    ensures c.initOwner == Some(i) && c.writer.None?
  {
    assert InCritical(c.calls[i]);
    WriterIsOwner(c);
  }

  lemma WriterIsOwner(c: Container)
    requires LocksOk(c)
    ensures c.writer.Some? ==>
              c.writer.value < |c.calls| && Writing(c.calls[c.writer.value]) && c.initOwner == c.writer
  {
    if c.writer.Some? {
      var k := c.writer.value;
      assert c.writer == Some(k) && InCritical(c.calls[k]);
      assert c.initOwner == Some(k);
    }
  }

  lemma OneTurn(v: Service, t: Turn)
    requires CanTurn(v, t)
    ensures IsRun(v, [t]) && EndOf(v, [t]) == TakeTurn(v, t)
    ensures !Hazard(v, t) ==> AvoidsHazards(v, [t])
  {
    hide TakeTurn, CanTurn, Hazard;
    var w := TakeTurn(v, t);
    assert [t][1..] == [];
    assert IsRun(w, []) && EndOf(w, []) == w && AvoidsHazards(w, []);
  }

  // ---------------------------------------------------------------------------
  // Starts do not overlap, stops or not
  // ---------------------------------------------------------------------------

  /** Every call of `start()` ends, in whichever way, before the next begins. */
  ghost predicate Alternates(h: seq<Event>) {
    forall k :: 0 <= k < |h| ==> BeginsOrEnds(h, k)
  }

  predicate BeginsOrEnds(h: seq<Event>, k: nat)
    requires k < |h|
  {
    if k % 2 == 0 then h[k].Begin? else !h[k].Begin? && h[k].task == h[k - 1].task
  }

  /** A start is under way exactly while the owner of the init lock awaits it. */
  ghost predicate HistoryOk(c: Container) {
    && Alternates(c.history)
    && (|c.history| % 2 == 1 <==>
          c.initOwner.Some? && c.initOwner.value < |c.calls| && c.calls[c.initOwner.value].AwaitStart?)
    && (|c.history| % 2 == 1 ==> c.history[|c.history| - 1] == Begin(c.initOwner.value))
  }

  lemma AlternatesOn(h: seq<Event>, e: Event)
    requires Alternates(h)
    requires |h| % 2 == 0 ==> e.Begin?
    requires |h| % 2 == 1 ==> !e.Begin? && e.task == h[|h| - 1].task
    ensures Alternates(h + [e])
  {
    var more := h + [e];
    forall k | 0 <= k < |more| ensures BeginsOrEnds(more, k) {
      assert k < |h| ==> BeginsOrEnds(h, k);
    }
  }

  lemma CallKeepsHistory(c: Container, i: nat, failure: Option<string>)
    requires InitLockOk(c) && Enabled(c, i) && HistoryOk(c)
    ensures HistoryOk(Advance(c, i, failure))
  {
    hide Alternates;
    OthersWait(c, i, failure);
    if InCritical(c.calls[i]) {
      assert c.initOwner == Some(i);
      if c.calls[i].CallStart? {
        AlternatesOn(c.history, Begin(i));
      } else if c.calls[i].AwaitStart? {
        AlternatesOn(c.history, if failure.None? then Success(i) else Failure(i));
      }
    }
  }

  lemma {:induction false} RunKeepsHistory(v: Service, turns: seq<Turn>)
    requires StopLocksOk(v) && HistoryOk(v.container) && IsRun(v, turns)
    ensures HistoryOk(EndOf(v, turns).container)
    decreases |turns|
  {
    if turns == [] {
    } else {
      var t := turns[0];
      if t.CallTurn? {
        CallKeepsLocks(v, t);
        CallKeepsHistory(v.container, t.move.call, t.move.failure);
      } else {
        StopKeepsLocks(v, t);
        StopKeepsHistory(v, t);
      }
      hide StopLocksOk, HistoryOk, CanTurn, TakeTurn;
      RunKeepsHistory(TakeTurn(v, t), turns[1..]);
    }
  }

  lemma StopKeepsHistory(v: Service, t: Turn)
    requires t.StopTurn? && CanTurn(v, t) && HistoryOk(v.container)
    ensures HistoryOk(TakeTurn(v, t).container)
  {
  }

  /** With any number of calls and stops, whatever the hazards, calls of `start()` never overlap, and one is under way
      exactly while the owner of the init lock awaits it. */
  lemma StartsNeverOverlap(calls: nat, stops: nat, turns: seq<Turn>)
    requires IsRun(Fresh(calls, stops), turns)
    ensures HistoryOk(EndOf(Fresh(calls, stops), turns).container)
  {
    FreshInv(calls, stops);
    RunKeepsHistory(Fresh(calls, stops), turns);
  }

  // ---------------------------------------------------------------------------
  // One stop on its own
  // ---------------------------------------------------------------------------

  /** Where the stop stands after k of its steps. */
  function StopPath(k: nat): StopPc {
    match k
    case 0 => LockStopping
    case 1 => WriteStopping
    case 2 => MirrorStopping
    case 3 => CallStop
    case 4 => LockStopped
    case 5 => WriteStopped
    case 6 => MirrorStopped
    case _ => StopReturned
  }

  /** A stop after k of its steps, with nobody else at the lock. */
  ghost predicate StopAt(v: Service, j: nat, k: nat) {
    var c := v.container;
    && j < |v.stops| && v.stops[j] == StopPath(k) && k <= 7
    && c.writer.None? && c.readers == {} && v.stopper == (if InSection(StopPath(k)) then Some(j) else None)
    && (2 <= k <= 5 ==> c.state == Stopping) && (3 <= k <= 6 ==> c.atomic == ATOMIC_STOPPING)
    && (6 <= k ==> c.state == Stopped) && (k == 7 ==> c.atomic == ATOMIC_STOPPED)
  }

  ghost predicate StopLeft(v: Service, w: Service, j: nat, failed: bool) {
    && j < |v.stops| && w.stops == v.stops[j := StopReturned] && w.stopper.None?
    && w.container == v.container.(state := if failed then Stopping else Stopped,
                                   atomic := if failed then ATOMIC_STOPPING else ATOMIC_STOPPED)
  }

  /** A stop left alone ends with state and mirror at Stopped, or both at Stopping if the provider's stop fails, and
      touches nothing else. */
  lemma {:induction false} StopAlone(v: Service, j: nat, k: nat, failed: bool) returns (turns: seq<Turn>)
    requires StopAt(v, j, k) && k < 7 && (failed ==> k <= 3)
    ensures IsRun(v, turns) && StopLeft(v, EndOf(v, turns), j, failed)
    decreases 7 - k
  {
    var t := StopTurn(j, failed && k == 3);
    var w := TakeTurn(v, t);
    if (failed && k == 3) || k == 6 {
      turns := [t];
      OneTurn(v, t);
    } else {
      assert StopAt(w, j, k + 1);
      var rest := StopAlone(w, j, k + 1, failed);
      turns := [t] + rest;
      assert turns[1..] == rest;
    }
  }

  // ---------------------------------------------------------------------------
  // After a stop
  // ---------------------------------------------------------------------------

  lemma StoppedStep(v: Service, t: Turn)
    requires CanTurn(v, t) && (forall j :: 0 <= j < |v.stops| ==> v.stops[j] == StopReturned)
    ensures t.CallTurn? && TakeTurn(v, t) == v.(container := Advance(v.container, t.move.call, t.move.failure))
  {
  }

  lemma {:induction false} StoppedRun(v: Service, turns: seq<Turn>)
    requires IsRun(v, turns) && (forall j :: 0 <= j < |v.stops| ==> v.stops[j] == StopReturned)
    requires AllBeforeCheck(v.container) && Refuses(v.container, "Service has been stopped")
    ensures var c, d := v.container, EndOf(v, turns).container;
            && d.state == c.state && d.atomic == c.atomic && d.history == c.history && d.attempts == c.attempts
            && Refused(c.calls, d.calls, "Service has been stopped")
    decreases |turns|
  {
    if turns == [] {
    } else {
      hide Advance, AllBeforeCheck, Refused, Enabled, CanTurn, TakeTurn;
      var c, m := v.container, turns[0].move;
      StoppedStep(v, turns[0]);
      CanTurnIsEnabled(v, turns[0]);
      RefusingStep(c, m.call, m.failure, "Service has been stopped");
      ReturnedStays(c, m.call, m.failure);
      var v' := TakeTurn(v, turns[0]);
      StoppedRun(v', turns[1..]);
      RefusedTwice(c.calls, v'.container.calls, EndOf(v, turns).container.calls, "Service has been stopped");
    }
  }

  lemma CanTurnIsEnabled(v: Service, t: Turn)
    requires CanTurn(v, t) && t.CallTurn?
    ensures Enabled(v.container, t.move.call)
  {
  }

  /** A stop that has run to its end is final as well: if no other stop is under way and no call has gone past its
      check, the service is never started again and every further call is told that it has been stopped. */
  lemma StopIsFinal(v: Service, turns: seq<Turn>)
    requires IsRun(v, turns) && v.container.state == Stopped && v.container.atomic == ATOMIC_STOPPED
    requires AllBeforeCheck(v.container) && (forall j :: 0 <= j < |v.stops| ==> v.stops[j] == StopReturned)
    ensures var c, d := v.container, EndOf(v, turns).container;
            && d.state == Stopped && d.history == c.history && d.attempts == c.attempts && |c.calls| == |d.calls|
            && forall i :: 0 <= i < |c.calls| && d.calls[i].Returned? && !c.calls[i].Returned? ==>
                 d.calls[i].answer == Err("Service has been stopped")
  {
    hide IsRun, EndOf, AllBeforeCheck;
    StoppedRun(v, turns);
    RefusedAt(v.container.calls, EndOf(v, turns).container.calls, "Service has been stopped");
  }

  // ---------------------------------------------------------------------------
  // And it does happen
  // ---------------------------------------------------------------------------

  lemma {:induction false} OneMore(v: Service, turns: seq<Turn>, t: Turn)
    requires IsRun(v, turns) && CanTurn(EndOf(v, turns), t)
    ensures IsRun(v, turns + [t]) && EndOf(v, turns + [t]) == TakeTurn(EndOf(v, turns), t)
    decreases |turns|
  {
    hide TakeTurn, CanTurn;
    if turns == [] {
      assert turns + [t] == [t];
      OneTurn(v, t);
    } else {
      assert (turns + [t])[1..] == turns[1..] + [t];
      OneMore(TakeTurn(v, turns[0]), turns[1..], t);
    }
  }

  /** The steps of a call that starts the service without a failure. */
  function Path(k: nat): Pc {
    match k
    case 0 => LoadAtomic
    case 1 => LockRead
    case 2 => Inspect
    case 3 => CountWait
    case 4 => LockInit
    case 5 => LockReadAgain
    case 6 => InspectAgain
    case 7 => LockWriteStarting
    case 8 => SetStarting
    case 9 => MirrorStarting
    case 10 => CountAttempt
    case 11 => CallStart
    case 12 => AwaitStart
    case 13 => StoreDuration
    case 14 => LockWriteRunning
    case 15 => SetRunning
    case _ => MirrorRunning
  }

  ghost predicate AloneAt(v: Service, k: nat) {
    var c := v.container;
    && v.stops == [LockStopping] && v.stopper.None?
    && c.calls == [Path(k)]
    && c.writer == (if Writing(Path(k)) then Some(0) else None)
    && c.readers == (if Reading(Path(k)) then {0} else {})
    && c.initOwner == (if InCritical(Path(k)) then Some(0) else None)
    && (k <= 8 ==> c.state.Available? && c.atomic == ATOMIC_AVAILABLE)
    && (k == 16 ==> c.state.Running?)
  }

  lemma AloneStep(v: Service, k: nat)
    requires AloneAt(v, k) && k < 16
    ensures CanTurn(v, CallTurn(Move(0, None))) && AloneAt(TakeTurn(v, CallTurn(Move(0, None))), k + 1)
  {
    assert {0} - {0} == {} && {} + {0} == {0};
  }

  lemma AloneAtFirst()
    ensures AloneAt(Fresh(1, 1), 0)
  {
  }

  lemma {:induction false} AloneFor(k: nat) returns (turns: seq<Turn>)
    requires k <= 16
    ensures IsRun(Fresh(1, 1), turns) && AloneAt(EndOf(Fresh(1, 1), turns), k)
  {
    hide AloneAt, TakeTurn, CanTurn, Fresh;
    turns := [];
    if k == 0 {
      AloneAtFirst();
    } else {
      var before := AloneFor(k - 1);
      var t := CallTurn(Move(0, None));
      AloneStep(EndOf(Fresh(1, 1), before), k - 1);
      OneMore(Fresh(1, 1), before, t);
      turns := before + [t];
    }
  }

  ghost predicate StoppingAt(v: Service, k: nat) {
    var c := v.container;
    && v.stops == [StopPath(k)] && v.stopper == (if InSection(StopPath(k)) then Some(0) else None)
    && c.calls == [MirrorRunning] && c.writer.None? && c.readers == {} && c.initOwner == Some(0)
    && (k == 7 ==> c.state.Stopped? && c.atomic == ATOMIC_STOPPED)
    && (k == 6 ==> c.state.Stopped?)
  }

  lemma StoppingStep(v: Service, k: nat)
    requires StoppingAt(v, k) && k < 7
    ensures CanTurn(v, StopTurn(0, false)) && StoppingAt(TakeTurn(v, StopTurn(0, false)), k + 1)
  {
  }

  lemma {:induction false} StopFor(k: nat) returns (turns: seq<Turn>)
    requires k <= 7
    ensures IsRun(Fresh(1, 1), turns) && StoppingAt(EndOf(Fresh(1, 1), turns), k)
  {
    hide TakeTurn, CanTurn, Fresh;
    if k == 0 {
      turns := AloneFor(16);
    } else {
      hide StoppingAt;
      var before := StopFor(k - 1);
      StoppingStep(EndOf(Fresh(1, 1), before), k - 1);
      OneMore(Fresh(1, 1), before, StopTurn(0, false));
      turns := before + [StopTurn(0, false)];
    }
  }

  /** One caller and one complete stop are enough: both have returned, the state is Stopped, and the mirror says
      Running, so that the next caller is told that the service runs. */
  lemma StoppedButRunning() returns (turns: seq<Turn>)
    ensures IsRun(Fresh(1, 1), turns)
    ensures var v := EndOf(Fresh(1, 1), turns);
            && v.stops == [StopReturned] && v.container.calls == [Returned(Ok(()))] && Quiet(v)
            && v.container.state.Stopped? && v.container.atomic == ATOMIC_RUNNING
            && FromAtomic(v.container.atomic) == Returned(Ok(()))
  {
    var t := CallTurn(Move(0, None));
    var stopped := StopFor(7);
    StoreAndDrop(EndOf(Fresh(1, 1), stopped));
    hide TakeTurn, CanTurn, Fresh, StoppingAt;
    OneMore(Fresh(1, 1), stopped, t);
    OneMore(Fresh(1, 1), stopped + [t], t);
    turns := stopped + [t] + [t];
  }

  lemma StoreAndDrop(v: Service)
    requires StoppingAt(v, 7)
    ensures var t := CallTurn(Move(0, None));
            && CanTurn(v, t) && CanTurn(TakeTurn(v, t), t)
            && var w := TakeTurn(TakeTurn(v, t), t);
               && w.stops == [StopReturned] && w.container.calls == [Returned(Ok(()))] && Quiet(w)
               && w.container.state.Stopped? && w.container.atomic == ATOMIC_RUNNING
  {
  }
}
