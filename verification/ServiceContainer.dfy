/** The lazy start protocol: any number of interleaved `ensure_running` calls on one container.
    Every lock operation and every access to the atomic mirror is a step of its own. */
module ServiceContainer {
  import opened Base

  datatype ServiceState = Available | Starting | Running | Stopping | Stopped | Error(message: string)

  const ATOMIC_AVAILABLE: nat := 0
  const ATOMIC_STARTING: nat := 1
  const ATOMIC_RUNNING: nat := 2
  const ATOMIC_STOPPING: nat := 3
  const ATOMIC_STOPPED: nat := 4
  const ATOMIC_ERROR: nat := 5

  function Mirror(state: ServiceState): nat {
    match state
    case Available => ATOMIC_AVAILABLE
    case Starting => ATOMIC_STARTING
    case Running => ATOMIC_RUNNING
    case Stopping => ATOMIC_STOPPING
    case Stopped => ATOMIC_STOPPED
    case Error(_) => ATOMIC_ERROR
  }

  type Answer = Result<(), string>

  const STOPPED_MESSAGE := "Service has been stopped"

  /** The next thing a call will do. */
  datatype Pc =
    | LoadAtomic
    | LockRead
    | Inspect
    | CountWait
    | LockInit
    | LockReadAgain
    | InspectAgain
    | LockWriteStarting
    | SetStarting
    | MirrorStarting
    | CountAttempt
    | CallStart
    | AwaitStart
    | StoreDuration
    | LockWriteRunning
    | SetRunning
    | MirrorRunning
    | LockWriteError(message: string)
    | SetError(message: string)
    | MirrorError(message: string)
    | DropInit(answer: Answer)
    | Returned(answer: Answer)

  /** The calls of the provider's `start()` as an observer sees them. */
  datatype Event = Begin(task: nat) | Success(task: nat) | Failure(task: nat)

  datatype Container = Container(
    state: ServiceState,
    atomic: nat,
    initOwner: Option<nat>,
    writer: Option<nat>,
    readers: set<nat>,
    attempts: nat,
    waits: nat,
    calls: seq<Pc>,
    history: seq<Event>)

  function Initial(n: nat): Container {
    Container(Available, ATOMIC_AVAILABLE, None, None, {}, 0, 0, seq(n, _ => LoadAtomic), [])
  }

  predicate Enabled(c: Container, i: nat) {
    i < |c.calls| && match c.calls[i]
      case LockRead => c.writer.None?
      case LockReadAgain => c.writer.None?
      case LockInit => c.initOwner.None?
      case LockWriteStarting => c.writer.None? && c.readers == {}
      case LockWriteRunning => c.writer.None? && c.readers == {}
      case LockWriteError(_) => c.writer.None? && c.readers == {}
      case Returned(_) => false
      case _ => true
  }

  function Go(c: Container, i: nat, pc: Pc): Container
    requires i < |c.calls|
  {
    c.(calls := c.calls[i := pc])
  }

  /** The lock-free check on the hot path. */
  function FromAtomic(atomic: nat): Pc {
    if atomic == ATOMIC_RUNNING then Returned(Ok(()))
    else if atomic == ATOMIC_STOPPED then Returned(Err(STOPPED_MESSAGE))
    else LockRead
  }

  /** The check under the read lock. */
  function FromState(state: ServiceState): Pc {
    match state
    case Running => Returned(Ok(()))
    case Error(m) => Returned(Err("Service in error state: " + m))
    case Stopped => Returned(Err(STOPPED_MESSAGE))
    case _ => CountWait
  }

  /** One step of call i; `failure` is what `start()` answers if this is where it completes. */
  function Advance(c: Container, i: nat, failure: Option<string>): Container
    requires Enabled(c, i)
  {
    match c.calls[i]
    case LoadAtomic =>
      Go(c, i, FromAtomic(c.atomic))
    case LockRead => Go(c, i, Inspect).(readers := c.readers + {i})
    case Inspect =>
      Go(c, i, FromState(c.state)).(readers := c.readers - {i})
    case CountWait => Go(c, i, LockInit).(waits := c.waits + 1)
    case LockInit => Go(c, i, LockReadAgain).(initOwner := Some(i))
    case LockReadAgain => Go(c, i, InspectAgain).(readers := c.readers + {i})
    case InspectAgain =>
      Go(c, i, if c.state.Running? then DropInit(Ok(())) else LockWriteStarting).(readers := c.readers - {i})
    case LockWriteStarting => Go(c, i, SetStarting).(writer := Some(i))
    case SetStarting => Go(c, i, MirrorStarting).(state := Starting)
    case MirrorStarting => Go(c, i, CountAttempt).(atomic := ATOMIC_STARTING, writer := None)
    case CountAttempt => Go(c, i, CallStart).(attempts := c.attempts + 1)
    case CallStart => Go(c, i, AwaitStart).(history := c.history + [Begin(i)])
    case AwaitStart =>
      if failure.None? then Go(c, i, StoreDuration).(history := c.history + [Success(i)])
      else Go(c, i, LockWriteError(failure.value)).(history := c.history + [Failure(i)])
    case StoreDuration => Go(c, i, LockWriteRunning)
    case LockWriteRunning => Go(c, i, SetRunning).(writer := Some(i))
    case SetRunning => Go(c, i, MirrorRunning).(state := Running, writer := None)
    case MirrorRunning => Go(c, i, DropInit(Ok(()))).(atomic := ATOMIC_RUNNING)
    case LockWriteError(m) => Go(c, i, SetError(m)).(writer := Some(i))
    case SetError(m) => Go(c, i, MirrorError(m)).(state := Error(m), writer := None)
    case MirrorError(m) => Go(c, i, DropInit(Err(m))).(atomic := ATOMIC_ERROR)
    case DropInit(answer) => Go(c, i, Returned(answer)).(initOwner := None)
  }

  datatype Move = Move(call: nat, failure: Option<string>)

  ghost predicate Legal(c: Container, run: seq<Move>)
    decreases |run|
  {
    run == [] || (Enabled(c, run[0].call) && Legal(Advance(c, run[0].call, run[0].failure), run[1..]))
  }

  ghost function After(c: Container, run: seq<Move>): Container
    requires Legal(c, run)
    decreases |run|
  {
    if run == [] then c else After(Advance(c, run[0].call, run[0].failure), run[1..])
  }

  // ---------------------------------------------------------------------------
  // What an observer may rely on
  // ---------------------------------------------------------------------------

  /** Calls of `start()` never overlap, and none begins after one succeeded. */
  ghost predicate Disciplined(h: seq<Event>) {
    forall k :: 0 <= k < |h| ==> InTurn(h, k)
  }

  predicate InTurn(h: seq<Event>, k: nat)
    requires k < |h|
  {
    if k % 2 == 0 then h[k].Begin?
    else !h[k].Begin? && h[k].task == h[k - 1].task && (h[k].Success? ==> k == |h| - 1)
  }

  predicate Succeeded(h: seq<Event>) {
    h != [] && h[|h| - 1].Success?
  }

  predicate SomeFailure(h: seq<Event>) {
    exists k :: 0 <= k < |h| && h[k].Failure?
  }

  // ---------------------------------------------------------------------------
  // The invariant
  // ---------------------------------------------------------------------------

  predicate InCritical(pc: Pc) {
    !(pc.LoadAtomic? || pc.LockRead? || pc.Inspect? || pc.CountWait? || pc.LockInit? || pc.Returned?)
  }

  predicate Reading(pc: Pc) {
    pc.Inspect? || pc.InspectAgain?
  }

  predicate Writing(pc: Pc) {
    pc.SetStarting? || pc.MirrorStarting? || pc.SetRunning? || pc.SetError?
  }

  ghost predicate InitLockOk(c: Container) {
    forall i: nat :: c.initOwner == Some(i) <==> i < |c.calls| && InCritical(c.calls[i])
  }

  ghost predicate WriteLockOk(c: Container) {
    forall i: nat :: c.writer == Some(i) <==> i < |c.calls| && Writing(c.calls[i])
  }

  ghost predicate ReadLocksOk(c: Container) {
    forall i: nat :: i in c.readers <==> i < |c.calls| && Reading(c.calls[i])
  }

  ghost predicate LocksOk(c: Container) {
    InitLockOk(c) && WriteLockOk(c) && ReadLocksOk(c)
  }

  /** Nobody is inside the start sequence: mirror, state and history agree. */
  ghost predicate Settled(c: Container) {
    && (c.state.Available? || c.state.Running? || c.state.Error?)
    && c.atomic == Mirror(c.state)
    && |c.history| % 2 == 0
    && (c.state.Available? <==> c.history == [])
    && (c.state.Running? <==> Succeeded(c.history))
  }

  /** State, mirror and history as seen from the position of the init lock's owner. */
  ghost predicate OwnerOk(c: Container, i: nat)
    requires i < |c.calls|
  {
    var closed := |c.history| % 2 == 0 && !Succeeded(c.history);
    var ended := c.history != [] && |c.history| % 2 == 0 && c.history[|c.history| - 1].task == i;
    match c.calls[i]
    case LockReadAgain => Settled(c)
    case InspectAgain => Settled(c)
    case LockWriteStarting => Settled(c) && !c.state.Running?
    case SetStarting => Settled(c) && !c.state.Running?
    case MirrorStarting => c.state.Starting? && (c.atomic == ATOMIC_AVAILABLE || c.atomic == ATOMIC_ERROR) && closed
    case CountAttempt => c.state.Starting? && c.atomic == ATOMIC_STARTING && closed
    case CallStart => c.state.Starting? && c.atomic == ATOMIC_STARTING && closed
    case AwaitStart =>
      c.state.Starting? && c.atomic == ATOMIC_STARTING && |c.history| % 2 == 1 && c.history[|c.history| - 1] == Begin(i)
    case StoreDuration => c.state.Starting? && c.atomic == ATOMIC_STARTING && ended && Succeeded(c.history)
    case LockWriteRunning => c.state.Starting? && c.atomic == ATOMIC_STARTING && ended && Succeeded(c.history)
    case SetRunning => c.state.Starting? && c.atomic == ATOMIC_STARTING && ended && Succeeded(c.history)
    case MirrorRunning => c.state.Running? && c.atomic == ATOMIC_STARTING && ended && Succeeded(c.history)
    case LockWriteError(_) =>
      c.state.Starting? && c.atomic == ATOMIC_STARTING && ended && c.history[|c.history| - 1].Failure?
    case SetError(_) => c.state.Starting? && c.atomic == ATOMIC_STARTING && ended && c.history[|c.history| - 1].Failure?
    case MirrorError(m) =>
      c.state == Error(m) && c.atomic == ATOMIC_STARTING && ended && c.history[|c.history| - 1].Failure?
    case DropInit(answer) => Settled(c) && if answer.Ok? then c.state.Running? else SomeFailure(c.history)
    case _ => true
  }

  ghost predicate Inv(c: Container) {
    && LocksOk(c)
    && Disciplined(c.history)
    && (c.initOwner.None? ==> Settled(c))
    && (c.initOwner.Some? ==> OwnerOk(c, c.initOwner.value))
    && (c.state.Error? ==> SomeFailure(c.history))
    && (forall i :: 0 <= i < |c.calls| && c.calls[i].Returned? ==>
          if c.calls[i].answer.Ok? then c.state.Running? else SomeFailure(c.history))
    && 2 * c.attempts == |c.history| + |c.history| % 2 +
         if c.initOwner.Some? && c.calls[c.initOwner.value].CallStart? then 2 else 0
  }

  lemma InitialInv(n: nat)
    ensures Inv(Initial(n))
  {
  }

  lemma StepInitLockOk(c: Container, i: nat, failure: Option<string>)
    requires InitLockOk(c) && Enabled(c, i)
    ensures InitLockOk(Advance(c, i, failure))
  {
  }

  lemma StepWriteLockOk(c: Container, i: nat, failure: Option<string>)
    requires WriteLockOk(c) && Enabled(c, i)
    ensures WriteLockOk(Advance(c, i, failure))
  {
  }

  lemma StepReadLocksOk(c: Container, i: nat, failure: Option<string>)
    requires ReadLocksOk(c) && Enabled(c, i)
    ensures ReadLocksOk(Advance(c, i, failure))
  {
  }

  lemma StepLocksOk(c: Container, i: nat, failure: Option<string>)
    requires LocksOk(c) && Enabled(c, i)
    ensures LocksOk(Advance(c, i, failure))
  {
    StepInitLockOk(c, i, failure);
    StepWriteLockOk(c, i, failure);
    StepReadLocksOk(c, i, failure);
  }

  /** A call outside the critical section changes nothing the owner relies on. */
  lemma BystanderStep(c: Container, i: nat, failure: Option<string>)
    requires LocksOk(c) && Enabled(c, i) && !InCritical(c.calls[i])
    ensures var c' := Advance(c, i, failure);
            && c'.state == c.state && c'.atomic == c.atomic && c'.history == c.history && c'.attempts == c.attempts
            && |c'.calls| == |c.calls|
            && (c.calls[i] != LockInit ==> c'.initOwner == c.initOwner)
            && (c.calls[i] == LockInit ==> c.initOwner.None? && c'.initOwner == Some(i) && c'.calls[i] == LockReadAgain)
            && forall j :: 0 <= j < |c.calls| && j != i ==> c'.calls[j] == c.calls[j]
  {
  }

  lemma StepDisciplined(c: Container, i: nat, failure: Option<string>)
    requires Inv(c) && Enabled(c, i)
    ensures Disciplined(Advance(c, i, failure).history)
  {
    var h, h' := c.history, Advance(c, i, failure).history;
    if InCritical(c.calls[i]) {
      assert c.initOwner == Some(i) && OwnerOk(c, i);
    }
    forall k | 0 <= k < |h'| ensures InTurn(h', k) {
      if k < |h| {
        assert InTurn(h, k) && h'[k] == h[k];
      }
    }
  }

  lemma StepOwnerOk(c: Container, i: nat, failure: Option<string>)
    requires Inv(c) && Enabled(c, i)
    ensures var c' := Advance(c, i, failure);
            && (c'.initOwner.None? ==> Settled(c'))
            && (c'.initOwner.Some? ==> c'.initOwner.value < |c'.calls| && OwnerOk(c', c'.initOwner.value))
  {
    hide Disciplined;
    if InCritical(c.calls[i]) {
      assert c.initOwner == Some(i);
      OwnerStep(c, i, failure);
    } else {
      BystanderStep(c, i, failure);
      if c.initOwner.Some? {
        assert InCritical(c.calls[c.initOwner.value]);
      }
    }
  }

  /** The owner has not yet got an answer from `start()`. */
  predicate BeforeAnswer(pc: Pc) {
    pc.LockReadAgain? || pc.InspectAgain? || pc.LockWriteStarting? || pc.SetStarting? || pc.MirrorStarting?
    || pc.CountAttempt? || pc.CallStart? || pc.AwaitStart?
  }

  lemma OwnerGoesToStart(c: Container, i: nat, failure: Option<string>)
    requires Enabled(c, i) && BeforeAnswer(c.calls[i]) && OwnerOk(c, i)
    ensures |Advance(c, i, failure).calls| == |c.calls| && OwnerOk(Advance(c, i, failure), i)
  {
  }

  lemma OwnerFinishes(c: Container, i: nat, failure: Option<string>)
    requires Enabled(c, i) && InCritical(c.calls[i]) && !BeforeAnswer(c.calls[i]) && OwnerOk(c, i)
    requires c.state.Error? ==> SomeFailure(c.history)
    ensures var c' := Advance(c, i, failure);
            |c'.calls| == |c.calls| && if c.calls[i].DropInit? then Settled(c') else OwnerOk(c', i)
  {
    var h' := Advance(c, i, failure).history;
    if c.calls[i].SetError? || c.calls[i].MirrorError? {
      assert h'[|h'| - 1].Failure?;
    }
  }

  lemma OwnerStep(c: Container, i: nat, failure: Option<string>)
    requires Enabled(c, i) && InCritical(c.calls[i]) && OwnerOk(c, i) && (c.state.Error? ==> SomeFailure(c.history))
    ensures var c' := Advance(c, i, failure);
            && |c'.calls| == |c.calls|
            && (if c.calls[i].DropInit? then Settled(c') else OwnerOk(c', i))
            && (c.state.Running? ==> c'.state.Running?)
            && (c'.state.Error? ==> SomeFailure(c'.history))
            && c.history <= c'.history
  {
    if BeforeAnswer(c.calls[i]) {
      OwnerGoesToStart(c, i, failure);
    } else {
      OwnerFinishes(c, i, failure);
    }
    HistoryGrows(c, i, failure);
    var c' := Advance(c, i, failure);
    hide Settled;
    if c.calls[i].SetError? {
      assert c'.history[|c'.history| - 1].Failure?;
    }
  }

  lemma HistoryGrows(c: Container, i: nat, failure: Option<string>)
    requires Enabled(c, i)
    ensures c.history <= Advance(c, i, failure).history
    ensures SomeFailure(c.history) ==> SomeFailure(Advance(c, i, failure).history)
  {
    if k :| 0 <= k < |c.history| && c.history[k].Failure? {
      assert Advance(c, i, failure).history[k].Failure?;
    }
  }

  lemma OthersWait(c: Container, i: nat, failure: Option<string>)
    requires Enabled(c, i)
    ensures |Advance(c, i, failure).calls| == |c.calls|
    ensures forall j :: 0 <= j < |c.calls| && j != i ==> Advance(c, i, failure).calls[j] == c.calls[j]
  {
  }

  ghost predicate AnswerOk(c: Container, pc: Pc) {
    pc.Returned? ==> if pc.answer.Ok? then c.state.Running? else SomeFailure(c.history)
  }

  lemma OwnAnswer(c: Container, i: nat, failure: Option<string>)
    requires Inv(c) && Enabled(c, i)
    ensures var c' := Advance(c, i, failure);
            && (c.state.Running? ==> c'.state.Running?)
            && (c'.state.Error? ==> SomeFailure(c'.history))
            && |c'.calls| == |c.calls| && AnswerOk(c', c'.calls[i])
  {
    hide Settled, Disciplined, WriteLockOk, ReadLocksOk;
    if InCritical(c.calls[i]) {
      OwnerStep(c, i, failure);
    } else {
      BystanderStep(c, i, failure);
      NotStopped(c);
    }
  }

  lemma StepAnswersOk(c: Container, i: nat, failure: Option<string>)
    requires Inv(c) && Enabled(c, i)
    ensures var c' := Advance(c, i, failure);
            && (c.state.Running? ==> c'.state.Running?)
            && (c'.state.Error? ==> SomeFailure(c'.history))
            && (forall j :: 0 <= j < |c'.calls| && c'.calls[j].Returned? ==>
                  if c'.calls[j].answer.Ok? then c'.state.Running? else SomeFailure(c'.history))
  {
    HistoryGrows(c, i, failure);
    OthersWait(c, i, failure);
    OwnAnswer(c, i, failure);
    hide Advance, LocksOk, OwnerOk, Settled, Disciplined, SomeFailure;
    var c' := Advance(c, i, failure);
    forall j | 0 <= j < |c'.calls| ensures AnswerOk(c', c'.calls[j]) {
      assert j != i ==> AnswerOk(c, c.calls[j]);
    }
    assert forall j :: 0 <= j < |c'.calls| ==> AnswerOk(c', c'.calls[j]);
  }

  /** Without a `stop`, neither the mirror nor the state is ever Stopped, and the mirror never
      says Running too early. */
  lemma NotStopped(c: Container)
    requires Inv(c)
    ensures c.atomic != ATOMIC_STOPPED && !c.state.Stopped?
    ensures c.atomic == ATOMIC_RUNNING ==> c.state.Running?
  {
    if c.initOwner.Some? {
      assert InCritical(c.calls[c.initOwner.value]);
    }
  }

  lemma StepAttemptsOk(c: Container, i: nat, failure: Option<string>)
    requires Inv(c) && Enabled(c, i)
    ensures var c' := Advance(c, i, failure);
            && LocksOk(c')
            && 2 * c'.attempts == |c'.history| + |c'.history| % 2 +
                 if c'.initOwner.Some? && c'.calls[c'.initOwner.value].CallStart? then 2 else 0
  {
    StepLocksOk(c, i, failure);
    if InCritical(c.calls[i]) {
      assert c.initOwner == Some(i);
    } else {
      BystanderStep(c, i, failure);
    }
  }

  lemma StepInv(c: Container, i: nat, failure: Option<string>)
    requires Inv(c) && Enabled(c, i)
    ensures Inv(Advance(c, i, failure))
    ensures c.state.Running? ==> Advance(c, i, failure).state.Running?
  {
    StepLocksOk(c, i, failure);
    StepDisciplined(c, i, failure);
    StepOwnerOk(c, i, failure);
    StepAnswersOk(c, i, failure);
    StepAttemptsOk(c, i, failure);
  }

  lemma {:induction false} RunInv(c: Container, run: seq<Move>)
    requires Inv(c) && Legal(c, run)
    ensures Inv(After(c, run))
    ensures c.state.Running? ==> After(c, run).state.Running?
    decreases |run|
  {
    if run == [] {
    } else {
      StepInv(c, run[0].call, run[0].failure);
      RunInv(Advance(c, run[0].call, run[0].failure), run[1..]);
    }
  }

  // ---------------------------------------------------------------------------
  // Main results
  // ---------------------------------------------------------------------------

  /** In every state that any number of interleaved calls can reach: starts never overlap and none
      follows a success, the mirror says Running only when the state is, and a call that returned
      Ok did so after a successful start. */
  lemma StartProtocol(n: nat, run: seq<Move>)
    requires Legal(Initial(n), run)
    ensures var c := After(Initial(n), run);
            && Disciplined(c.history)
            && (c.atomic == ATOMIC_RUNNING ==> c.state.Running?)
            && (c.state.Running? ==> Succeeded(c.history))
            && (forall i :: 0 <= i < |c.calls| && c.calls[i].Returned? ==>
                  if c.calls[i].answer.Ok? then c.state.Running? && Succeeded(c.history) else SomeFailure(c.history))
            && (c.initOwner.None? ==> c.atomic == Mirror(c.state))
  {
    InitialInv(n);
    RunInv(Initial(n), run);
    var c := After(Initial(n), run);
    NotStopped(c);
    if c.initOwner.Some? {
      assert InCritical(c.calls[c.initOwner.value]);
    }
  }

  /** Once Running, always Running. */
  lemma RunningIsFinal(n: nat, run: seq<Move>, more: seq<Move>)
    requires Legal(Initial(n), run) && Legal(After(Initial(n), run), more)
    requires After(Initial(n), run).state.Running?
    ensures After(After(Initial(n), run), more).state.Running?
  {
    InitialInv(n);
    RunInv(Initial(n), run);
    RunInv(After(Initial(n), run), more);
  }

  // ---------------------------------------------------------------------------
  // What a call answers after a failure
  // ---------------------------------------------------------------------------

  /** A call that has not yet gone past the check of the state. */
  predicate BeforeCheck(pc: Pc) {
    pc.LoadAtomic? || pc.LockRead? || pc.Inspect?
  }

  ghost predicate AllBeforeCheck(c: Container) {
    forall i :: 0 <= i < |c.calls| ==> BeforeCheck(c.calls[i]) || c.calls[i].Returned?
  }

  /** What has returned has not changed, or was refused with this message. */
  ghost predicate Refused(before: seq<Pc>, after: seq<Pc>, message: string) {
    |before| == |after| && forall i :: 0 <= i < |before| && after[i].Returned? ==>
      if before[i].Returned? then after[i] == before[i] else after[i].answer == Err(message)
  }

  /** State and mirror agree on refusing every call with this message. */
  ghost predicate Refuses(c: Container, message: string) {
    match c.state
    case Error(m) => c.atomic == ATOMIC_ERROR && message == "Service in error state: " + m
    case Stopped => c.atomic == ATOMIC_STOPPED && message == "Service has been stopped"
    case _ => false
  }

  lemma RefusingStep(c: Container, i: nat, failure: Option<string>, message: string)
    requires Enabled(c, i) && AllBeforeCheck(c) && Refuses(c, message)
    ensures var c' := Advance(c, i, failure);
            && c'.state == c.state && c'.atomic == c.atomic && c'.history == c.history && c'.attempts == c.attempts
            && c'.initOwner == c.initOwner
            && AllBeforeCheck(c') && Refused(c.calls, c'.calls, message)
  {
  }

  lemma RefusedTwice(a: seq<Pc>, b: seq<Pc>, c: seq<Pc>, message: string)
    requires Refused(a, b, message) && Refused(b, c, message)
    requires forall i :: 0 <= i < |a| == |b| && a[i].Returned? ==> b[i].Returned?
    ensures Refused(a, c, message)
  {
  }

  lemma ReturnedStays(c: Container, i: nat, failure: Option<string>)
    requires Enabled(c, i)
    ensures var c' := Advance(c, i, failure);
            |c'.calls| == |c.calls|
            && forall j :: 0 <= j < |c.calls| && c.calls[j].Returned? ==> c'.calls[j] == c.calls[j]
  {
  }

  lemma {:induction false} RefusingRun(c: Container, run: seq<Move>, message: string)
    requires Legal(c, run) && AllBeforeCheck(c) && Refuses(c, message)
    ensures var d := After(c, run);
            && d.state == c.state && d.atomic == c.atomic && d.history == c.history && d.attempts == c.attempts
            && d.initOwner == c.initOwner
            && AllBeforeCheck(d) && Refused(c.calls, d.calls, message)
    decreases |run|
  {
    if run == [] {
    } else {
      hide Advance, AllBeforeCheck, Refused, Enabled;
      var c' := Advance(c, run[0].call, run[0].failure);
      RefusingStep(c, run[0].call, run[0].failure, message);
      ReturnedStays(c, run[0].call, run[0].failure);
      RefusingRun(c', run[1..], message);
      RefusedTwice(c.calls, c'.calls, After(c, run).calls, message);
    }
  }

  /** A failure is final: once the state is Error and no call has gone past its check, `start()` is never called again,
      and every further call answers with the message of the error. */
  lemma ErrorIsFinal(n: nat, run: seq<Move>, more: seq<Move>)
    requires Legal(Initial(n), run) && Legal(After(Initial(n), run), more)
    requires After(Initial(n), run).state.Error? && AllBeforeCheck(After(Initial(n), run))
    ensures var c, d := After(Initial(n), run), After(After(Initial(n), run), more);
            && d.state == c.state && d.history == c.history && d.attempts == c.attempts
            && |c.calls| == |d.calls| == n
            && forall i :: 0 <= i < n && d.calls[i].Returned? && !c.calls[i].Returned? ==>
                 d.calls[i].answer == Err("Service in error state: " + c.state.message)
  {
    hide Legal, Refused;
    var c := After(Initial(n), run);
    InitialInv(n);
    RunInv(Initial(n), run);
    CallsKept(Initial(n), run);
    CallsKept(c, more);
    NobodyOwns(c);
    RefusingRun(c, more, "Service in error state: " + c.state.message);
    RefusedAt(c.calls, After(c, more).calls, "Service in error state: " + c.state.message);
  }

  lemma RefusedAt(before: seq<Pc>, after: seq<Pc>, message: string)
    requires Refused(before, after, message)
    ensures |before| == |after|
    ensures forall i :: 0 <= i < |before| && after[i].Returned? && !before[i].Returned? ==>
              after[i].answer == Err(message)
  {
  }

  lemma NobodyOwns(c: Container)
    requires InitLockOk(c) && AllBeforeCheck(c)
    ensures c.initOwner.None?
  {
    forall i: nat ensures c.initOwner != Some(i) {
      if i < |c.calls| {
        assert !InCritical(c.calls[i]);
      }
    }
  }

  /** From the end of its start to its return, a call carries the outcome along. */
  predicate Carries(pc: Pc, failure: Option<string>) {
    match failure
    case None =>
      pc.StoreDuration? || pc.LockWriteRunning? || pc.SetRunning? || pc.MirrorRunning?
      || pc == DropInit(Ok(())) || pc == Returned(Ok(()))
    case Some(m) =>
      pc == LockWriteError(m) || pc == SetError(m) || pc == MirrorError(m)
      || pc == DropInit(Err(m)) || pc == Returned(Err(m))
  }

  lemma {:induction false} CarriedAlong(c: Container, run: seq<Move>, i: nat, failure: Option<string>)
    requires Legal(c, run) && i < |c.calls| && Carries(c.calls[i], failure)
    ensures |After(c, run).calls| == |c.calls| && Carries(After(c, run).calls[i], failure)
    decreases |run|
  {
    if run == [] {
    } else {
      CarriedAlong(Advance(c, run[0].call, run[0].failure), run[1..], i, failure);
    }
  }

  /** The call that starts the service answers, when it gets to that, with what its own `start()` did: Ok, or that
      failure's message as it is. */
  lemma OwnStartAnswered(c: Container, i: nat, failure: Option<string>, run: seq<Move>)
    requires Legal(c, [Move(i, failure)] + run) && c.calls[i] == AwaitStart
    ensures var d := After(c, [Move(i, failure)] + run);
            i < |d.calls| && (d.calls[i].Returned? ==>
              d.calls[i].answer == match failure case None => Ok(()) case Some(message) => Err(message))
  {
    assert ([Move(i, failure)] + run)[1..] == run;
    CarriedAlong(Advance(c, i, failure), run, i, failure);
  }

  ghost predicate AllReturned(c: Container) {
    forall i :: 0 <= i < |c.calls| ==> c.calls[i].Returned?
  }

  /** When all calls have returned, the attempts metric counts the calls of `start()`; and if no
      start failed there was exactly one, however many callers raced, and all of them got Ok. */
  lemma StartedExactlyOnce(n: nat, run: seq<Move>)
    requires Legal(Initial(n), run) && AllReturned(After(Initial(n), run))
    ensures var c := After(Initial(n), run);
            && 2 * c.attempts == |c.history|
            && c.atomic == Mirror(c.state)
            && (n > 0 && !SomeFailure(c.history) ==>
                  c.attempts == 1 && (forall i :: 0 <= i < |c.calls| ==> c.calls[i].answer.Ok?))
  {
    InitialInv(n);
    RunInv(Initial(n), run);
    CallsKept(Initial(n), run);
    var c := After(Initial(n), run);
    ReturnedHoldNothing(c);
    if n > 0 && !SomeFailure(c.history) {
      assert c.calls[0].answer.Ok?;
      LongHistoryFailed(c.history);
    }
  }

  lemma ReturnedHoldNothing(c: Container)
    requires InitLockOk(c) && AllReturned(c)
    ensures c.initOwner.None?
  {
    forall i: nat ensures c.initOwner != Some(i) {
      if i < |c.calls| {
        assert !InCritical(c.calls[i]);
      }
    }
  }

  lemma LongHistoryFailed(h: seq<Event>)
    requires Disciplined(h)
    ensures |h| > 2 ==> SomeFailure(h)
  {
    if |h| > 2 {
      assert InTurn(h, 1) && h[1].Failure?;
    }
  }

  lemma {:induction false} CallsKept(c: Container, run: seq<Move>)
    requires Legal(c, run)
    ensures |After(c, run).calls| == |c.calls|
    decreases |run|
  {
    if run == [] {
    } else {
      CallsKept(Advance(c, run[0].call, run[0].failure), run[1..]);
    }
  }

  /** While a call has not returned, some call can step. */
  lemma SomeoneCanStep(n: nat, run: seq<Move>)
    requires Legal(Initial(n), run)
    ensures var c := After(Initial(n), run); AllReturned(c) || exists i: nat :: Enabled(c, i)
  {
    InitialInv(n);
    RunInv(Initial(n), run);
    var c := After(Initial(n), run);
    if c.writer.Some? {
      assert Enabled(c, c.writer.value);
    } else if c.readers != {} {
      var r :| r in c.readers;
      assert Enabled(c, r);
    } else if c.initOwner.Some? {
      assert Enabled(c, c.initOwner.value);
    } else if !AllReturned(c) {
      var i: nat :| i < |c.calls| && !c.calls[i].Returned?;
      assert Enabled(c, i);
    }
  }

  /** Steps a call still needs at most. */
  function Rank(pc: Pc): nat {
    match pc
    case LoadAtomic => 19
    case LockRead => 18
    case Inspect => 17
    case CountWait => 16
    case LockInit => 15
    case LockReadAgain => 14
    case InspectAgain => 13
    case LockWriteStarting => 12
    case SetStarting => 11
    case MirrorStarting => 10
    case CountAttempt => 9
    case CallStart => 8
    case AwaitStart => 7
    case StoreDuration => 6
    case LockWriteRunning => 5
    case SetRunning => 4
    case MirrorRunning => 3
    case LockWriteError(_) => 5
    case SetError(_) => 4
    case MirrorError(_) => 3
    case DropInit(_) => 2
    case Returned(_) => 0
  }

  function TotalRank(calls: seq<Pc>): nat {
    if calls == [] then 0 else Rank(calls[0]) + TotalRank(calls[1..])
  }

  lemma {:induction false} TotalRankDrops(calls: seq<Pc>, i: nat, pc: Pc)
    requires i < |calls| && Rank(pc) < Rank(calls[i])
    ensures TotalRank(calls[i := pc]) < TotalRank(calls)
  {
    if i > 0 {
      assert calls[i := pc][1..] == calls[1..][i - 1 := pc];
      TotalRankDrops(calls[1..], i - 1, pc);
    } else {
      assert calls[0 := pc][1..] == calls[1..];
    }
  }

  /** No run is longer than the work of its calls, so every call returns. */
  lemma {:induction false} RunsAreBounded(c: Container, run: seq<Move>)
    requires Legal(c, run)
    ensures |run| <= TotalRank(c.calls)
    decreases |run|
  {
    if run == [] {
    } else {
      var i, c' := run[0].call, Advance(c, run[0].call, run[0].failure);
      assert c'.calls == c.calls[i := c'.calls[i]] && Rank(c'.calls[i]) < Rank(c.calls[i]);
      TotalRankDrops(c.calls, i, c'.calls[i]);
      RunsAreBounded(c', run[1..]);
    }
  }

  // ---------------------------------------------------------------------------
  // The two counters
  // ---------------------------------------------------------------------------

  predicate BeforeWait(pc: Pc) {
    pc.LoadAtomic? || pc.LockRead? || pc.Inspect? || pc.CountWait?
  }

  predicate BeforeAttempt(pc: Pc) {
    pc.LockInit? || pc.LockReadAgain? || pc.InspectAgain? || pc.LockWriteStarting? || pc.SetStarting?
    || pc.MirrorStarting? || pc.CountAttempt?
  }

  function Tally(calls: seq<Pc>, p: Pc -> bool): nat {
    if calls == [] then 0 else (if p(calls[0]) then 1 else 0) + Tally(calls[1..], p)
  }

  lemma {:induction false} TallyOfUpdate(calls: seq<Pc>, i: nat, pc: Pc, p: Pc -> bool)
    requires i < |calls|
    ensures Tally(calls[i := pc], p) + (if p(calls[i]) then 1 else 0) == Tally(calls, p) + if p(pc) then 1 else 0
  {
    if i > 0 {
      assert calls[i := pc][1..] == calls[1..][i - 1 := pc];
      TallyOfUpdate(calls[1..], i - 1, pc, p);
    } else {
      assert calls[0 := pc][1..] == calls[1..];
    }
  }

  lemma {:induction false} TallyOfAll(n: nat)
    ensures Tally(seq(n, _ => LoadAtomic), BeforeWait) == n && Tally(seq(n, _ => LoadAtomic), BeforeAttempt) == 0
  {
    if n > 0 {
      assert seq(n, _ => LoadAtomic)[1..] == seq(n - 1, _ => LoadAtomic);
      TallyOfAll(n - 1);
    }
  }

  lemma StepCounts(c: Container, i: nat, failure: Option<string>)
    requires Enabled(c, i)
    ensures var c' := Advance(c, i, failure);
            && c'.calls == c.calls[i := c'.calls[i]]
            && c'.attempts + (if BeforeAttempt(c'.calls[i]) then 1 else 0) + c.waits
               <= c.attempts + (if BeforeAttempt(c.calls[i]) then 1 else 0) + c'.waits
            && c'.waits + (if BeforeWait(c'.calls[i]) then 1 else 0)
               <= c.waits + if BeforeWait(c.calls[i]) then 1 else 0
  {
  }

  lemma {:induction false} RunCounts(c: Container, run: seq<Move>, n: nat)
    requires Legal(c, run)
    requires c.attempts + Tally(c.calls, BeforeAttempt) <= c.waits && c.waits + Tally(c.calls, BeforeWait) <= n
    ensures var d := After(c, run);
            d.attempts + Tally(d.calls, BeforeAttempt) <= d.waits && d.waits + Tally(d.calls, BeforeWait) <= n
    decreases |run|
  {
    if run == [] {
    } else {
      hide Advance, Enabled, BeforeWait, BeforeAttempt;
      var i, c' := run[0].call, Advance(c, run[0].call, run[0].failure);
      EnabledCall(c, i);
      StepCounts(c, i, run[0].failure);
      TallyOfUpdate(c.calls, i, c'.calls[i], BeforeWait);
      TallyOfUpdate(c.calls, i, c'.calls[i], BeforeAttempt);
      RunCounts(c', run[1..], n);
    }
  }

  lemma EnabledCall(c: Container, i: nat)
    requires Enabled(c, i)
    ensures i < |c.calls| && forall failure :: |Advance(c, i, failure).calls| == |c.calls|
  {
  }

  /** Every call waits at most once, and only one that has waited attempts a start. */
  lemma EveryAttemptWaited(n: nat, run: seq<Move>)
    requires Legal(Initial(n), run)
    ensures var c := After(Initial(n), run); c.attempts <= c.waits <= n
  {
    TallyOfAll(n);
    RunCounts(Initial(n), run, n);
  }
}
