/** CloudWatch Logs: groups, their streams and the events of each stream, kept in three maps. */
module CloudWatchLogs {
  import opened Base

  datatype LogGroup = LogGroup(name: string, retention: Option<nat>, createdAt: int)

  datatype LogStream = LogStream(
    group: string, name: string, createdAt: int, first: Option<int>, last: Option<int>, token: nat)

  datatype LogEvent = LogEvent(timestamp: int, message: string, ingestion: int)

  /** An event as the request gives it; either field may be missing. */
  datatype Input = Input(timestamp: Option<int>, message: Option<string>)

  type Key = (string, string)

  datatype Logs = Logs(groups: map<string, LogGroup>, streams: map<Key, LogStream>, events: map<Key, seq<LogEvent>>)

  datatype Error = Validation | AlreadyExists | NotFound

  type Answer = Result<(), Error>

  /** The requests; a name may be missing, and `now` is the clock when the request is served. */
  datatype Op =
    | CreateGroup(group: Option<string>, retention: Option<nat>, now: int)
    | DeleteGroup(group: Option<string>)
    | CreateStream(group: Option<string>, stream: Option<string>, now: int)
    | PutEvents(group: Option<string>, stream: Option<string>, batch: Option<seq<Input>>, now: int)

  const EMPTY := Logs(map[], map[], map[])
  const U32_SIZE: nat := 0x1_0000_0000

  function ToEvent(i: Input, now: int): LogEvent {
    LogEvent(if i.timestamp.Some? then i.timestamp.value else now, if i.message.Some? then i.message.value else "", now)
  }

  function ToEvents(batch: seq<Input>, now: int): seq<LogEvent> {
    seq(|batch|, i requires 0 <= i < |batch| => ToEvent(batch[i], now))
  }

  function FirstTime(events: seq<LogEvent>): Option<int> {
    if events == [] then None else Some(events[0].timestamp)
  }

  function LastTime(events: seq<LogEvent>): Option<int> {
    if events == [] then None else Some(events[|events| - 1].timestamp)
  }

  function Stored(events: map<Key, seq<LogEvent>>, k: Key): seq<LogEvent> {
    if k in events then events[k] else []
  }

  function Without<V>(m: map<Key, V>, group: string): map<Key, V> {
    map k | k in m && k.0 != group :: m[k]
  }

  function Accept(s: LogStream, events: seq<LogEvent>): LogStream {
    s.(token := s.token + 1, first := if s.first.None? then FirstTime(events) else s.first, last := LastTime(events))
  }

  function Truncate(retention: Option<nat>): Option<nat> {
    if retention.None? then None else Some(retention.value % U32_SIZE)
  }

  function Apply(l: Logs, op: Op): (Logs, Answer) {
    if op.group.None? then (l, Err(Validation))
    else
      var g := op.group.value;
      match op
      case CreateGroup(_, retention, now) =>
        if g in l.groups then (l, Err(AlreadyExists))
        else (l.(groups := l.groups[g := LogGroup(g, Truncate(retention), now)]), Ok(()))
      case DeleteGroup(_) =>
        if g !in l.groups then (l, Err(NotFound))
        else (Logs(l.groups - {g}, Without(l.streams, g), Without(l.events, g)), Ok(()))
      case CreateStream(_, stream, now) =>
        if stream.None? then (l, Err(Validation))
        else if g !in l.groups then (l, Err(NotFound))
        else if (g, stream.value) in l.streams then (l, Err(AlreadyExists))
        else
          var created := LogStream(g, stream.value, now, None, None, 0);
          (l.(streams := l.streams[(g, stream.value) := created]), Ok(()))
      case PutEvents(_, stream, batch, now) =>
        if stream.None? then (l, Err(Validation))
        else if (g, stream.value) !in l.streams then (l, Err(NotFound))
        else if batch.None? then (l, Ok(()))
        else (Append(l, (g, stream.value), ToEvents(batch.value, now)), Ok(()))
  }

  function Append(l: Logs, k: Key, events: seq<LogEvent>): Logs
    requires k in l.streams
  {
    l.(events := l.events[k := Stored(l.events, k) + events], streams := l.streams[k := Accept(l.streams[k], events)])
  }

  // ---------------------------------------------------------------------------
  // The handlers
  // ---------------------------------------------------------------------------

  class Provider {
    var groups: map<string, LogGroup>
    var streams: map<Key, LogStream>
    var events: map<Key, seq<LogEvent>>

    ghost function State(): Logs
      reads this
    {
      Logs(groups, streams, events)
    }

    constructor ()
      ensures State() == EMPTY
    {
      groups, streams, events := map[], map[], map[];
    }

    method CreateLogGroup(group: Option<string>, retention: Option<nat>, now: int) returns (r: Answer)
      modifies this
      ensures (State(), r) == Apply(old(State()), CreateGroup(group, retention, now))
    {
      if group.None? {
        return Err(Validation);
      }
      if group.value in groups {
        return Err(AlreadyExists);
      }
      groups := groups[group.value := LogGroup(group.value, Truncate(retention), now)];
      return Ok(());
    }

    method DeleteLogGroup(group: Option<string>) returns (r: Answer)
      modifies this
      ensures (State(), r) == Apply(old(State()), DeleteGroup(group))
    {
      if group.None? {
        return Err(Validation);
      }
      if group.value !in groups {
        return Err(NotFound);
      }
      groups := groups - {group.value};
      streams := map k | k in streams && k.0 != group.value :: streams[k];
      events := map k | k in events && k.0 != group.value :: events[k];
      return Ok(());
    }

    method CreateLogStream(group: Option<string>, stream: Option<string>, now: int) returns (r: Answer)
      modifies this
      ensures (State(), r) == Apply(old(State()), CreateStream(group, stream, now))
    {
      if group.None? || stream.None? {
        return Err(Validation);
      }
      if group.value !in groups {
        return Err(NotFound);
      }
      var key := (group.value, stream.value);
      if key in streams {
        return Err(AlreadyExists);
      }
      streams := streams[key := LogStream(group.value, stream.value, now, None, None, 0)];
      return Ok(());
    }

    method PutLogEvents(group: Option<string>, stream: Option<string>, batch: Option<seq<Input>>, now: int)
      returns (r: Answer)
      modifies this
      ensures (State(), r) == Apply(old(State()), PutEvents(group, stream, batch, now))
    {
      if group.None? || stream.None? {
        return Err(Validation);
      }
      var key := (group.value, stream.value);
      if key !in streams {
        return Err(NotFound);
      }
      if batch.Some? {
        var added := ToEvents(batch.value, now);
        var first, last := FirstTime(added), LastTime(added);
        if key !in events {
          events := events[key := []];
        }
        events := events[key := events[key] + added];
        var s := streams[key];
        s := s.(token := s.token + 1);
        if s.first.None? {
          s := s.(first := first);
        }
        s := s.(last := last);
        streams := streams[key := s];
        assert events == old(events)[key := Stored(old(events), key) + added];
      }
      return Ok(());
    }
  }

  // ---------------------------------------------------------------------------
  // The life of one stream, told from the requests alone
  // ---------------------------------------------------------------------------

  /** The batches are those accepted since the stream was last created. */
  datatype Life = NoGroup | NoStream | Live(createdAt: int, batches: seq<seq<LogEvent>>)

  function LifeStep(life: Life, op: Op, g: string, s: string): Life {
    if op.group != Some(g) then life
    else
      match op
      case CreateGroup(_, _, _) => if life.NoGroup? then NoStream else life
      case DeleteGroup(_) => NoGroup
      case CreateStream(_, stream, now) => if stream == Some(s) && life.NoStream? then Live(now, []) else life
      case PutEvents(_, stream, batch, now) =>
        if stream == Some(s) && life.Live? && batch.Some? then
          Live(life.createdAt, life.batches + [ToEvents(batch.value, now)])
        else life
  }

  function LifeAfter(life: Life, ops: seq<Op>, g: string, s: string): Life
    decreases |ops|
  {
    if ops == [] then life else LifeAfter(LifeStep(life, ops[0], g, s), ops[1..], g, s)
  }

  function Run(l: Logs, ops: seq<Op>): Logs
    decreases |ops|
  {
    if ops == [] then l else Run(Apply(l, ops[0]).0, ops[1..])
  }

  function Concat(batches: seq<seq<LogEvent>>): seq<LogEvent> {
    if batches == [] then [] else Concat(batches[..|batches| - 1]) + batches[|batches| - 1]
  }

  /** The record a stream must have. */
  function Expected(g: string, s: string, life: Life): LogStream
    requires life.Live?
  {
    var batches := life.batches;
    LogStream(g, s, life.createdAt, FirstTime(Concat(batches)),
              if batches == [] then None else LastTime(batches[|batches| - 1]), |batches|)
  }

  ghost predicate Agrees(l: Logs, g: string, s: string, life: Life) {
    && (g in l.groups <==> !life.NoGroup?)
    && ((g, s) in l.streams <==> life.Live?)
    && (life.Live? ==> l.streams[(g, s)] == Expected(g, s, life) && Stored(l.events, (g, s)) == Concat(life.batches))
    && ((g, s) in l.events <==> life.Live? && life.batches != [])
  }

  lemma StepAgrees(l: Logs, op: Op, g: string, s: string, life: Life)
    requires Agrees(l, g, s, life)
    ensures Agrees(Apply(l, op).0, g, s, LifeStep(life, op, g, s))
  {
    if op.PutEvents? && op.group == Some(g) && op.stream == Some(s) && life.Live? && op.batch.Some? {
      var added := ToEvents(op.batch.value, op.now);
      var batches := life.batches + [added];
      assert batches[..|batches| - 1] == life.batches;
      assert Concat(batches) == Concat(life.batches) + added;
    }
  }

  lemma {:induction false} RunAgrees(l: Logs, ops: seq<Op>, g: string, s: string, life: Life)
    requires Agrees(l, g, s, life)
    ensures Agrees(Run(l, ops), g, s, LifeAfter(life, ops, g, s))
    decreases |ops|
  {
    if ops == [] {
    } else {
      hide Agrees, Apply, LifeStep;
      StepAgrees(l, ops[0], g, s, life);
      RunAgrees(Apply(l, ops[0]).0, ops[1..], g, s, LifeStep(life, ops[0], g, s));
    }
  }

  /** After any requests, every stream is exactly what the batches accepted since its last creation make it. */
  lemma StreamIsItsHistory(ops: seq<Op>, g: string, s: string)
    ensures Agrees(Run(EMPTY, ops), g, s, LifeAfter(NoGroup, ops, g, s))
  {
    RunAgrees(EMPTY, ops, g, s, NoGroup);
  }

  /** Referential integrity of the three maps. */
  ghost predicate Integrity(l: Logs) {
    && (forall g :: g in l.groups ==> l.groups[g].name == g)
    && (forall k :: k in l.streams ==> k.0 in l.groups && (l.streams[k].group, l.streams[k].name) == k)
    && (forall k :: k in l.events ==> k in l.streams)
    && (forall k :: k in l.streams ==> l.streams[k].first == FirstTime(Stored(l.events, k)))
  }

  lemma {:induction false} GroupNames(l: Logs, ops: seq<Op>)
    requires forall g :: g in l.groups ==> l.groups[g].name == g
    ensures forall g :: g in Run(l, ops).groups ==> Run(l, ops).groups[g].name == g
    decreases |ops|
  {
    if ops == [] {
    } else {
      GroupNames(Apply(l, ops[0]).0, ops[1..]);
    }
  }

  lemma RunsKeepIntegrity(ops: seq<Op>)
    ensures Integrity(Run(EMPTY, ops))
  {
    var l := Run(EMPTY, ops);
    GroupNames(EMPTY, ops);
    forall k: Key ensures Agrees(l, k.0, k.1, LifeAfter(NoGroup, ops, k.0, k.1)) {
      StreamIsItsHistory(ops, k.0, k.1);
    }
    hide Run, LifeAfter, Expected;
    forall k: Key | k in l.streams
      ensures (l.streams[k].group, l.streams[k].name) == k && l.streams[k].first == FirstTime(Stored(l.events, k))
    {
      RecordFits(l, k, LifeAfter(NoGroup, ops, k.0, k.1));
    }
    forall k: Key | k in l.streams || k in l.events ensures k.0 in l.groups && k in l.streams {
      assert Agrees(l, k.0, k.1, LifeAfter(NoGroup, ops, k.0, k.1));
    }
  }

  lemma RecordFits(l: Logs, k: Key, life: Life)
    requires Agrees(l, k.0, k.1, life) && k in l.streams
    ensures (l.streams[k].group, l.streams[k].name) == k && l.streams[k].first == FirstTime(Stored(l.events, k))
  {
    assert k == (k.0, k.1);
  }

  lemma {:induction false} RunOfAppend(l: Logs, a: seq<Op>, b: seq<Op>)
    ensures Run(l, a + b) == Run(Run(l, a), b)
    decreases |a|
  {
    if a == [] {
      assert a + b == b;
    } else {
      hide Apply;
      assert (a + b)[1..] == a[1..] + b;
      RunOfAppend(Apply(l, a[0]).0, a[1..], b);
    }
  }

  /** Whatever came before, and whatever other groups see meanwhile, a recreated group and stream start empty. */
  lemma RecreatedStartsEmpty(l: Logs, g: string, s: string, retention: Option<nat>, t0: int, t1: int, others: seq<Op>)
    requires forall op :: op in others ==> op.group != Some(g)
    ensures var after := Run(l, [DeleteGroup(Some(g)), CreateGroup(Some(g), retention, t0)] + others
                                + [CreateStream(Some(g), Some(s), t1)]);
            g in l.groups ==>
              (g, s) in after.streams && after.streams[(g, s)] == LogStream(g, s, t1, None, None, 0)
              && Stored(after.events, (g, s)) == []
  {
    if g in l.groups {
      var l1 := Apply(l, DeleteGroup(Some(g))).0;
      var l2 := Apply(l1, CreateGroup(Some(g), retention, t0)).0;
      assert Agrees(l2, g, s, NoStream);
      var ops := [DeleteGroup(Some(g)), CreateGroup(Some(g), retention, t0)];
      RunOfTwo(l, ops[0], ops[1]);
      RunAgrees(l2, others, g, s, NoStream);
      LifeUntouched(NoStream, others, g, s);
      var l3 := Run(l2, others);
      var last := CreateStream(Some(g), Some(s), t1);
      StepAgrees(l3, last, g, s, NoStream);
      RunOfAppend(l, ops, others);
      RunOfAppend(l, ops + others, [last]);
      RunOfOne(l3, last);
    }
  }

  lemma RunOfOne(l: Logs, op: Op)
    ensures Run(l, [op]) == Apply(l, op).0
  {
    hide Apply;
    assert [op][1..] == [];
    assert Run(Apply(l, op).0, []) == Apply(l, op).0;
  }

  lemma RunOfTwo(l: Logs, a: Op, b: Op)
    ensures Run(l, [a, b]) == Apply(Apply(l, a).0, b).0
  {
    hide Apply;
    assert [a, b][1..] == [b];
    RunOfOne(Apply(l, a).0, b);
  }

  lemma {:induction false} LifeUntouched(life: Life, ops: seq<Op>, g: string, s: string)
    requires forall op :: op in ops ==> op.group != Some(g)
    ensures LifeAfter(life, ops, g, s) == life
  {
    if ops == [] {
    } else {
      assert ops[0] in ops && forall op :: op in ops[1..] ==> op in ops;
      LifeUntouched(life, ops[1..], g, s);
    }
  }

  /** The last timestamp is that of the last stored event exactly when the latest batch brought one, or none ever
      did. */
  lemma LastIsLatestIff(ops: seq<Op>, g: string, s: string)
    requires (g, s) in Run(EMPTY, ops).streams
    ensures var l, life := Run(EMPTY, ops), LifeAfter(NoGroup, ops, g, s);
            var stored := Stored(l.events, (g, s));
            life.Live?
            && (l.streams[(g, s)].last == LastTime(stored)
                <==> stored == [] || (life.batches != [] && life.batches[|life.batches| - 1] != []))
  {
    StreamIsItsHistory(ops, g, s);
    hide Run, LifeAfter;
    var batches := LifeAfter(NoGroup, ops, g, s).batches;
    if batches != [] {
      var latest := batches[|batches| - 1];
      assert Concat(batches) == Concat(batches[..|batches| - 1]) + latest;
    }
  }

  // ---------------------------------------------------------------------------
  // Answers
  // ---------------------------------------------------------------------------

  predicate NamesMissing(op: Op) {
    op.group.None? || ((op.CreateStream? || op.PutEvents?) && op.stream.None?)
  }

  /** When a request is refused, why, and that it then changes nothing. */
  lemma RefusedIff(l: Logs, op: Op)
    ensures var (after, r) := Apply(l, op);
            && (r.Err? ==> after == l)
            && (r == Err(Validation) <==> NamesMissing(op))
            && (r == Err(AlreadyExists) <==>
                 !NamesMissing(op)
                 && ((op.CreateGroup? && op.group.value in l.groups)
                     || (op.CreateStream? && op.group.value in l.groups
                         && (op.group.value, op.stream.value) in l.streams)))
            && (r == Err(NotFound) <==>
                 !NamesMissing(op)
                 && (((op.DeleteGroup? || op.CreateStream?) && op.group.value !in l.groups)
                     || (op.PutEvents? && (op.group.value, op.stream.value) !in l.streams)))
  {
  }

  /** What an accepted batch adds: an event for each of its entries, in their order, with the time given or else the
      present, the message given or else none, and the present as its time of ingestion. */
  lemma BatchAdds(l: Logs, g: string, s: string, batch: seq<Input>, now: int)
    requires (g, s) in l.streams
    ensures var before, after := Stored(l.events, (g, s)),
                                 Stored(Apply(l, PutEvents(Some(g), Some(s), Some(batch), now)).0.events, (g, s));
            && |after| == |before| + |batch| && after[..|before|] == before
            && forall i :: 0 <= i < |batch| ==>
                 var e := after[|before| + i];
                 && (if batch[i].timestamp.None? then e.timestamp == now else Some(e.timestamp) == batch[i].timestamp)
                 && (if batch[i].message.None? then e.message == "" else Some(e.message) == batch[i].message)
                 && e.ingestion == now
    ensures forall k :: k != (g, s) ==>
              Stored(Apply(l, PutEvents(Some(g), Some(s), Some(batch), now)).0.events, k) == Stored(l.events, k)
  {
  }

  /** The retention and the time that a group was last created with, if it has not been deleted since. */
  function CreatedWith(ops: seq<Op>, g: string): Option<(Option<nat>, int)>
    decreases |ops|
  {
    if ops == [] then None
    else
      var earlier, op := CreatedWith(ops[..|ops| - 1], g), ops[|ops| - 1];
      if op.group != Some(g) then earlier
      else if op.DeleteGroup? then None
      else if op.CreateGroup? && earlier.None? then Some((op.retention, op.now))
      else earlier
  }

  lemma RunLast(l: Logs, ops: seq<Op>)
    requires ops != []
    ensures Run(l, ops) == Apply(Run(l, ops[..|ops| - 1]), ops[|ops| - 1]).0
  {
    hide Apply, Run;
    var n := |ops| - 1;
    assert ops == ops[..n] + [ops[n]];
    RunOfAppend(l, ops[..n], [ops[n]]);
    RunOfOne(Run(l, ops[..n]), ops[n]);
  }

  /** A group is there exactly if it was created and not deleted since, with the retention, as a 32-bit number, and the
      time that it was created with. */
  lemma {:induction false} GroupIsItsHistory(ops: seq<Op>, g: string)
    ensures var groups := Run(EMPTY, ops).groups;
            match CreatedWith(ops, g)
            case None => g !in groups
            case Some((retention, now)) =>
              && g in groups && groups[g].name == g && groups[g].createdAt == now
              && match retention
                 case None => groups[g].retention == None
                 case Some(days) => groups[g].retention == Some(days % 0x1_0000_0000)
    decreases |ops|
  {
    hide Run;
    if ops == [] {
      NothingRun();
    } else {
      GroupIsItsHistory(ops[..|ops| - 1], g);
      RunLast(EMPTY, ops);
    }
  }

  lemma NothingRun()
    ensures Run(EMPTY, []) == EMPTY
  {
  }
}
