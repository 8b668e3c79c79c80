/** A consumer that follows NextShardIterator through a DynamoDB stream while records are appended. */
module StreamConsumer {
  import opened Base
  import opened Text
  import opened Store
  import opened StreamCursor

  // ---------------------------------------------------------------------------
  // One call of GetRecords, iterators being texts
  // ---------------------------------------------------------------------------

  datatype FetchError = InvalidIterator | StreamNotFound

  /** The streams of one account and region, each under its ARN. */
  type Streams = map<string, Stream>

  /** The records and the next iterator, from the stream that the iterator names. */
  function Fetch(streams: Streams, it: string, limit: nat): Result<(seq<StreamRecord>, string), FetchError> {
    match ParseShardIterator(it)
    case None => Err(InvalidIterator)
    case Some((named, cursor)) =>
      if named !in streams then Err(StreamNotFound)
      else
        var (page, next) := GetRecords(streams[named], cursor, limit);
        Ok((page, MakeShardIterator(named, next)))
  }

  /** Any iterator that was made for a stream is answered from the stream it names when it is parsed, if there is
      one; and from the beginning if the number was lost. */
  lemma FetchOfMade(streams: Streams, arn: string, cursor: nat, limit: nat)
    requires cursor <= U64_MAX
    ensures var named, from := Named(arn), if Find(arn, SEPARATOR).Some? then 0 else cursor;
            Fetch(streams, MakeShardIterator(arn, cursor), limit)
            == if named !in streams then Err(StreamNotFound)
               else
                 var (page, next) := GetRecords(streams[named], from, limit);
                 Ok((page, MakeShardIterator(named, next)))
  {
    hide GetRecords, MakeShardIterator, ParseShardIterator, Find, Named;
    ParseOfMade(arn, cursor);
  }

  /** The answer is the stream's own page of that number, with its own next iterator, exactly if its ARN can be
      carried. */
  lemma FetchIff(streams: Streams, arn: string, cursor: nat, limit: nat)
    requires arn in streams && cursor <= U64_MAX
    ensures var (page, next) := GetRecords(streams[arn], cursor, limit);
            Fetch(streams, MakeShardIterator(arn, cursor), limit) == Ok((page, MakeShardIterator(arn, next)))
            <==> Carriable(arn)
  {
    hide GetRecords, MakeShardIterator, Carriable, Find, Named, Fetch;
    var own := GetRecords(streams[arn], cursor, limit);
    FetchOfMade(streams, arn, cursor, limit);
    ParseOfMade(arn, cursor);
    CarriableHasNone(arn);
    var named := Named(arn);
    if named != arn && named in streams {
      var from := if Find(arn, SEPARATOR).Some? then 0 else cursor;
      MadeApart(named, GetRecords(streams[named], from, limit).1, arn, own.1);
    }
  }

  /** A stream whose ARN goes on behind another's with a separator is answered from that other stream: the records of
      another table, from the beginning, and then its iterators. */
  lemma ReadsAnotherStream(streams: Streams, other: string, x: string, cursor: nat, limit: nat)
    requires Carriable(other) && other in streams && cursor <= U64_MAX
    ensures var (page, next) := GetRecords(streams[other], 0, limit);
            Fetch(streams, MakeShardIterator(other + SEPARATOR + x, cursor), limit)
            == Ok((page, MakeShardIterator(other, next)))
  {
    hide GetRecords, MakeShardIterator, Carriable, Fetch, Cut, Find;
    var arn := other + SEPARATOR + x;
    CarriableEndsAtFirst(other);
    assert arn + SEPARATOR == other + SEPARATOR + (x + SEPARATOR);
    CutAtFirst(other, SEPARATOR, x + SEPARATOR);
    FindIsFirst(arn, SEPARATOR);
    assert arn[|other|..|other| + 2] == SEPARATOR;
    assert IsAt(arn, SEPARATOR, |other|);
    FetchOfMade(streams, arn, cursor, limit);
  }

  // ---------------------------------------------------------------------------
  // The consumer
  // ---------------------------------------------------------------------------

  /** A write to any of the streams, or a read by the consumer. */
  datatype Event = Write(to: string, event: string, before: Option<Item>, after: Option<Item>) | Read(limit: nat)

  /** `next` is the NextShardIterator of the last answer; `all` lists every record ever appended to the stream the
      consumer began with, and is not part of the program. */
  datatype Consumer = Consumer(
    arn: string, streams: Streams, all: seq<StreamRecord>, next: string, delivered: seq<StreamRecord>, refused: nat)

  function Begin(arn: string, streams: Streams, all: seq<StreamRecord>, start: nat): Consumer {
    Consumer(arn, streams, all, MakeShardIterator(arn, start), [], 0)
  }

  function NewRecord(s: Stream, e: Event): StreamRecord
    requires e.Write?
  {
    StreamRecord(s.sequence + 1, e.event, e.before, e.after)
  }

  function Serve(c: Consumer, e: Event): Consumer {
    match e
    case Write(to, event, before, after) =>
      if to !in c.streams then c
      else
        var streams := c.streams[to := Append(c.streams[to], event, before, after)];
        c.(streams := streams, all := if to == c.arn then c.all + [NewRecord(c.streams[to], e)] else c.all)
    case Read(limit) =>
      match Fetch(c.streams, c.next, limit)
      case Err(_) => c.(refused := c.refused + 1)
      case Ok((page, next)) => c.(next := next, delivered := c.delivered + page)
  }

  function Consume(c: Consumer, events: seq<Event>): Consumer
    decreases |events|
  {
    if events == [] then c else Consume(Serve(c, events[0]), events[1..])
  }

  /** The number in the iterator that the consumer holds. */
  function Cursor(c: Consumer): nat {
    match ParseShardIterator(c.next) case Some((_, n)) => n case None => 0
  }

  function Writes(events: seq<Event>): nat {
    if events == [] then 0 else (if events[0].Write? then 1 else 0) + Writes(events[1..])
  }

  /** The records not yet read, the one at the cursor included, fit the stream whenever some are asked for. */
  predicate InTime(all: seq<StreamRecord>, cursor: nat, e: Event) {
    e.Read? && e.limit >= 1 ==> |all| < Position(cursor) + STREAM_CAPACITY
  }

  /** Every read of the run comes in time. */
  predicate KeepsUp(c: Consumer, events: seq<Event>)
    decreases |events|
  {
    events == [] || (InTime(c.all, Cursor(c), events[0]) && KeepsUp(Serve(c, events[0]), events[1..]))
  }

  // ---------------------------------------------------------------------------
  // The records are those of the table's writes
  // ---------------------------------------------------------------------------

  /** Whoever asks a stream of this ARN for what comes from this record's number on gets exactly this record. */
  ghost predicate Delivers(arn: string, s: Stream, r: StreamRecord) {
    forall streams: Streams, limit: nat :: arn in streams && streams[arn] == s && limit >= 1 ==>
      Fetch(streams, MakeShardIterator(arn, r.sequence), limit)
      == Ok(([r], MakeShardIterator(arn, r.sequence + 1)))
  }

  lemma GainRetains(s: Stream, after: Stream, all: seq<StreamRecord>, r: StreamRecord)
    requires Retains(s, all) && Gains(s, after, r)
    ensures Retains(after, all + [r]) && r.sequence == |all| + 1
  {
  }

  lemma GainIsDelivered(arn: string, s: Stream, after: Stream, all: seq<StreamRecord>, r: StreamRecord)
    requires Carriable(arn) && Retains(s, all) && Gains(s, after, r) && |all| < U64_MAX
    ensures Retains(after, all + [r]) && Delivers(arn, after, r)
  {
    hide GetRecords, MakeShardIterator, Carriable, Fetch, Gains;
    GainRetains(s, after, all, r);
    forall streams: Streams, limit: nat | arn in streams && streams[arn] == after && limit >= 1
      ensures Fetch(streams, MakeShardIterator(arn, r.sequence), limit)
           == Ok(([r], MakeShardIterator(arn, r.sequence + 1)))
    {
      FetchIff(streams, arn, r.sequence, limit);
      PageIsStretch(after, all + [r], r.sequence, limit);
      assert (all + [r])[|all|..|all| + 1] == [r];
    }
  }

  /** A put reaches the consumer as one record, MODIFY with the item it replaced or INSERT without one, and with the
      item that was put; a delete as REMOVE with the item that went, and not at all if there was none. */
  lemma WritesAreDelivered(arn: string, t: Table, item: Item, all: seq<StreamRecord>)
    requires Carriable(arn) && Retains(t.stream, all) && |all| < U64_MAX
    ensures ExtractKey(t, item).Some? ==>
              var after := PutItem(t, item).0.stream;
              var event := if Stored(t, item).Some? then "MODIFY" else "INSERT";
              var r := StreamRecord(|all| + 1, event, Stored(t, item), Some(item));
              Retains(after, all + [r]) && Delivers(arn, after, r)
    ensures ExtractKey(t, item).None? ==> PutItem(t, item).0.stream == t.stream
    ensures var after := DeleteItem(t, item).0.stream;
            match Stored(t, item)
            case None => after == t.stream
            case Some(gone) =>
              var r := StreamRecord(|all| + 1, "REMOVE", Some(gone), None);
              Retains(after, all + [r]) && Delivers(arn, after, r)
  {
    hide PutItem, DeleteItem, ExtractKey, Gains, Delivers, Carriable;
    PutEffect(t, item);
    DeleteEffect(t, item);
    StoredUnder(t, item);
    var after := PutItem(t, item).0.stream;
    if ExtractKey(t, item).Some? {
      var event := if Stored(t, item).Some? then "MODIFY" else "INSERT";
      GainIsDelivered(arn, t.stream, after, all, StreamRecord(|all| + 1, event, Stored(t, item), Some(item)));
    }
    if Stored(t, item).Some? {
      var r := StreamRecord(|all| + 1, "REMOVE", Stored(t, item), None);
      GainIsDelivered(arn, t.stream, DeleteItem(t, item).0.stream, all, r);
    }
  }

  /** So does an update that leaves the item its key, with the item as it was before and as it is now. */
  lemma UpdateIsDelivered(arn: string, t: Table, key: Item, edit: Item -> Item, all: seq<StreamRecord>)
    requires Carriable(arn) && Retains(t.stream, all) && |all| < U64_MAX && ExtractKey(t, key).Some?
    requires ExtractKey(t, edit(if Stored(t, key).Some? then Stored(t, key).value else key)) == ExtractKey(t, key)
    ensures var after := UpdateItem(t, key, edit).0.stream;
            var event := if Stored(t, key).Some? then "MODIFY" else "INSERT";
            var edited := edit(if Stored(t, key).Some? then Stored(t, key).value else key);
            var r := StreamRecord(|all| + 1, event, Stored(t, key), Some(edited));
            Retains(after, all + [r]) && Delivers(arn, after, r)
  {
    hide UpdateItem, ExtractKey, Gains, Delivers, Carriable;
    UpdateEffect(t, key, edit);
    StoredUnder(t, key);
    var edited := edit(if Stored(t, key).Some? then Stored(t, key).value else key);
    var event := if Stored(t, key).Some? then "MODIFY" else "INSERT";
    GainIsDelivered(arn, t.stream, UpdateItem(t, key, edit).0.stream, all,
                    StreamRecord(|all| + 1, event, Stored(t, key), Some(edited)));
  }

  /** Such a write is an event of the consumer's run, to which all the results on runs apply. */
  lemma WriteIsAnEvent(c: Consumer, t: Table, item: Item)
    requires c.arn in c.streams && c.streams[c.arn] == t.stream && ExtractKey(t, item).Some?
    ensures var event := if Stored(t, item).Some? then "MODIFY" else "INSERT";
            Serve(c, Write(c.arn, event, Stored(t, item), Some(item))).streams[c.arn] == PutItem(t, item).0.stream
    ensures var gone := Stored(t, item);
            gone.Some? ==>
              Serve(c, Write(c.arn, "REMOVE", gone, None)).streams[c.arn] == DeleteItem(t, item).0.stream
  {
    hide KeyBy, Append;
  }

  // ---------------------------------------------------------------------------
  // The same run on numbers, with a count of what was skipped
  // ---------------------------------------------------------------------------

  datatype Reading = Reading(
    arn: string, stream: Stream, all: seq<StreamRecord>, cursor: nat, delivered: seq<StreamRecord>, lost: nat)

  function Step(r: Reading, e: Event): Reading {
    match e
    case Write(to, event, before, after) =>
      if to != r.arn then r
      else r.(stream := Append(r.stream, event, before, after), all := r.all + [NewRecord(r.stream, e)])
    case Read(limit) =>
      var (page, next) := GetRecords(r.stream, r.cursor, limit);
      var late := page != [] && Position(r.cursor) < Oldest(r.stream);
      var skipped := if late then Oldest(r.stream) - Position(r.cursor) else 0;
      r.(cursor := next, delivered := r.delivered + page, lost := r.lost + skipped)
  }

  function Follow(r: Reading, events: seq<Event>): Reading
    decreases |events|
  {
    if events == [] then r else Follow(Step(r, events[0]), events[1..])
  }

  predicate AlwaysInTime(r: Reading, events: seq<Event>)
    decreases |events|
  {
    events == [] || (InTime(r.all, r.cursor, events[0]) && AlwaysInTime(Step(r, events[0]), events[1..]))
  }

  /** The numbers stay within 64 bits for this many further writes. */
  ghost predicate Sound(r: Reading, writes: nat) {
    Retains(r.stream, r.all) && r.cursor <= U64_MAX && |r.all| + writes < U64_MAX
  }

  /** The consumer stands where the reading does. */
  ghost predicate Shadows(c: Consumer, r: Reading) {
    && c.arn == r.arn && c.arn in c.streams && c.streams[c.arn] == r.stream && c.all == r.all
    && c.next == MakeShardIterator(c.arn, r.cursor) && c.delivered == r.delivered
  }

  lemma StepRetains(r: Reading, e: Event)
    requires Retains(r.stream, r.all)
    ensures Retains(Step(r, e).stream, Step(r, e).all)
  {
    hide GetRecords;
    if e.Write? {
      AppendKeepsNumbering(r.stream, e.event, e.before, e.after);
    }
  }

  lemma StepSound(r: Reading, e: Event, writes: nat)
    requires Sound(r, writes + if e.Write? then 1 else 0)
    ensures Sound(Step(r, e), writes)
  {
    hide GetRecords, Retains;
    StepRetains(r, e);
    if e.Read? {
      PageIsStretch(r.stream, r.all, r.cursor, e.limit);
    }
  }

  lemma StepShadows(c: Consumer, r: Reading, e: Event)
    requires Carriable(c.arn) && Shadows(c, r) && r.cursor <= U64_MAX
    ensures Shadows(Serve(c, e), Step(r, e)) && Serve(c, e).arn == c.arn && Serve(c, e).refused == c.refused
    ensures Cursor(c) == r.cursor
  {
    hide GetRecords, Carriable, MakeShardIterator, ParseShardIterator, Fetch, Append;
    IteratorRoundTrip(c.arn, r.cursor);
    if e.Read? {
      FetchIff(c.streams, c.arn, r.cursor, e.limit);
    }
  }

  lemma {:induction false} ConsumeShadows(c: Consumer, r: Reading, events: seq<Event>)
    requires Carriable(c.arn) && Shadows(c, r) && Sound(r, Writes(events))
    ensures var d, q := Consume(c, events), Follow(r, events);
            Shadows(d, q) && Sound(q, 0) && d.arn == c.arn && d.refused == c.refused && Cursor(d) == q.cursor
    ensures KeepsUp(c, events) == AlwaysInTime(r, events)
    decreases |events|
  {
    hide Shadows, Sound, Serve, Step, Carriable, InTime;
    ShadowBounds(c, r, Writes(events));
    if events == [] {
      StepShadows(c, r, Read(0));
    } else {
      StepShadows(c, r, events[0]);
      StepSound(r, events[0], Writes(events[1..]));
      ConsumeShadows(Serve(c, events[0]), Step(r, events[0]), events[1..]);
    }
  }

  lemma ShadowBounds(c: Consumer, r: Reading, writes: nat)
    requires Shadows(c, r) && Sound(r, writes)
    ensures r.cursor <= U64_MAX && c.all == r.all
  {
  }

  // ---------------------------------------------------------------------------
  // Every record once, in order, and none skipped exactly if every read comes in time
  // ---------------------------------------------------------------------------

  ghost predicate Ascending(records: seq<StreamRecord>) {
    forall i, j :: 0 <= i < j < |records| ==> records[i].sequence < records[j].sequence
  }

  ghost predicate Between(records: seq<StreamRecord>, low: nat, high: nat) {
    forall i :: 0 <= i < |records| ==> low <= records[i].sequence < high
  }

  ghost predicate Among(records: seq<StreamRecord>, all: seq<StreamRecord>) {
    forall x :: x in records ==> x in all
  }

  /** An ascending selection of the appended records between the start and the cursor. */
  ghost predicate Selects(delivered: seq<StreamRecord>, all: seq<StreamRecord>, start: nat, cursor: nat) {
    && Position(start) <= Position(cursor)
    && (Position(start) < Position(cursor) ==> cursor <= |all| + 1)
    && Ascending(delivered) && Between(delivered, Position(start), Position(cursor)) && Among(delivered, all)
  }

  /** The selection is short of exactly as many as were skipped. */
  ghost predicate Accounted(r: Reading, start: nat) {
    Selects(r.delivered, r.all, start, r.cursor) && |r.delivered| + r.lost == Position(r.cursor) - Position(start)
  }

  lemma ExtendSelection(delivered: seq<StreamRecord>, all: seq<StreamRecord>, start: nat, stop: nat, low: nat,
                        middle: nat)
    requires forall i :: 0 <= i < |all| ==> all[i].sequence == i + 1
    requires low <= middle <= start + 1 && start < stop <= |all|
    requires Ascending(delivered) && Between(delivered, low, middle) && Among(delivered, all)
    ensures var more := delivered + all[start..stop];
            Ascending(more) && Between(more, low, stop + 1) && Among(more, all)
  {
    var page := all[start..stop];
    assert forall k :: 0 <= k < |page| ==> page[k] == all[start + k];
  }

  lemma StepAccounted(r: Reading, e: Event, start: nat)
    requires Retains(r.stream, r.all) && Accounted(r, start)
    ensures Accounted(Step(r, e), start)
  {
    hide Ascending, Between, GetRecords;
    if e.Read? {
      PageIsStretch(r.stream, r.all, r.cursor, e.limit);
      var from := Max(Position(r.cursor), Oldest(r.stream)) - 1;
      var stop := Min(from + e.limit, |r.all|);
      if from < stop {
        ExtendSelection(r.delivered, r.all, from, stop, Position(start), Position(r.cursor));
      } else {
        assert r.delivered + [] == r.delivered;
      }
    }
  }

  /** A page skips records exactly if it is asked for too late. */
  lemma StepLoses(r: Reading, e: Event)
    requires Retains(r.stream, r.all)
    ensures Step(r, e).lost >= r.lost
    ensures Step(r, e).lost == r.lost <==> InTime(r.all, r.cursor, e)
  {
    hide GetRecords;
    if e.Read? {
      PageIsStretch(r.stream, r.all, r.cursor, e.limit);
    }
  }

  lemma {:induction false} FollowAccounted(r: Reading, events: seq<Event>, start: nat)
    requires Retains(r.stream, r.all) && Accounted(r, start)
    ensures Retains(Follow(r, events).stream, Follow(r, events).all) && Accounted(Follow(r, events), start)
    ensures Follow(r, events).lost >= r.lost
    ensures Follow(r, events).lost == r.lost <==> AlwaysInTime(r, events)
    decreases |events|
  {
    if events == [] {
    } else {
      hide Step, Accounted, Retains, InTime;
      StepRetains(r, events[0]);
      StepAccounted(r, events[0], start);
      StepLoses(r, events[0]);
      FollowAccounted(Step(r, events[0]), events[1..], start);
    }
  }

  /** All records from number `start` up to the cursor. */
  function Stretch(all: seq<StreamRecord>, start: nat, cursor: nat): seq<StreamRecord>
    requires Position(start) < Position(cursor) ==> cursor <= |all| + 1
  {
    if Position(start) < Position(cursor) then all[Position(start) - 1..cursor - 1] else []
  }

  /** Following NextShardIterator from a fresh iterator, with any appends in between, is never refused and delivers
      records at most once and in order; and it delivers every record from the start up to the cursor exactly if
      every read comes in time. */
  lemma ExactlyOnceInOrder(arn: string, streams: Streams, all: seq<StreamRecord>, start: nat, events: seq<Event>)
    requires Carriable(arn) && arn in streams && Retains(streams[arn], all) && start <= U64_MAX
    requires |all| + Writes(events) < U64_MAX
    ensures var c := Consume(Begin(arn, streams, all, start), events);
            && c.refused == 0 && c.arn == arn && arn in c.streams && c.next == MakeShardIterator(arn, Cursor(c))
            && Retains(c.streams[c.arn], c.all)
            && Selects(c.delivered, c.all, start, Cursor(c))
            && (c.delivered == Stretch(c.all, start, Cursor(c)) <==> KeepsUp(Begin(arn, streams, all, start), events))
  {
    hide Consume, Follow, KeepsUp, AlwaysInTime, Carriable;
    var c, r := Begin(arn, streams, all, start), Reading(arn, streams[arn], all, start, [], 0);
    ConsumeShadows(c, r, events);
    FollowAccounted(r, events, start);
    var end := Follow(r, events);
    if end.lost == 0 {
      SelectionIsStretch(end, start);
    }
  }

  lemma SelectionIsStretch(r: Reading, start: nat)
    requires Retains(r.stream, r.all) && Accounted(r, start) && r.lost == 0
    ensures r.delivered == Stretch(r.all, start, r.cursor)
  {
    DenseSelection(r.delivered, Position(start), Position(r.cursor));
    var stretch := Stretch(r.all, start, r.cursor);
    hide Retains, Accounted, Selects, Ascending, Between;
    forall i | 0 <= i < |r.delivered| ensures r.delivered[i] == stretch[i] {
      AtItsSequence(r, r.delivered[i]);
    }
  }

  lemma AtItsSequence(r: Reading, x: StreamRecord)
    requires Retains(r.stream, r.all) && x in r.all
    ensures 1 <= x.sequence <= |r.all| && x == r.all[x.sequence - 1]
  {
    var k :| 0 <= k < |r.all| && r.all[k] == x;
  }

  /** Ascending numbers that are as many as fit leave no gap. */
  lemma DenseSelection(records: seq<StreamRecord>, low: nat, high: nat)
    requires low <= high && |records| == high - low && Between(records, low, high) && Ascending(records)
    ensures forall i :: 0 <= i < |records| ==> records[i].sequence == low + i
  {
    forall i | 0 <= i < |records| ensures records[i].sequence == low + i {
      AtLeast(records, low, high, i);
      AtMost(records, low, high, i);
    }
  }

  lemma {:induction false} AtLeast(records: seq<StreamRecord>, low: nat, high: nat, i: nat)
    requires i < |records| && Between(records, low, high) && Ascending(records)
    ensures records[i].sequence >= low + i
  {
    if i == 0 {
    } else {
      AtLeast(records, low, high, i - 1);
    }
  }

  lemma {:induction false} AtMost(records: seq<StreamRecord>, low: nat, high: nat, i: nat)
    requires i < |records| && Between(records, low, high) && Ascending(records)
    ensures records[i].sequence + |records| - i <= high
    decreases |records| - i
  {
    if i < |records| - 1 {
      AtMost(records, low, high, i + 1);
    }
  }

  // ---------------------------------------------------------------------------
  // The other ARNs
  // ---------------------------------------------------------------------------

  function Reads(events: seq<Event>): nat {
    if events == [] then 0 else (if events[0].Read? then 1 else 0) + Reads(events[1..])
  }

  /** If no stream has the ARN that the iterator names, every read is refused and nothing is ever delivered. */
  lemma {:induction false} RefusedIfNoneIsNamed(c: Consumer, cursor: nat, events: seq<Event>)
    requires Named(c.arn) !in c.streams && cursor <= U64_MAX && c.next == MakeShardIterator(c.arn, cursor)
    ensures Consume(c, events).delivered == c.delivered && Consume(c, events).refused == c.refused + Reads(events)
    decreases |events|
  {
    hide Named, MakeShardIterator, Fetch, Append, GetRecords, Find;
    if events == [] {
    } else {
      FetchOfMade(c.streams, c.arn, cursor, if events[0].Read? then events[0].limit else 0);
      RefusedIfNoneIsNamed(Serve(c, events[0]), cursor, events[1..]);
    }
  }

  /** Two consumers of the same streams whose iterators say the same when parsed get the same. */
  ghost predicate Alike(c: Consumer, d: Consumer) {
    c.streams == d.streams && c.delivered == d.delivered && c.refused == d.refused
    && ParseShardIterator(c.next) == ParseShardIterator(d.next)
  }

  lemma {:induction false} AlikeConsume(c: Consumer, d: Consumer, events: seq<Event>)
    requires Alike(c, d)
    ensures Alike(Consume(c, events), Consume(d, events))
    decreases |events|
  {
    hide ParseShardIterator, GetRecords, Append, MakeShardIterator;
    if events == [] {
    } else {
      AlikeConsume(Serve(c, events[0]), Serve(d, events[0]), events[1..]);
    }
  }

  /** Otherwise the consumer gets, through any run, exactly what a consumer of the stream so named gets: its own records
      only if its ARN can be carried. */
  lemma FollowsTheNamedStream(arn: string, streams: Streams, all: seq<StreamRecord>, others: seq<StreamRecord>,
                              start: nat,
                              events: seq<Event>)
    requires start <= U64_MAX
    ensures var from := if Find(arn, SEPARATOR).Some? then 0 else start;
            Alike(Consume(Begin(arn, streams, all, start), events),
                  Consume(Begin(Named(arn), streams, others, from), events))
    ensures Carriable(Named(arn)) && (Named(arn) == arn <==> Carriable(arn))
  {
    hide Named, MakeShardIterator, ParseShardIterator, Consume, Carriable, Find;
    var named, from := Named(arn), if Find(arn, SEPARATOR).Some? then 0 else start;
    ParseOfMade(arn, start);
    ParseOfMade(named, from);
    CarriableHasNone(named);
    AlikeConsume(Begin(arn, streams, all, start), Begin(named, streams, others, from), events);
  }

  // ---------------------------------------------------------------------------
  // Progress
  // ---------------------------------------------------------------------------

  ghost predicate OnlyReads(events: seq<Event>) {
    forall e :: e in events ==> e.Read?
  }

  function TotalLimit(events: seq<Event>): nat {
    if events == [] then 0 else (if events[0].Read? then events[0].limit else 0) + TotalLimit(events[1..])
  }

  /** From the cursor on, or from the oldest record retained, `total` further records have been delivered, or all
      there are. */
  ghost predicate MovedBy(
    s: Stream, all: seq<StreamRecord>, cursor: nat, delivered: seq<StreamRecord>, cursor': nat,
    delivered': seq<StreamRecord>, total: nat)
  {
    var from := Max(Position(cursor), Oldest(s)) - 1;
    var stop := Min(from + total, |all|);
    if from < stop then delivered' == delivered + all[from..stop] && cursor' == stop + 1
    else delivered' == delivered && cursor' == cursor
  }

  lemma StepMoves(r: Reading, e: Event)
    requires Retains(r.stream, r.all) && e.Read?
    ensures var q := Step(r, e);
            q.all == r.all && q.stream == r.stream
            && MovedBy(r.stream, r.all, r.cursor, r.delivered, q.cursor, q.delivered, e.limit)
  {
    hide GetRecords, Retains;
    PageIsStretch(r.stream, r.all, r.cursor, e.limit);
    assert r.delivered + [] == r.delivered;
  }

  lemma MovedTwice(s: Stream, all: seq<StreamRecord>, c0: nat, d0: seq<StreamRecord>, c1: nat, d1: seq<StreamRecord>,
                   c2: nat, d2: seq<StreamRecord>, first: nat, second: nat)
    requires MovedBy(s, all, c0, d0, c1, d1, first) && MovedBy(s, all, c1, d1, c2, d2, second)
    ensures MovedBy(s, all, c0, d0, c2, d2, first + second)
  {
    var from := Max(Position(c0), Oldest(s)) - 1;
    var middle, stop := Min(from + first, |all|), Min(from + first + second, |all|);
    if from < middle {
      hide Oldest;
      assert d1 == d0 + all[from..middle] && c1 == middle + 1;
      assert Max(Position(c1), Oldest(s)) - 1 == middle && Min(middle + second, |all|) == stop;
      hide Max, Min, Position;
      if middle < stop {
        assert d2 == d1 + all[middle..stop] && c2 == stop + 1;
        SlicesFollow(d0, all, from, middle, stop);
      }
    }
  }

  lemma SlicesFollow<T>(before: seq<T>, all: seq<T>, from: nat, middle: nat, stop: nat)
    requires from <= middle <= stop <= |all|
    ensures before + all[from..middle] + all[middle..stop] == before + all[from..stop]
  {
    assert all[from..middle] + all[middle..stop] == all[from..stop];
  }

  lemma FirstReads(events: seq<Event>)
    requires OnlyReads(events) && events != []
    ensures events[0].Read? && OnlyReads(events[1..])
    ensures TotalLimit(events) == events[0].limit + TotalLimit(events[1..])
  {
    assert events[0] in events;
  }

  lemma NoMove(r: Reading)
    ensures Follow(r, []) == r && MovedBy(r.stream, r.all, r.cursor, r.delivered, r.cursor, r.delivered, 0)
  {
  }

  lemma FollowMore(r: Reading, events: seq<Event>)
    requires events != []
    ensures Follow(r, events) == Follow(Step(r, events[0]), events[1..])
  {
    hide Step;
  }

  lemma {:induction false} ReadsMove(r: Reading, events: seq<Event>)
    requires Retains(r.stream, r.all) && OnlyReads(events)
    ensures var q := Follow(r, events);
            && q.all == r.all && q.stream == r.stream
            && MovedBy(r.stream, r.all, r.cursor, r.delivered, q.cursor, q.delivered, TotalLimit(events))
    decreases |events|
  {
    hide Step, Retains, MovedBy, OnlyReads, Follow;
    if events == [] {
      NoMove(r);
    } else {
      var m, q := Step(r, events[0]), Follow(r, events);
      FollowMore(r, events);
      FirstReads(events);
      StepMoves(r, events[0]);
      ReadsMove(m, events[1..]);
      MovedTwice(r.stream, r.all, r.cursor, r.delivered, m.cursor, m.delivered, q.cursor, q.delivered,
                 events[0].limit, TotalLimit(events[1..]));
    }
  }

  /** Reads without writes in between move the cursor by the sum of their limits, up to the end, and deliver all records
      on the way. */
  lemma ReadsCatchUp(c: Consumer, events: seq<Event>)
    requires Carriable(c.arn) && OnlyReads(events)
    requires c.arn in c.streams && Retains(c.streams[c.arn], c.all) && |c.all| < U64_MAX
    requires Cursor(c) <= U64_MAX && c.next == MakeShardIterator(c.arn, Cursor(c))
    ensures var d := Consume(c, events);
            d.refused == c.refused
            && MovedBy(c.streams[c.arn], c.all, Cursor(c), c.delivered, Cursor(d), d.delivered, TotalLimit(events))
  {
    hide Consume, Follow, KeepsUp, AlwaysInTime, Carriable, Retains, MovedBy, MakeShardIterator, Cursor;
    var r := Reading(c.arn, c.streams[c.arn], c.all, Cursor(c), c.delivered, 0);
    NoWrites(events);
    ConsumeShadows(c, r, events);
    ReadsMove(r, events);
  }

  lemma {:induction false} NoWrites(events: seq<Event>)
    requires OnlyReads(events)
    ensures Writes(events) == 0
  {
    if events == [] {
    } else {
      FirstReads(events);
      NoWrites(events[1..]);
    }
  }

  lemma {:induction false} ConsumeOfAppend(c: Consumer, a: seq<Event>, b: seq<Event>)
    ensures Consume(c, a + b) == Consume(Consume(c, a), b)
    decreases |a|
  {
    hide Serve;
    if a == [] {
      assert a + b == b;
    } else {
      assert (a + b)[1..] == a[1..] + b;
      ConsumeOfAppend(Serve(c, a[0]), a[1..], b);
    }
  }

  /** A consumer that has kept up, and is in time now, receives everything from its start on with enough further
      reads. */
  lemma EveryRecordArrives(arn: string, streams: Streams, all: seq<StreamRecord>, start: nat, events: seq<Event>,
                           more: seq<Event>)
    requires Carriable(arn) && arn in streams && Retains(streams[arn], all) && start <= U64_MAX
    requires |all| + Writes(events) < U64_MAX
    requires KeepsUp(Begin(arn, streams, all, start), events) && OnlyReads(more)
    requires var c := Consume(Begin(arn, streams, all, start), events);
             InTime(c.all, Cursor(c), Read(1)) && |c.all| < Position(Cursor(c)) + TotalLimit(more)
    ensures var c := Consume(Begin(arn, streams, all, start), events);
            var d := Consume(Begin(arn, streams, all, start), events + more);
            d.refused == 0 && d.delivered == if Position(start) <= |c.all| then c.all[Position(start) - 1..] else []
  {
    hide Consume, KeepsUp, Carriable, Retains, Selects, Cursor, MakeShardIterator, MovedBy, Ascending, Between, Among;
    var begin := Begin(arn, streams, all, start);
    var c := Consume(begin, events);
    ExactlyOnceInOrder(arn, streams, all, start, events);
    StaysInRange(arn, streams, all, start, events);
    ConsumeOfAppend(begin, events, more);
    ReadsCatchUp(c, more);
    MovedToEnd(c.streams[arn], c.all, start, Cursor(c), c.delivered, Cursor(Consume(c, more)),
        Consume(c, more).delivered,
        TotalLimit(more));
  }

  lemma MovedToEnd(s: Stream, all: seq<StreamRecord>, start: nat, cursor: nat, delivered: seq<StreamRecord>,
                   cursor': nat, delivered': seq<StreamRecord>, total: nat)
    requires MovedBy(s, all, cursor, delivered, cursor', delivered', total)
    requires Oldest(s) <= Position(cursor) && |all| < Position(cursor) + total && Position(start) <= Position(cursor)
    requires Position(start) < Position(cursor) ==> cursor <= |all| + 1
    requires delivered == Stretch(all, start, cursor)
    ensures delivered' == if Position(start) <= |all| then all[Position(start) - 1..] else []
  {
    var low, from := Position(start) - 1, Position(cursor) - 1;
    assert Max(Position(cursor), Oldest(s)) - 1 == from && Min(from + total, |all|) == |all|;
    if from <= |all| {
      StretchIs(all, start, cursor);
      hide Stretch, Oldest, Max, Min;
      SlicesJoin(all, low, from);
      if from < |all| {
        assert delivered' == delivered + all[from..|all|];
      } else {
        assert delivered' == delivered;
      }
    } else {
      NothingBeyond(all, start, cursor);
    }
  }

  lemma NothingBeyond(all: seq<StreamRecord>, start: nat, cursor: nat)
    requires Position(start) <= Position(cursor) && Position(cursor) - 1 > |all|
    requires Position(start) < Position(cursor) ==> cursor <= |all| + 1
    ensures Position(start) == Position(cursor) && Stretch(all, start, cursor) == []
  {
  }

  lemma StretchIs(all: seq<StreamRecord>, start: nat, cursor: nat)
    requires Position(start) <= Position(cursor) <= |all| + 1
    ensures Stretch(all, start, cursor) == all[Position(start) - 1..Position(cursor) - 1]
  {
  }

  lemma SlicesJoin<T>(all: seq<T>, low: nat, middle: nat)
    requires low <= middle <= |all|
    ensures all[low..middle] + all[middle..|all|] == all[low..] && all[low..low] == []
    ensures middle == |all| ==> all[low..middle] == all[low..]
  {
  }

  lemma StaysInRange(arn: string, streams: Streams, all: seq<StreamRecord>, start: nat, events: seq<Event>)
    requires Carriable(arn) && arn in streams && Retains(streams[arn], all) && start <= U64_MAX
    requires |all| + Writes(events) < U64_MAX
    ensures var c := Consume(Begin(arn, streams, all, start), events);
            && c.arn == arn && arn in c.streams && |c.all| < U64_MAX && Cursor(c) <= U64_MAX
            && (InTime(c.all, Cursor(c), Read(1)) ==> Oldest(c.streams[arn]) <= Position(Cursor(c)))
            && Position(start) <= Position(Cursor(c))
            && (Position(start) < Position(Cursor(c)) ==> Cursor(c) <= |c.all| + 1)
  {
    hide Consume, Follow, KeepsUp, AlwaysInTime, Carriable, Ascending, Between, Among, Cursor, MakeShardIterator;
    var r := Reading(arn, streams[arn], all, start, [], 0);
    StartsAccounted(arn, streams[arn], all, start);
    ConsumeShadows(Begin(arn, streams, all, start), r, events);
    FollowAccounted(r, events, start);
    InTimeIsRetained(Follow(r, events));
  }

  lemma StartsAccounted(arn: string, s: Stream, all: seq<StreamRecord>, start: nat)
    ensures Accounted(Reading(arn, s, all, start, [], 0), start)
  {
  }

  lemma InTimeIsRetained(r: Reading)
    requires Retains(r.stream, r.all)
    ensures InTime(r.all, r.cursor, Read(1)) ==> Oldest(r.stream) <= Position(r.cursor)
  {
  }
}
