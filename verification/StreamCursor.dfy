/** Reading a DynamoDB stream page by page through the textual shard iterator. */
module StreamCursor {
  import opened Base
  import opened Text
  import opened Decimal
  import opened Store

  const SEPARATOR := "::"
  const SHARD := "shard-0000000001"

  // ---------------------------------------------------------------------------
  // The iterator as text
  // ---------------------------------------------------------------------------

  function MakeShardIterator(arn: string, sequence: nat): string {
    arn + SEPARATOR + (SHARD + SEPARATOR + Pad20(sequence))
  }

  /** How sequence numbers are read wherever they occur as text. */
  function ReadSequence(text: string): nat {
    match Parse(TrimZeros(text), U64_MAX) case Some(n) => n case None => 0
  }

  /** `parse_shard_iterator`: the texts before, between and after the first two separators. */
  function ParseShardIterator(it: string): Option<(string, nat)> {
    match Cut(it, SEPARATOR)
    case None => None
    case Some((arn, rest)) => match Cut(rest, SEPARATOR)
      case None => None
      case Some((_, text)) => Some((arn, ReadSequence(text)))
  }

  /** A stream ARN the iterator can carry. */
  predicate Carriable(arn: string) {
    Find(arn, SEPARATOR).None? && (arn == "" || arn[|arn| - 1] != ':')
  }

  lemma CarriableEndsAtFirst(arn: string)
    ensures Carriable(arn) <==> EndsAtFirst(arn, SEPARATOR)
  {
    hide Find;
    FindIsFirst(arn, SEPARATOR);
    forall k: nat | k < |arn|
      ensures IsAt(arn + SEPARATOR, SEPARATOR, k) <==> IsAt(arn, SEPARATOR, k) || (k == |arn| - 1 && arn[k] == ':')
    {
      SeparatorAt(arn, k);
    }
    if Find(arn, SEPARATOR).Some? {
      assert IsAt(arn + SEPARATOR, SEPARATOR, Find(arn, SEPARATOR).value);
    } else if arn != [] {
      assert arn[|arn| - 1] == ':' ==> IsAt(arn + SEPARATOR, SEPARATOR, |arn| - 1);
    }
  }

  lemma SeparatorAt(arn: string, k: nat)
    requires k < |arn|
    ensures IsAt(arn + SEPARATOR, SEPARATOR, k) <==> IsAt(arn, SEPARATOR, k) || (k == |arn| - 1 && arn[k] == ':')
  {
    var s := arn + SEPARATOR;
    if k < |arn| - 1 {
      assert s[k..k + 2] == arn[k..k + 2];
    } else {
      assert s[k..k + 2] == [arn[k], ':'];
    }
  }

  lemma ShardEndsAtFirst()
    ensures EndsAtFirst(SHARD, SEPARATOR)
  {
    var s := SHARD + SEPARATOR;
    forall k: nat | k < |SHARD| ensures !IsAt(s, SEPARATOR, k) {
      assert s[k] == SHARD[k] && SHARD[k] != ':';
      assert k + 2 <= |s| ==> s[k..k + 2][0] == s[k];
    }
  }

  /** Parsing gives back what was encoded, for every sequence number, exactly when the ARN contains no
      `::` and does not end in a colon. */
  lemma IteratorRoundTrip(arn: string, sequence: nat)
    requires sequence <= U64_MAX
    ensures ParseShardIterator(MakeShardIterator(arn, sequence)) == Some((arn, sequence)) <==> Carriable(arn)
  {
    hide Cut, Carriable, Pad20;
    var it, rest := MakeShardIterator(arn, sequence), SHARD + SEPARATOR + Pad20(sequence);
    CarriableEndsAtFirst(arn);
    CutIsFirst(it, SEPARATOR);
    if Carriable(arn) {
      CutAtFirst(arn, SEPARATOR, rest);
      ShardEndsAtFirst();
      CutAtFirst(SHARD, SEPARATOR, Pad20(sequence));
      ReadPadded(sequence, U64_MAX);
    }
  }

  // ---------------------------------------------------------------------------
  // What the iterator of any stream says when it is parsed
  // ---------------------------------------------------------------------------

  /** The ARN that is found: the text before the first separator. */
  function Named(arn: string): string {
    match Cut(arn + SEPARATOR, SEPARATOR) case Some((head, _)) => head case None => arn
  }

  /** Where the first separator stands when one follows the ARN, and what is left behind it. */
  lemma FirstSeparator(arn: string) returns (tail: string)
    ensures EndsAtFirst(Named(arn), SEPARATOR) && arn + SEPARATOR == Named(arn) + SEPARATOR + tail
    ensures Find(arn, SEPARATOR).Some? ==> |tail| >= 2 && tail[|tail| - 2..] == SEPARATOR
    ensures Find(arn, SEPARATOR).None? ==> tail == (if Carriable(arn) then "" else ":")
  {
    hide Cut, Find;
    var head: string;
    if Find(arn, SEPARATOR).Some? {
      var i := Find(arn, SEPARATOR).value;
      FindIsFirst(arn, SEPARATOR);
      EndsWhereFound(arn, SEPARATOR, i);
      head, tail := arn[..i], arn[i + 2..] + SEPARATOR;
    } else if Carriable(arn) {
      CarriableEndsAtFirst(arn);
      head, tail := arn, "";
    } else {
      EndsBeforeColon(arn);
      head, tail := arn[..|arn| - 1], ":";
    }
    assert arn + SEPARATOR == head + SEPARATOR + tail;
    CutAtFirst(head, SEPARATOR, tail);
  }

  lemma EndsBeforeColon(arn: string)
    requires Find(arn, SEPARATOR).None? && !Carriable(arn)
    ensures arn != [] && arn[|arn| - 1] == ':' && EndsAtFirst(arn[..|arn| - 1], SEPARATOR)
  {
    hide Find;
    FindIsFirst(arn, SEPARATOR);
    var head := arn[..|arn| - 1];
    forall k: nat | k < |head| ensures !IsAt(head + SEPARATOR, SEPARATOR, k) {
      assert !IsAt(arn, SEPARATOR, k);
      assert (head + SEPARATOR)[k..k + 2] == arn[k..k + 2];
    }
  }

  lemma CarriableHasNone(arn: string)
    ensures Carriable(arn) ==> Find(arn, SEPARATOR).None?
  {
  }

  /** The stream found is another one exactly if the ARN cannot be carried, and can itself be carried; the number
      survives unless the ARN contains a separator, and then becomes 0. */
  lemma ParseOfMade(arn: string, sequence: nat)
    requires sequence <= U64_MAX
    ensures ParseShardIterator(MakeShardIterator(arn, sequence))
         == Some((Named(arn), if Find(arn, SEPARATOR).Some? then 0 else sequence))
    ensures Carriable(Named(arn)) && Named(arn) <= arn && (Named(arn) == arn <==> Carriable(arn))
  {
    hide Cut, Carriable, Pad20, ReadSequence, Find;
    var head, number := Named(arn), SHARD + SEPARATOR + Pad20(sequence);
    var tail := FirstSeparator(arn);
    CarriableEndsAtFirst(head);
    CarriableHasNone(arn);
    assert head == (arn + SEPARATOR)[..|head|] && |tail| == |arn| - |head|;
    assert MakeShardIterator(arn, sequence) == head + SEPARATOR + (tail + number);
    CutAtFirst(head, SEPARATOR, tail + number);
    if Find(arn, SEPARATOR).Some? {
      var before := tail[..|tail| - 2];
      assert tail + number == before + SEPARATOR + number;
      NumberIsLost(before, sequence);
    } else {
      NumberSurvives(tail, sequence);
    }
  }

  /** Another separator ahead of the shard shifts the parts, and the third does not read as a number. */
  lemma NumberIsLost(before: string, sequence: nat)
    ensures var text := before + SEPARATOR + (SHARD + SEPARATOR + Pad20(sequence));
            Cut(text, SEPARATOR).Some? && ReadSequence(Cut(text, SEPARATOR).value.1) == 0
  {
    hide Cut, Pad20, ReadSequence;
    var number := SHARD + SEPARATOR + Pad20(sequence);
    var text := before + SEPARATOR + number;
    CutIsFirst(text, SEPARATOR);
    assert text[|before|..|before| + 2] == SEPARATOR;
    assert IsAt(text, SEPARATOR, |before|);
    var (head, third) := Cut(text, SEPARATOR).value;
    var k := |third| - |number|;
    FirstIsNoLater(text, head, |before|);
    assert third[k] == text[|before| + 2] == 's';
    LetterIsUnreadable(third, k);
  }

  lemma FirstIsNoLater(text: string, head: string, k: nat)
    requires EndsAtFirst(head, SEPARATOR) && head + SEPARATOR <= text && IsAt(text, SEPARATOR, k)
    ensures |head| <= k
  {
    var s := head + SEPARATOR;
    assert k + 2 <= |s| ==> s[k..k + 2] == text[k..k + 2];
    assert k < |head| ==> !IsAt(s, SEPARATOR, k);
  }

  lemma {:induction false} LetterIsUnreadable(text: string, k: nat)
    requires k < |text| && text[k] == 's'
    ensures ReadSequence(text) == 0
  {
    if text[0] == '0' {
      LetterIsUnreadable(text[1..], k - 1);
    } else {
      assert text[0] == '+' ==> text[1..][k - 1] == 's';
    }
  }

  lemma NumberSurvives(before: string, sequence: nat)
    requires (before == "" || before == ":") && sequence <= U64_MAX
    ensures var text := before + (SHARD + SEPARATOR + Pad20(sequence));
            Cut(text, SEPARATOR).Some? && ReadSequence(Cut(text, SEPARATOR).value.1) == sequence
  {
    hide Cut, Pad20;
    var text := before + (SHARD + SEPARATOR + Pad20(sequence));
    assert text == before + SHARD + SEPARATOR + Pad20(sequence);
    ShardEndsAtFirst();
    forall k: nat | k < |before + SHARD| ensures !IsAt(before + SHARD + SEPARATOR, SEPARATOR, k) {
      var s := before + SHARD + SEPARATOR;
      assert k >= |before| ==> s[k] == SHARD[k - |before|] && SHARD[k - |before|] != ':';
      assert k < |before| ==> s[k + 1] == SHARD[0];
      assert k + 2 <= |s| ==> s[k..k + 2][0] == s[k] && s[k..k + 2][1] == s[k + 1];
    }
    CutAtFirst(before + SHARD, SEPARATOR, Pad20(sequence));
    ReadPadded(sequence, U64_MAX);
  }

  /** Iterators of different streams are different texts. */
  lemma MadeApart(a: string, m: nat, b: string, n: nat)
    requires |a| < |b|
    ensures MakeShardIterator(a, m) != MakeShardIterator(b, n)
  {
    hide Pad20;
    var s, t := MakeShardIterator(a, m), MakeShardIterator(b, n);
    var k := |b| + 19;
    PadIsDigits(m);
    assert t[k] == ':';
    if |s| == |t| {
      assert s[k] == Pad20(m)[k - |a| - 20];
    }
  }

  lemma PadIsDigits(n: nat)
    ensures AllDigits(Pad20(n))
  {
  }

  // ---------------------------------------------------------------------------
  // One page
  // ---------------------------------------------------------------------------

  function From(records: seq<StreamRecord>, cursor: nat): seq<StreamRecord> {
    if records == [] then []
    else (if records[0].sequence >= cursor then [records[0]] else []) + From(records[1..], cursor)
  }

  function Take(records: seq<StreamRecord>, limit: nat): seq<StreamRecord> {
    if |records| <= limit then records else records[..limit]
  }

  /** `GetRecords`: the first `limit` retained records from the cursor on, and the next cursor. */
  function GetRecords(s: Stream, cursor: nat, limit: nat): (seq<StreamRecord>, nat) {
    var page := Take(From(s.records, cursor), limit);
    (page, if page == [] then cursor else page[|page| - 1].sequence + 1)
  }

  // ---------------------------------------------------------------------------
  // A page as a stretch of everything ever appended
  // ---------------------------------------------------------------------------

  function Oldest(s: Stream): nat {
    if |s.records| <= s.sequence then s.sequence - |s.records| + 1 else 1
  }

  /** Sequence numbers start at 1, so a cursor of 0 stands there too. */
  function Position(cursor: nat): nat {
    Max(cursor, 1)
  }

  /** The stream holds the last records of `all`, which are numbered from 1. */
  ghost predicate Retains(s: Stream, all: seq<StreamRecord>) {
    && s.enabled && Numbered(s) && |all| == s.sequence
    && s.records == all[|all| - |s.records|..]
    && forall i :: 0 <= i < |all| ==> all[i].sequence == i + 1
  }

  lemma {:induction false} FromAll(records: seq<StreamRecord>, cursor: nat)
    requires forall x :: x in records ==> x.sequence >= cursor
    ensures From(records, cursor) == records
  {
    if records == [] {
    } else {
      FromAll(records[1..], cursor);
    }
  }

  /** Consecutive numbers from `first` on. */
  ghost predicate Consecutive(records: seq<StreamRecord>, first: nat) {
    forall i :: 0 <= i < |records| ==> records[i].sequence == first + i
  }

  lemma {:induction false} FromConsecutive(records: seq<StreamRecord>, first: nat, cursor: nat)
    requires Consecutive(records, first)
    ensures From(records, cursor) ==
            if cursor <= first then records else if cursor - first <= |records| then records[cursor - first..] else []
  {
    if cursor <= first {
      FromAll(records, cursor);
    } else if records != [] {
      FromConsecutive(records[1..], first + 1, cursor);
      if cursor - first <= |records| {
        assert records[1..][cursor - first - 1..] == records[cursor - first..];
      }
    }
  }

  lemma RestIsStretch(s: Stream, all: seq<StreamRecord>, cursor: nat)
    requires Retains(s, all)
    ensures var start := Max(Position(cursor), Oldest(s)) - 1;
            From(s.records, cursor) == if start <= |all| then all[start..] else []
  {
    var first := Oldest(s);
    assert Consecutive(s.records, first);
    FromConsecutive(s.records, first, cursor);
    if first < cursor && cursor - first <= |s.records| {
      assert s.records[cursor - first..] == all[cursor - 1..];
    }
  }

  /** A page is the stretch of all records that starts at the cursor, or at the oldest retained record
      if that is later. */
  lemma PageIsStretch(s: Stream, all: seq<StreamRecord>, cursor: nat, limit: nat)
    requires Retains(s, all)
    ensures var start := Max(Position(cursor), Oldest(s)) - 1;
            var stop := Min(start + limit, |all|);
            var (page, next) := GetRecords(s, cursor, limit);
            if start < stop then page == all[start..stop] && next == stop + 1 else page == [] && next == cursor
  {
    hide From;
    RestIsStretch(s, all, cursor);
    var start := Max(Position(cursor), Oldest(s)) - 1;
    if start <= |all| {
      TakeOfRest(all, start, limit);
    }
  }

  lemma TakeOfRest(all: seq<StreamRecord>, start: nat, limit: nat)
    requires start <= |all|
    ensures Take(all[start..], limit) == all[start..Min(start + limit, |all|)]
  {
  }

  // ---------------------------------------------------------------------------
  // Where an iterator starts
  // ---------------------------------------------------------------------------

  /** The iterator types of `GetShardIterator`; the number may be missing from the request. */
  datatype IteratorType =
    | TrimHorizon
    | Latest
    | AtSequenceNumber(number: Option<string>)
    | AfterSequenceNumber(number: Option<string>)

  /** A requested sequence number, if it is there and can be read. */
  function Requested(number: Option<string>): Option<nat> {
    if number.None? then None else Parse(TrimZeros(number.value), U64_MAX)
  }

  /** Adding one wraps around at the end of 64 bits. */
  function StartOf(s: Stream, t: IteratorType): nat {
    match t
    case TrimHorizon => 0
    case Latest => s.sequence
    case AtSequenceNumber(number) => (match Requested(number) case Some(n) => n case None => 0)
    case AfterSequenceNumber(number) =>
      (match Requested(number) case Some(n) => if n < U64_MAX then n + 1 else 0 case None => 0)
  }

  /** At most `limit` records from number `first` on, or from the oldest one retained if that is later. */
  function Window(s: Stream, all: seq<StreamRecord>, first: nat, limit: nat): seq<StreamRecord> {
    var from := Max(Position(first), Oldest(s)) - 1;
    if from < |all| then all[from..Min(from + limit, |all|)] else []
  }

  lemma WindowOfZero(s: Stream, all: seq<StreamRecord>, limit: nat)
    ensures Window(s, all, 0, limit) == Window(s, all, 1, limit)
  {
  }

  lemma PageIsWindow(s: Stream, all: seq<StreamRecord>, cursor: nat, limit: nat)
    requires Retains(s, all)
    ensures GetRecords(s, cursor, limit).0 == Window(s, all, cursor, limit)
  {
    hide GetRecords;
    PageIsStretch(s, all, cursor, limit);
  }

  /** The first page read through a fresh iterator, for every type and every requested number: from the oldest
      record for TRIM_HORIZON and for a number that is missing or cannot be read, from record n for
      AT_SEQUENCE_NUMBER, from its successor for AFTER_SEQUENCE_NUMBER. */
  lemma FirstPage(s: Stream, all: seq<StreamRecord>, number: Option<string>, limit: nat)
    requires Retains(s, all)
    ensures GetRecords(s, StartOf(s, TrimHorizon), limit).0 == Window(s, all, 1, limit)
    ensures var at, after := GetRecords(s, StartOf(s, AtSequenceNumber(number)), limit).0,
                             GetRecords(s, StartOf(s, AfterSequenceNumber(number)), limit).0;
            match Requested(number)
            case Some(n) =>
              at == Window(s, all, n, limit) && after == Window(s, all, if n < U64_MAX then n + 1 else 1, limit)
            case None => at == after == Window(s, all, 1, limit)
  {
    hide GetRecords, Retains, Requested, Window;
    WindowOfZero(s, all, limit);
    PageIsWindow(s, all, StartOf(s, TrimHorizon), limit);
    PageIsWindow(s, all, StartOf(s, AtSequenceNumber(number)), limit);
    PageIsWindow(s, all, StartOf(s, AfterSequenceNumber(number)), limit);
  }

  /** The padded number of a record is read as what it is. */
  lemma RequestedRecord(k: nat)
    requires 1 <= k <= U64_MAX
    ensures Requested(Some(Pad20(k))) == Some(k)
  {
    hide Pad20, Parse, TrimZeros;
    ReadPadded(k, U64_MAX);
  }

  /** The iterator of type LATEST stands on the newest record, not behind it: the first page repeats that record exactly
      if there is one and the limit allows it. */
  lemma LatestRepeatsNewest(s: Stream, all: seq<StreamRecord>, limit: nat)
    requires Retains(s, all)
    ensures var (page, next) := GetRecords(s, StartOf(s, Latest), limit);
            && (page != [] <==> s.records != [] && limit >= 1)
            && (page != [] ==> page == [all[|all| - 1]] && next == s.sequence + 1)
  {
    hide GetRecords, Retains;
    RetainsNewest(s, all);
    PageIsStretch(s, all, s.sequence, limit);
    if all != [] {
      LastAlone(all);
    }
  }

  lemma RetainsNewest(s: Stream, all: seq<StreamRecord>)
    requires Retains(s, all)
    ensures |all| == s.sequence && (all == [] <==> s.records == []) && Oldest(s) <= Position(|all|)
  {
  }

  lemma LastAlone<T>(all: seq<T>)
    requires all != []
    ensures all[|all| - 1..|all|] == [all[|all| - 1]]
  {
  }
}
