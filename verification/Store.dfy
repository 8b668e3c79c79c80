/** One DynamoDB table as the item writers change it: primary items, item count and stream.
    Secondary indexes are not part of this model. */
module Store {
  import opened Base

  datatype AttributeValue =
    | S(s: string)
    | N(n: string)
    | B(b: string)
    | Bool(flag: bool)
    | Null
    | SS(strings: seq<string>)
    | NS(numbers: seq<string>)
    | BS(blobs: seq<string>)
    | L(list: seq<AttributeValue>)
    | M(fields: map<string, AttributeValue>)

  type Item = map<string, AttributeValue>

  type Key = (string, string)

  datatype StreamRecord = StreamRecord(sequence: nat, event: string, oldImage: Option<Item>, newImage: Option<Item>)

  const STREAM_CAPACITY: nat := 1000

  datatype Stream = Stream(enabled: bool, sequence: nat, records: seq<StreamRecord>)

  datatype Schema = Schema(hashKey: Option<string>, rangeKey: Option<string>)

  datatype Table = Table(schema: Schema, items: map<Key, Item>, itemCount: nat, stream: Stream)

  /** The owned key extraction, used by the writers. */
  function KeyText(v: AttributeValue): Option<string> {
    match v
    case S(s) => Some(s)
    case N(n) => Some(n)
    case B(b) => Some(b)
    case Bool(flag) => Some(if flag then "true" else "false")
    case _ => None
  }

  /** The borrowing key extraction, used by the readers: it knows no booleans. */
  function KeyTextRef(v: AttributeValue): Option<string> {
    if v.Bool? then None else KeyText(v)
  }

  function KeyBy(schema: Schema, item: Item, text: AttributeValue -> Option<string>): Option<Key> {
    if schema.hashKey.None? || schema.hashKey.value !in item then None
    else
      var h := text(item[schema.hashKey.value]);
      if h.None? then None
      else if schema.rangeKey.None? then Some((h.value, ""))
      else if schema.rangeKey.value !in item then None
      else
        var r := text(item[schema.rangeKey.value]);
        if r.None? then None else Some((h.value, r.value))
  }

  function ExtractKey(t: Table, item: Item): Option<Key> {
    KeyBy(t.schema, item, KeyText)
  }

  function GetItem(t: Table, key: Item): Option<Item> {
    var k := KeyBy(t.schema, key, KeyTextRef);
    if k.Some? && k.value in t.items then Some(t.items[k.value]) else None
  }

  function Append(s: Stream, event: string, before: Option<Item>, after: Option<Item>): Stream {
    if !s.enabled then s
    else
      var all := s.records + [StreamRecord(s.sequence + 1, event, before, after)];
      Stream(s.enabled, s.sequence + 1, if |all| > STREAM_CAPACITY then all[1..] else all)
  }

  function PutItem(t: Table, item: Item): (Table, Option<Item>) {
    match ExtractKey(t, item)
    case None => (t, None)
    case Some(k) =>
      var before := if k in t.items then Some(t.items[k]) else None;
      (Table(t.schema, t.items[k := item], t.itemCount + (if before.None? then 1 else 0),
             Append(t.stream, if before.Some? then "MODIFY" else "INSERT", before, Some(item))), before)
  }

  function DeleteItem(t: Table, key: Item): (Table, Option<Item>) {
    match ExtractKey(t, key)
    case None => (t, None)
    case Some(k) =>
      if k !in t.items then (t, None)
      else
        (Table(t.schema, t.items - {k}, if t.itemCount == 0 then 0 else t.itemCount - 1,
               Append(t.stream, "REMOVE", Some(t.items[k]), None)), Some(t.items[k]))
  }

  /** `UpdateItem` after its key check: read (or start from the key), edit, put back. */
  function UpdateItem(t: Table, key: Item, edit: Item -> Item): (Table, Option<Item>) {
    match ExtractKey(t, key)
    case None => (t, None)
    case Some(k) =>
      var before := if k in t.items then Some(t.items[k]) else None;
      (PutItem(t, edit(if before.Some? then before.value else key)).0, before)
  }

  // ---------------------------------------------------------------------------
  // What every writer keeps
  // ---------------------------------------------------------------------------

  /** The retained records are the last ones appended, numbered without a gap up to the counter. */
  ghost predicate Numbered(s: Stream) {
    && |s.records| <= STREAM_CAPACITY
    && |s.records| <= s.sequence
    && (|s.records| < STREAM_CAPACITY ==> |s.records| == s.sequence)
    && forall i :: 0 <= i < |s.records| ==> s.records[i].sequence == s.sequence - |s.records| + 1 + i
  }

  /** Items sit under their own key, the count is the number of items, and the stream is numbered. */
  ghost predicate Consistent(t: Table) {
    && t.itemCount == |t.items|
    && (forall k :: k in t.items ==> ExtractKey(t, t.items[k]) == Some(k))
    && Numbered(t.stream)
  }

  lemma AppendKeepsNumbering(s: Stream, event: string, before: Option<Item>, after: Option<Item>)
    requires Numbered(s)
    ensures Numbered(Append(s, event, before, after))
  {
  }

  lemma SizeOfInsert(m: map<Key, Item>, k: Key, item: Item)
    ensures |m[k := item]| == |m| + if k in m then 0 else 1
  {
    assert m[k := item].Keys == m.Keys + {k};
    assert |m| == |m.Keys| && |m[k := item]| == |m[k := item].Keys|;
  }

  lemma SizeOfRemove(m: map<Key, Item>, k: Key)
    requires k in m
    ensures |m - {k}| == |m| - 1
  {
    assert m.Keys == (m - {k}).Keys + {k};
    assert |m| == |m.Keys| && |m - {k}| == |(m - {k}).Keys|;
  }

  lemma PutKeepsConsistency(t: Table, item: Item)
    requires Consistent(t)
    ensures Consistent(PutItem(t, item).0)
  {
    hide KeyBy, Append, Numbered;
    var k := ExtractKey(t, item);
    if k.Some? {
      var before := if k.value in t.items then Some(t.items[k.value]) else None;
      SizeOfInsert(t.items, k.value, item);
      AppendKeepsNumbering(t.stream, if before.Some? then "MODIFY" else "INSERT", before, Some(item));
    }
  }

  lemma DeleteKeepsConsistency(t: Table, key: Item)
    requires Consistent(t)
    ensures Consistent(DeleteItem(t, key).0)
  {
    hide KeyBy, Append, Numbered;
    var k := ExtractKey(t, key);
    if k.Some? && k.value in t.items {
      SizeOfRemove(t.items, k.value);
      AppendKeepsNumbering(t.stream, "REMOVE", Some(t.items[k.value]), None);
    }
  }

  lemma WritersKeepConsistency(t: Table, item: Item, edit: Item -> Item)
    requires Consistent(t)
    ensures Consistent(PutItem(t, item).0)
    ensures Consistent(DeleteItem(t, item).0)
    ensures Consistent(UpdateItem(t, item, edit).0)
  {
    hide PutItem, DeleteItem, Consistent;
    PutKeepsConsistency(t, item);
    DeleteKeepsConsistency(t, item);
    var k := ExtractKey(t, item);
    if k.Some? {
      PutKeepsConsistency(t, edit(if k.value in t.items then t.items[k.value] else item));
    }
  }

  /** Readers and writers form the same key, except that readers form none from a boolean. */
  lemma ReaderKey(schema: Schema, item: Item)
    ensures KeyBy(schema, item, KeyTextRef).Some? ==> KeyBy(schema, item, KeyTextRef) == KeyBy(schema, item, KeyText)
  {
  }

  // ---------------------------------------------------------------------------
  // What a write leaves behind
  // ---------------------------------------------------------------------------

  /** The attribute spells this text in a key. */
  predicate Spells(item: Item, name: string, text: string) {
    name in item
    && (item[name] == S(text) || item[name] == N(text) || item[name] == B(text)
        || (item[name] == Bool(true) && text == "true") || (item[name] == Bool(false) && text == "false"))
  }

  /** Two items have one key exactly if their hash attributes spell the same text, and so do their range attributes
      where the table has one; a reader's key is the same but for booleans. */
  lemma KeyIsSpelled(schema: Schema, item: Item, h: string, r: string)
    ensures KeyBy(schema, item, KeyText) == Some((h, r)) <==>
            && schema.hashKey.Some? && Spells(item, schema.hashKey.value, h)
            && if schema.rangeKey.Some? then Spells(item, schema.rangeKey.value, r) else r == ""
    ensures KeyBy(schema, item, KeyTextRef) == Some((h, r)) <==>
            && KeyBy(schema, item, KeyText) == Some((h, r)) && !item[schema.hashKey.value].Bool?
            && (schema.rangeKey.Some? ==> !item[schema.rangeKey.value].Bool?)
  {
  }

  /** What stands under an item's key. */
  function Stored(t: Table, item: Item): Option<Item> {
    match ExtractKey(t, item)
    case None => None
    case Some(k) => if k in t.items then Some(t.items[k]) else None
  }

  lemma StoredUnder(t: Table, item: Item)
    ensures match ExtractKey(t, item)
            case None => Stored(t, item) == None
            case Some(k) =>
              && Stored(t, item) == (if k in t.items then Some(t.items[k]) else None)
              && (k !in t.items ==> t.items - {k} == t.items)
  {
  }

  /** An enabled stream gets the record under the next number, and a full one gives up its oldest. */
  ghost predicate Gains(s: Stream, after: Stream, r: StreamRecord) {
    if !s.enabled then after == s
    else
      && after.enabled && after.sequence == r.sequence == s.sequence + 1
      && after.records == (if |s.records| < STREAM_CAPACITY then s.records else s.records[1..]) + [r]
  }

  lemma AppendGains(s: Stream, event: string, before: Option<Item>, after: Option<Item>)
    ensures Gains(s, Append(s, event, before, after), StreamRecord(s.sequence + 1, event, before, after))
  {
    if |s.records| >= STREAM_CAPACITY {
      var r := StreamRecord(s.sequence + 1, event, before, after);
      assert (s.records + [r])[1..] == s.records[1..] + [r];
    }
  }

  /** A put replaces exactly what stood under the item's key and hands that back; the stream gets both images. */
  lemma PutEffect(t: Table, item: Item)
    ensures var (after, before) := PutItem(t, item);
            match ExtractKey(t, item)
            case None => after == t && before == None
            case Some(k) =>
              && before == Stored(t, item) && after.schema == t.schema && after.items == t.items[k := item]
              && Gains(t.stream, after.stream,
                       StreamRecord(t.stream.sequence + 1, if k in t.items then "MODIFY" else "INSERT", before,
                                    Some(item)))
  {
    hide KeyBy, Append, Gains;
    var before := Stored(t, item);
    AppendGains(t.stream, if before.Some? then "MODIFY" else "INSERT", before, Some(item));
  }

  /** A delete removes exactly what stood under the key and hands it back; only then does the stream get a record. */
  lemma DeleteEffect(t: Table, key: Item)
    ensures var (after, before) := DeleteItem(t, key);
            match Stored(t, key)
            case None => after == t && before == None
            case Some(held) =>
              && before == Some(held) && after.schema == t.schema && after.items == t.items - {ExtractKey(t, key).value}
              && Gains(t.stream, after.stream, StreamRecord(t.stream.sequence + 1, "REMOVE", Some(held), None))
  {
    hide KeyBy, Append, Gains;
    var before := Stored(t, key);
    AppendGains(t.stream, "REMOVE", before, None);
  }

  /** An update edits what stands under the key, or the key itself if nothing does, and puts the result under the key
      that it has then: under the same key, unless the edit changed that, and under none if it has none left. */
  lemma UpdateEffect(t: Table, key: Item, edit: Item -> Item)
    ensures var (after, before) := UpdateItem(t, key, edit);
            match ExtractKey(t, key)
            case None => after == t && before == None
            case Some(k) =>
              var edited := edit(if k in t.items then t.items[k] else key);
              && before == Stored(t, key)
              && (ExtractKey(t, edited) == Some(k) ==>
                    after.items == t.items[k := edited]
                    && Gains(t.stream, after.stream,
                             StreamRecord(t.stream.sequence + 1, if k in t.items then "MODIFY" else "INSERT", before,
                                          Some(edited))))
              && match ExtractKey(t, edited)
                 case None => after == t
                 case Some(j) => after.schema == t.schema && after.items == t.items[j := edited]
  {
    hide KeyBy, PutItem, Gains;
    var k := ExtractKey(t, key);
    if k.Some? {
      PutEffect(t, edit(if k.value in t.items then t.items[k.value] else key));
    }
  }

  /** An item is stored under its writer's key. Through any key that spells the same it is read back exactly if readers
      form that key, as they do not of a boolean; a deleted one is gone; and no other item changes. */
  lemma WriteThenGet(t: Table, item: Item, key: Item)
    ensures var k := ExtractKey(t, item);
            k.Some? ==> k.value in PutItem(t, item).0.items && PutItem(t, item).0.items[k.value] == item
    ensures if ExtractKey(t, key) == ExtractKey(t, item)
            then GetItem(PutItem(t, item).0, key) == Some(item) <==> KeyBy(t.schema, key, KeyTextRef).Some?
            else GetItem(PutItem(t, item).0, key) == GetItem(t, key)
    ensures GetItem(DeleteItem(t, item).0, key) ==
            if ExtractKey(t, key) == ExtractKey(t, item) then None else GetItem(t, key)
  {
    hide KeyBy, Append;
    ReaderKey(t.schema, item);
    ReaderKey(t.schema, key);
  }
}
