/** The item writers of DynamoDB: what each request locks, checks and writes. */
module ItemWriters {
  import opened Base
  import opened Text
  import opened Store

  datatype TableId = TableId(account: string, region: string, name: string)

  type Database = map<TableId, Table>

  /** The key of the per-table mutex pool. */
  function LockKey(t: TableId): string {
    t.account + "/" + t.region + "/" + t.name
  }

  // ---------------------------------------------------------------------------
  // Units of work: the stretch of a request between its first lock and its last unlock
  // ---------------------------------------------------------------------------

  datatype Op =
    | Exists(table: TableId, error: string)
    | Check(table: TableId, holds: Table -> bool, error: string)
    | Write(table: TableId, effect: Table -> (Table, Option<Item>))

  /** A unit ends with the images its writes replaced, or with an error code. */
  datatype Outcome = Done(replaced: seq<Option<Item>>) | Failed(error: string)

  datatype OpResult = Next(db: Database, replaced: seq<Option<Item>>) | Abort(error: string)

  function Perform(op: Op, db: Database, replaced: seq<Option<Item>>): OpResult {
    match op
    case Exists(t, e) => if t in db then Next(db, replaced) else Abort(e)
    case Check(t, holds, e) => if t in db && holds(db[t]) then Next(db, replaced) else Abort(e)
    case Write(t, effect) =>
      if t !in db then Next(db, replaced)
      else var (after, before) := effect(db[t]); Next(db[t := after], replaced + [before])
  }

  function Run(ops: seq<Op>, db: Database, replaced: seq<Option<Item>>): (Database, Outcome) {
    if ops == [] then (db, Done(replaced))
    else match Perform(ops[0], db, replaced)
      case Abort(e) => (db, Failed(e))
      case Next(db', replaced') => Run(ops[1..], db', replaced')
  }

  datatype Unit = Unit(locks: seq<string>, ops: seq<Op>)

  /** Locks are taken in strictly ascending order and cover every table the unit touches. */
  ghost predicate WellFormed(u: Unit) {
    StrictlySorted(u.locks) && Covered(u.ops, u.locks)
  }

  ghost predicate Covered(ops: seq<Op>, locks: seq<string>) {
    forall op :: op in ops ==> LockKey(op.table) in locks
  }

  // ---------------------------------------------------------------------------
  // Requests
  // ---------------------------------------------------------------------------

  type Condition = Option<Option<Item> -> bool>

  /** One `Put`, `Delete`, `Update` or `ConditionCheck` of a transaction; `key` is the item of a `Put`. */
  datatype Part = Part(table: string, key: Item, condition: Condition, edit: Item -> Item)

  datatype TransactItem = TransactItem(put: Option<Part>, delete: Option<Part>, update: Option<Part>,
                                       check: Option<Part>)

  datatype BatchEntry = BatchPut(item: Item) | BatchDelete(key: Item)

  datatype Request =
    | PutRequest(part: Part)
    | DeleteRequest(part: Part)
    | UpdateRequest(part: Part)
    | BatchRequest(tables: seq<(string, seq<BatchEntry>)>)
    | TransactRequest(items: seq<TransactItem>)

  datatype Context = Context(account: string, region: string) {
    function Id(name: string): TableId {
      TableId(account, region, name)
    }

    function Key(name: string): string {
      LockKey(Id(name))
    }
  }

  const NOT_FOUND := "ResourceNotFoundException"
  const CONDITION_FAILED := "ConditionalCheckFailedException"
  const VALIDATION := "ValidationException"
  const CANCELED := "TransactionCanceledException"

  function Guard(ctx: Context, p: Part, error: string): seq<Op> {
    if p.condition.None? then []
    else [Check(ctx.Id(p.table), (t: Table) => p.condition.value(GetItem(t, p.key)), error)]
  }

  function PutOp(ctx: Context, p: Part): Op {
    Write(ctx.Id(p.table), (t: Table) => PutItem(t, p.key))
  }

  function DeleteOp(ctx: Context, p: Part): Op {
    Write(ctx.Id(p.table), (t: Table) => DeleteItem(t, p.key))
  }

  function UpdateOp(ctx: Context, p: Part): Op {
    Write(ctx.Id(p.table), (t: Table) => UpdateItem(t, p.key, p.edit))
  }

  function HasKey(ctx: Context, p: Part): Op {
    Check(ctx.Id(p.table), (t: Table) => ExtractKey(t, p.key).Some?, VALIDATION)
  }

  function BatchOp(ctx: Context, table: string, entry: BatchEntry): Op {
    Write(ctx.Id(table), (t: Table) => match entry
      case BatchPut(item) => PutItem(t, item)
      case BatchDelete(key) => DeleteItem(t, key))
  }

  function BatchOps(ctx: Context, table: string, entries: seq<BatchEntry>): seq<Op> {
    seq(|entries|, i requires 0 <= i < |entries| => BatchOp(ctx, table, entries[i]))
  }

  /** The parts of a transaction item in the order the source probes them. */
  function PartsOf(item: TransactItem): seq<Part> {
    OptionToSeq(item.put) + OptionToSeq(item.delete) + OptionToSeq(item.update) + OptionToSeq(item.check)
  }

  function OptionToSeq(p: Option<Part>): seq<Part> {
    if p.Some? then [p.value] else []
  }

  function AllParts(items: seq<TransactItem>): seq<Part> {
    if items == [] then [] else PartsOf(items[0]) + AllParts(items[1..])
  }

  function ExistsOps(ctx: Context, parts: seq<Part>): seq<Op> {
    if parts == [] then [] else [Exists(ctx.Id(parts[0].table), CANCELED)] + ExistsOps(ctx, parts[1..])
  }

  function GuardOps(ctx: Context, parts: seq<Part>): seq<Op> {
    if parts == [] then [] else Guard(ctx, parts[0], CANCELED) + GuardOps(ctx, parts[1..])
  }

  function ItemWrite(ctx: Context, item: TransactItem): seq<Op> {
    if item.put.Some? then [PutOp(ctx, item.put.value)]
    else if item.delete.Some? then [DeleteOp(ctx, item.delete.value)]
    else if item.update.Some? then [UpdateOp(ctx, item.update.value)]
    else []
  }

  function WriteOps(ctx: Context, items: seq<TransactItem>): seq<Op> {
    if items == [] then [] else ItemWrite(ctx, items[0]) + WriteOps(ctx, items[1..])
  }

  /** Insertion into a sorted list without duplicates: the hash set and the sort in one. */
  function Insert(name: string, names: seq<string>): seq<string> {
    if names == [] || Less(name, names[0]) then [name] + names
    else if name == names[0] then names
    else [names[0]] + Insert(name, names[1..])
  }

  function TableNames(parts: seq<Part>): seq<string> {
    if parts == [] then [] else Insert(parts[0].table, TableNames(parts[1..]))
  }

  function TransactUnit(ctx: Context, items: seq<TransactItem>): Unit {
    var parts := AllParts(items);
    var names := TableNames(parts);
    Unit(seq(|names|, i requires 0 <= i < |names| => ctx.Key(names[i])),
         ExistsOps(ctx, parts) + GuardOps(ctx, parts) + WriteOps(ctx, items))
  }

  function SingleUnit(ctx: Context, table: string, ops: seq<Op>): Unit {
    Unit([ctx.Key(table)], [Exists(ctx.Id(table), NOT_FOUND)] + ops)
  }

  /** A request as the units it performs one after the other; only a batch has more than one. */
  function UnitsOf(ctx: Context, request: Request): seq<Unit> {
    match request
    case PutRequest(p) => [SingleUnit(ctx, p.table, Guard(ctx, p, CONDITION_FAILED) + [PutOp(ctx, p)])]
    case DeleteRequest(p) => [SingleUnit(ctx, p.table, Guard(ctx, p, CONDITION_FAILED) + [DeleteOp(ctx, p)])]
    case UpdateRequest(p) =>
      [SingleUnit(ctx, p.table, Guard(ctx, p, CONDITION_FAILED) + [HasKey(ctx, p), UpdateOp(ctx, p)])]
    case BatchRequest(tables) =>
      seq(|tables|, i requires 0 <= i < |tables| =>
        SingleUnit(ctx, tables[i].0, BatchOps(ctx, tables[i].0, tables[i].1)))
    case TransactRequest(items) => [TransactUnit(ctx, items)]
  }

  // ---------------------------------------------------------------------------
  // Every unit is well formed
  // ---------------------------------------------------------------------------

  lemma {:induction false} InsertSorted(name: string, names: seq<string>)
    requires StrictlySorted(names)
    ensures StrictlySorted(Insert(name, names))
    ensures forall n :: n in Insert(name, names) <==> n == name || n in names
  {
    if names == [] {
    } else if Less(name, names[0]) {
      forall j | 0 <= j < |names| ensures Less(name, names[j]) {
        if j > 0 { LessTransitive(name, names[0], names[j]); }
      }
    } else if name != names[0] {
      LessTotal(name, names[0]);
      InsertSorted(name, names[1..]);
      assert names == [names[0]] + names[1..];
      forall n | n in Insert(name, names[1..]) ensures Less(names[0], n) {
        if n != name {
          var j :| 0 <= j < |names[1..]| && names[1..][j] == n;
          assert names[j + 1] == n;
        }
      }
    }
  }

  lemma {:induction false} TableNamesSorted(parts: seq<Part>)
    ensures StrictlySorted(TableNames(parts))
    ensures forall n :: n in TableNames(parts) <==> exists p :: p in parts && p.table == n
  {
    if parts == [] {
    } else {
      assert parts == [parts[0]] + parts[1..];
      TableNamesSorted(parts[1..]);
      InsertSorted(parts[0].table, TableNames(parts[1..]));
    }
  }

  ghost predicate Names(ctx: Context, ops: seq<Op>, parts: seq<Part>) {
    forall op :: op in ops ==> exists p :: p in parts && op.table == ctx.Id(p.table)
  }

  lemma {:induction false} GuardsName(ctx: Context, parts: seq<Part>)
    ensures Names(ctx, ExistsOps(ctx, parts), parts)
    ensures Names(ctx, GuardOps(ctx, parts), parts)
  {
    if parts == [] {
    } else {
      assert parts == [parts[0]] + parts[1..];
      GuardsName(ctx, parts[1..]);
    }
  }

  lemma {:induction false} WritesName(ctx: Context, items: seq<TransactItem>)
    ensures Names(ctx, WriteOps(ctx, items), AllParts(items))
  {
    if items == [] {
    } else {
      WritesName(ctx, items[1..]);
      assert Names(ctx, ItemWrite(ctx, items[0]), PartsOf(items[0]));
    }
  }

  lemma LocksAscend(ctx: Context, names: seq<string>, locks: seq<string>)
    requires StrictlySorted(names)
    requires |locks| == |names| && forall i :: 0 <= i < |names| ==> locks[i] == ctx.Key(names[i])
    ensures StrictlySorted(locks)
  {
    var prefix := ctx.account + "/" + ctx.region + "/";
    forall i, j | 0 <= i < j < |locks| ensures Less(locks[i], locks[j]) {
      LessUnderPrefix(prefix, names[i], names[j]);
      assert locks[i] == prefix + names[i] && locks[j] == prefix + names[j];
    }
  }

  lemma TransactUnitWellFormed(ctx: Context, items: seq<TransactItem>)
    ensures WellFormed(TransactUnit(ctx, items))
  {
    var u, parts := TransactUnit(ctx, items), AllParts(items);
    TableNamesSorted(parts);
    LocksAscend(ctx, TableNames(parts), u.locks);
    GuardsName(ctx, parts);
    WritesName(ctx, items);
    forall op | op in u.ops ensures LockKey(op.table) in u.locks {
      OpLocked(ctx, parts, u.locks, op);
    }
  }

  lemma OpLocked(ctx: Context, parts: seq<Part>, locks: seq<string>, op: Op)
    requires exists p :: p in parts && op.table == ctx.Id(p.table)
    requires |locks| == |TableNames(parts)|
    requires forall i :: 0 <= i < |locks| ==> locks[i] == ctx.Key(TableNames(parts)[i])
    ensures LockKey(op.table) in locks
  {
    var p :| p in parts && op.table == ctx.Id(p.table);
    TableNamesSorted(parts);
    assert p.table in TableNames(parts);
    var i :| 0 <= i < |locks| && TableNames(parts)[i] == p.table;
    assert locks[i] == ctx.Key(p.table);
  }

  /** Whatever the request, its locks are duplicate-free, ascending and cover all it touches. */
  lemma UnitsWellFormed(ctx: Context, request: Request, u: Unit)
    requires u in UnitsOf(ctx, request)
    ensures WellFormed(u)
  {
    if request.TransactRequest? {
      TransactUnitWellFormed(ctx, request.items);
    }
  }

  // ---------------------------------------------------------------------------
  // All or nothing
  // ---------------------------------------------------------------------------

  predicate PartHolds(ctx: Context, db: Database, p: Part) {
    && ctx.Id(p.table) in db
    && (p.condition.Some? ==> p.condition.value(GetItem(db[ctx.Id(p.table)], p.key)))
  }

  /** The state a transaction item leaves, given that its tables exist. */
  function ApplyItem(ctx: Context, db: Database, item: TransactItem): Database {
    if item.put.Some? then Change(db, ctx.Id(item.put.value.table), t => PutItem(t, item.put.value.key).0)
    else if item.delete.Some? then
      Change(db, ctx.Id(item.delete.value.table), t => DeleteItem(t, item.delete.value.key).0)
    else if item.update.Some? then
      Change(db, ctx.Id(item.update.value.table), t => UpdateItem(t, item.update.value.key, item.update.value.edit).0)
    else db
  }

  function Change(db: Database, t: TableId, f: Table -> Table): Database {
    if t in db then db[t := f(db[t])] else db
  }

  function ApplyItems(ctx: Context, db: Database, items: seq<TransactItem>): Database
    decreases |items|
  {
    if items == [] then db else ApplyItem(ctx, ApplyItems(ctx, db, items[..|items| - 1]), items[|items| - 1])
  }

  lemma {:induction false} RunExists(ctx: Context, parts: seq<Part>, rest: seq<Op>, db: Database)
    ensures Run(ExistsOps(ctx, parts) + rest, db, []) ==
            if forall p :: p in parts ==> ctx.Id(p.table) in db then Run(rest, db, []) else (db, Failed(CANCELED))
  {
    var ops := ExistsOps(ctx, parts) + rest;
    if parts == [] {
      assert ops == rest;
    } else {
      assert parts == [parts[0]] + parts[1..];
      assert ops[1..] == ExistsOps(ctx, parts[1..]) + rest;
      RunExists(ctx, parts[1..], rest, db);
    }
  }

  lemma {:induction false} RunGuards(ctx: Context, parts: seq<Part>, rest: seq<Op>, db: Database)
    requires forall p :: p in parts ==> ctx.Id(p.table) in db
    ensures Run(GuardOps(ctx, parts) + rest, db, []) ==
            if forall p :: p in parts ==> PartHolds(ctx, db, p) then Run(rest, db, []) else (db, Failed(CANCELED))
  {
    hide GetItem;
    var ops := GuardOps(ctx, parts) + rest;
    if parts == [] {
      assert ops == rest;
    } else {
      assert parts == [parts[0]] + parts[1..];
      RunGuards(ctx, parts[1..], rest, db);
      if parts[0].condition.None? {
        assert ops == GuardOps(ctx, parts[1..]) + rest;
      } else {
        assert ops[0] == Guard(ctx, parts[0], CANCELED)[0];
        assert ops[1..] == GuardOps(ctx, parts[1..]) + rest;
        assert Perform(ops[0], db, []) == if PartHolds(ctx, db, parts[0]) then Next(db, []) else Abort(CANCELED);
      }
    }
  }

  lemma {:induction false} ApplyItemsFromFront(ctx: Context, db: Database, items: seq<TransactItem>)
    requires items != []
    ensures ApplyItems(ctx, db, items) == ApplyItems(ctx, ApplyItem(ctx, db, items[0]), items[1..])
    decreases |items|
  {
    hide ApplyItem;
    var n := |items| - 1;
    if n > 0 {
      ApplyItemsFromFront(ctx, db, items[..n]);
      assert items[..n][1..] == items[1..][..n - 1];
    } else {
      assert items[..0] == [] && items[1..] == [];
    }
  }

  lemma ItemWriteApplies(ctx: Context, item: TransactItem, db: Database, replaced: seq<Option<Item>>)
    requires ItemWrite(ctx, item) != []
    ensures var r := Perform(ItemWrite(ctx, item)[0], db, replaced); r.Next? && r.db == ApplyItem(ctx, db, item)
  {
    hide PutItem, DeleteItem, UpdateItem;
  }

  lemma {:induction false} RunWrites(ctx: Context, items: seq<TransactItem>, db: Database, replaced: seq<Option<Item>>)
    ensures Run(WriteOps(ctx, items), db, replaced).0 == ApplyItems(ctx, db, items)
    ensures Run(WriteOps(ctx, items), db, replaced).1.Done?
  {
    if items == [] {
    } else {
      ApplyItemsFromFront(ctx, db, items);
      var ops, rest := WriteOps(ctx, items), WriteOps(ctx, items[1..]);
      var first := ItemWrite(ctx, items[0]);
      if first == [] {
        assert ops == rest;
        RunWrites(ctx, items[1..], db, replaced);
      } else {
        ItemWriteApplies(ctx, items[0], db, replaced);
        var r := Perform(first[0], db, replaced);
        assert ops == [first[0]] + rest;
        RunStep(first[0], rest, db, replaced);
        RunWrites(ctx, items[1..], r.db, r.replaced);
      }
    }
  }

  lemma RunStep(op: Op, rest: seq<Op>, db: Database, replaced: seq<Option<Item>>)
    requires Perform(op, db, replaced).Next?
    ensures var r := Perform(op, db, replaced); Run([op] + rest, db, replaced) == Run(rest, r.db, r.replaced)
  {
    assert ([op] + rest)[1..] == rest;
  }

  /** `TransactWriteItems` fails exactly when some part's table is missing or its condition is
      false in the state before the first write, and then nothing changes; otherwise the result
      is the left fold of the writes in request order. */
  lemma AllOrNothing(ctx: Context, items: seq<TransactItem>, db: Database)
    ensures var (after, outcome) := Run(TransactUnit(ctx, items).ops, db, []);
            if forall p :: p in AllParts(items) ==> PartHolds(ctx, db, p)
            then outcome.Done? && after == ApplyItems(ctx, db, items)
            else outcome == Failed(CANCELED) && after == db
  {
    hide Run, ExistsOps, GuardOps, WriteOps, GetItem, ApplyItems, AllParts;
    var parts, writes := AllParts(items), WriteOps(ctx, items);
    assert TransactUnit(ctx, items).ops == ExistsOps(ctx, parts) + (GuardOps(ctx, parts) + writes);
    RunExists(ctx, parts, GuardOps(ctx, parts) + writes, db);
    if forall p :: p in parts ==> ctx.Id(p.table) in db {
      RunGuards(ctx, parts, writes, db);
      RunWrites(ctx, items, db, []);
    }
  }

  // ---------------------------------------------------------------------------
  // A batch: one unit a table, not all or nothing
  // ---------------------------------------------------------------------------

  /** Units one after the other, up to the first that fails. */
  function RunUnits(units: seq<Unit>, db: Database): (Database, Outcome) {
    if units == [] then (db, Done([]))
    else
      var (after, outcome) := Run(units[0].ops, db, []);
      if outcome.Failed? then (after, outcome) else RunUnits(units[1..], after)
  }

  type Batch = seq<(string, seq<BatchEntry>)>

  function EntryEffect(t: Table, entry: BatchEntry): Table {
    match entry
    case BatchPut(item) => PutItem(t, item).0
    case BatchDelete(key) => DeleteItem(t, key).0
  }

  function BatchEffect(t: Table, entries: seq<BatchEntry>): Table
    decreases |entries|
  {
    if entries == [] then t else BatchEffect(EntryEffect(t, entries[0]), entries[1..])
  }

  /** The tables named before the first missing one are written, each with all its entries in order. */
  function ApplyBatch(ctx: Context, db: Database, batch: Batch): Database {
    if batch == [] || ctx.Id(batch[0].0) !in db then db
    else
      var id := ctx.Id(batch[0].0);
      ApplyBatch(ctx, db[id := BatchEffect(db[id], batch[0].1)], batch[1..])
  }

  lemma {:induction false} RunBatchOps(ctx: Context, table: string, entries: seq<BatchEntry>, db: Database,
                                       replaced: seq<Option<Item>>)
    requires ctx.Id(table) in db
    ensures var (after, outcome) := Run(BatchOps(ctx, table, entries), db, replaced);
            outcome.Done? && after == db[ctx.Id(table) := BatchEffect(db[ctx.Id(table)], entries)]
  {
    var id := ctx.Id(table);
    if entries == [] {
      assert db == db[id := db[id]];
    } else {
      var ops := BatchOps(ctx, table, entries);
      var r := Perform(ops[0], db, replaced);
      EntryApplies(ctx, table, entries[0], db, replaced);
      assert ops[1..] == BatchOps(ctx, table, entries[1..]);
      RunBatchOps(ctx, table, entries[1..], r.db, r.replaced);
      var after := BatchEffect(db[id], entries);
      assert r.db[id := after] == db[id := after];
    }
  }

  lemma EntryApplies(ctx: Context, table: string, entry: BatchEntry, db: Database, replaced: seq<Option<Item>>)
    requires ctx.Id(table) in db
    ensures var r := Perform(BatchOp(ctx, table, entry), db, replaced);
            r.Next? && r.db == db[ctx.Id(table) := EntryEffect(db[ctx.Id(table)], entry)]
  {
    hide PutItem, DeleteItem;
  }

  /** `BatchWriteItem` stops at the first table that does not exist and keeps what it wrote before. */
  lemma {:induction false} BatchKeepsPrefix(ctx: Context, batch: Batch, db: Database)
    ensures var (after, outcome) := RunUnits(UnitsOf(ctx, BatchRequest(batch)), db);
            after == ApplyBatch(ctx, db, batch)
            && outcome == if forall b :: b in batch ==> ctx.Id(b.0) in db then Done([]) else Failed(NOT_FOUND)
    decreases |batch|
  {
    hide Run, BatchOps, BatchEffect;
    var units := UnitsOf(ctx, BatchRequest(batch));
    if batch == [] {
    } else {
      assert batch[0] in batch && (forall b :: b in batch <==> b == batch[0] || b in batch[1..]);
      assert units[1..] == UnitsOf(ctx, BatchRequest(batch[1..]));
      RunBatchUnit(ctx, batch[0].0, batch[0].1, db);
      var id := ctx.Id(batch[0].0);
      if id in db {
        var next := db[id := BatchEffect(db[id], batch[0].1)];
        assert next.Keys == db.Keys;
        BatchKeepsPrefix(ctx, batch[1..], next);
      }
    }
  }

  lemma RunBatchUnit(ctx: Context, table: string, entries: seq<BatchEntry>, db: Database)
    ensures var (after, outcome) := Run(SingleUnit(ctx, table, BatchOps(ctx, table, entries)).ops, db, []);
            var id := ctx.Id(table);
            if id in db then outcome.Done? && after == db[id := BatchEffect(db[id], entries)]
            else outcome == Failed(NOT_FOUND) && after == db
  {
    hide BatchOps, BatchEffect;
    var rest := BatchOps(ctx, table, entries);
    assert ([Exists(ctx.Id(table), NOT_FOUND)] + rest)[1..] == rest;
    if ctx.Id(table) in db {
      RunBatchOps(ctx, table, entries, db, []);
    }
  }

  // ---------------------------------------------------------------------------
  // What each request does to its table
  // ---------------------------------------------------------------------------

  lemma RunGuarded(ctx: Context, p: Part, rest: seq<Op>, db: Database)
    ensures Run(SingleUnit(ctx, p.table, Guard(ctx, p, CONDITION_FAILED) + rest).ops, db, []) ==
            if ctx.Id(p.table) !in db then (db, Failed(NOT_FOUND))
            else if !PartHolds(ctx, db, p) then (db, Failed(CONDITION_FAILED))
            else Run(rest, db, [])
  {
    var guard := Guard(ctx, p, CONDITION_FAILED);
    var ops := SingleUnit(ctx, p.table, guard + rest).ops;
    assert ops[1..] == guard + rest;
    if p.condition.None? {
      assert guard + rest == rest;
    } else {
      assert (guard + rest)[0] == guard[0] && (guard + rest)[1..] == rest;
    }
  }

  lemma RunLast(op: Op, db: Database, replaced: seq<Option<Item>>)
    requires Perform(op, db, replaced).Next?
    ensures var r := Perform(op, db, replaced); Run([op], db, replaced) == (r.db, Done(r.replaced))
  {
  }

  /** Why a request for one item is refused: no such table, a false condition, or, for an update, no key. */
  function RefusalOf(ctx: Context, p: Part, db: Database, keyed: bool): Option<string> {
    if ctx.Id(p.table) !in db then Some(NOT_FOUND)
    else if p.condition.Some? && !p.condition.value(GetItem(db[ctx.Id(p.table)], p.key)) then Some(CONDITION_FAILED)
    else if keyed && ExtractKey(db[ctx.Id(p.table)], p.key).None? then Some(VALIDATION)
    else None
  }

  /** At most this table is another one, and its schema is what it was. */
  ghost predicate OnlyWrites(db: Database, after: Database, id: TableId) {
    id in db && id in after && after == db[id := after[id]] && after[id].schema == db[id].schema
  }

  /** PutItem: refused, or the item replaces what stood under its key, which is the answer. */
  lemma PutRequestEffect(ctx: Context, p: Part, db: Database)
    ensures var (after, outcome) := Run(UnitsOf(ctx, PutRequest(p))[0].ops, db, []);
            match RefusalOf(ctx, p, db, false)
            case Some(e) => after == db && outcome == Failed(e)
            case None =>
              var id := ctx.Id(p.table);
              && OnlyWrites(db, after, id) && outcome == Done([Stored(db[id], p.key)])
              && match ExtractKey(db[id], p.key)
                 case None => after == db
                 case Some(k) => after[id].items == db[id].items[k := p.key]
  {
    hide GetItem, ExtractKey, PutItem, Stored, Run;
    RunGuarded(ctx, p, [PutOp(ctx, p)], db);
    if RefusalOf(ctx, p, db, false).None? {
      RunLast(PutOp(ctx, p), db, []);
      PutEffect(db[ctx.Id(p.table)], p.key);
      StoredUnder(db[ctx.Id(p.table)], p.key);
    }
  }

  /** DeleteItem: refused, or exactly what stood under the key is gone, and is the answer. */
  lemma DeleteRequestEffect(ctx: Context, p: Part, db: Database)
    ensures var (after, outcome) := Run(UnitsOf(ctx, DeleteRequest(p))[0].ops, db, []);
            match RefusalOf(ctx, p, db, false)
            case Some(e) => after == db && outcome == Failed(e)
            case None =>
              var id := ctx.Id(p.table);
              && OnlyWrites(db, after, id) && outcome == Done([Stored(db[id], p.key)])
              && match ExtractKey(db[id], p.key)
                 case None => after == db
                 case Some(k) => after[id].items == db[id].items - {k}
  {
    hide GetItem, ExtractKey, DeleteItem, Stored, Run;
    RunGuarded(ctx, p, [DeleteOp(ctx, p)], db);
    if RefusalOf(ctx, p, db, false).None? {
      RunLast(DeleteOp(ctx, p), db, []);
      DeleteEffect(db[ctx.Id(p.table)], p.key);
      StoredUnder(db[ctx.Id(p.table)], p.key);
    }
  }

  /** UpdateItem: refused, or the edit is applied to what stood under the key, or to the key itself if nothing did; the
      answer is what stood there. */
  lemma UpdateRequestEffect(ctx: Context, p: Part, db: Database)
    ensures var (after, outcome) := Run(UnitsOf(ctx, UpdateRequest(p))[0].ops, db, []);
            match RefusalOf(ctx, p, db, true)
            case Some(e) => after == db && outcome == Failed(e)
            case None =>
              var id, k := ctx.Id(p.table), ExtractKey(db[ctx.Id(p.table)], p.key).value;
              var edited := p.edit(if k in db[id].items then db[id].items[k] else p.key);
              && OnlyWrites(db, after, id) && outcome == Done([Stored(db[id], p.key)])
              && (ExtractKey(db[id], edited) == Some(k) ==> after[id].items == db[id].items[k := edited])
              && match ExtractKey(db[id], edited)
                 case None => after == db
                 case Some(j) => after[id].items == db[id].items[j := edited]
  {
    hide GetItem, ExtractKey, UpdateItem, Stored, Run;
    RunGuarded(ctx, p, [HasKey(ctx, p), UpdateOp(ctx, p)], db);
    var refusal := RefusalOf(ctx, p, db, true);
    if ctx.Id(p.table) in db && PartHolds(ctx, db, p) {
      RunTwo(HasKey(ctx, p), UpdateOp(ctx, p), db);
      if refusal.None? {
        UpdateEffect(db[ctx.Id(p.table)], p.key, p.edit);
        StoredUnder(db[ctx.Id(p.table)], p.key);
      }
    }
  }

  lemma RunTwo(check: Op, write: Op, db: Database)
    requires check.Check? && write.Write? && check.table in db && write.table in db
    ensures Run([check, write], db, []) ==
            if !check.holds(db[check.table]) then (db, Failed(check.error))
            else
              var (after, before) := write.effect(db[write.table]);
              (db[write.table := after], Done([before]))
  {
    assert [check, write] == [check] + [write];
    if check.holds(db[check.table]) {
      RunStep(check, [write], db, []);
      RunLast(write, db, []);
      assert [] + [write.effect(db[write.table]).1] == [write.effect(db[write.table]).1];
    }
  }

  // ---------------------------------------------------------------------------
  // Many writes to one item: the last one decides
  // ---------------------------------------------------------------------------

  /** The item under a key of a table. */
  function At(db: Database, id: TableId, k: Key): Option<Item> {
    if id in db && k in db[id].items then Some(db[id].items[k]) else None
  }

  /** The transaction item writes to this key of this table, and leaves this there. */
  ghost predicate Leaves(ctx: Context, db: Database, item: TransactItem, id: TableId, k: Key, r: Option<Item>)
    requires id in db
  {
    if item.put.Some? then
      var p := item.put.value;
      ctx.Id(p.table) == id && ExtractKey(db[id], p.key) == Some(k) && r == Some(p.key)
    else if item.delete.Some? then
      var p := item.delete.value;
      ctx.Id(p.table) == id && ExtractKey(db[id], p.key) == Some(k) && r == None
    else
      item.update.Some? &&
      var p := item.update.value;
      && ctx.Id(p.table) == id && ExtractKey(db[id], p.key) == Some(k)
      && r == Some(p.edit(match At(db, id, k) case Some(x) => x case None => p.key))
      && ExtractKey(db[id], r.value) == Some(k)
  }

  /** It writes to another table or key, or, as a mere check, not at all. */
  ghost predicate WritesElsewhere(ctx: Context, schema: Schema, item: TransactItem, id: TableId, k: Key) {
    if item.put.Some? then
      var p := item.put.value;
      ctx.Id(p.table) != id || KeyBy(schema, p.key, KeyText) != Some(k)
    else if item.delete.Some? then
      var p := item.delete.value;
      ctx.Id(p.table) != id || KeyBy(schema, p.key, KeyText) != Some(k)
    else if item.update.Some? then
      var p := item.update.value;
      ctx.Id(p.table) != id || forall x: Item :: KeyBy(schema, p.edit(x), KeyText) != Some(k)
    else true
  }

  lemma WriteIsLeft(ctx: Context, db: Database, item: TransactItem, id: TableId, k: Key, r: Option<Item>)
    requires id in db && Leaves(ctx, db, item, id, k, r)
    ensures At(ApplyItem(ctx, db, item), id, k) == r
  {
    hide KeyBy, PutItem, DeleteItem, UpdateItem, Gains;
    var t := db[id];
    if item.put.Some? {
      PutEffect(t, item.put.value.key);
    } else if item.delete.Some? {
      DeleteEffect(t, item.delete.value.key);
    } else {
      UpdateEffect(t, item.update.value.key, item.update.value.edit);
    }
  }

  lemma ElsewhereKeeps(ctx: Context, db: Database, item: TransactItem, id: TableId, k: Key)
    requires id in db && WritesElsewhere(ctx, db[id].schema, item, id, k)
    ensures var after := ApplyItem(ctx, db, item);
            id in after && after[id].schema == db[id].schema && At(after, id, k) == At(db, id, k)
  {
    hide KeyBy, PutItem, DeleteItem, UpdateItem, Gains;
    var t := db[id];
    if item.put.Some? {
      PutEffect(t, item.put.value.key);
    } else if item.delete.Some? {
      DeleteEffect(t, item.delete.value.key);
    } else if item.update.Some? {
      UpdateEffect(t, item.update.value.key, item.update.value.edit);
    }
  }

  lemma ItemKeepsSchema(ctx: Context, db: Database, item: TransactItem, id: TableId)
    requires id in db
    ensures id in ApplyItem(ctx, db, item) && ApplyItem(ctx, db, item)[id].schema == db[id].schema
  {
    hide KeyBy, Append;
  }

  lemma {:induction false} ItemsKeepSchema(ctx: Context, db: Database, items: seq<TransactItem>, id: TableId)
    requires id in db
    ensures id in ApplyItems(ctx, db, items) && ApplyItems(ctx, db, items)[id].schema == db[id].schema
    decreases |items|
  {
    hide ApplyItem;
    if items == [] {
    } else {
      ItemsKeepSchema(ctx, db, items[..|items| - 1], id);
      ItemKeepsSchema(ctx, ApplyItems(ctx, db, items[..|items| - 1]), items[|items| - 1], id);
    }
  }

  lemma {:induction false} AllElsewhere(ctx: Context, db: Database, items: seq<TransactItem>, i: nat,
                                        id: TableId, k: Key)
    requires i <= |items| && id in db
    requires forall j :: i <= j < |items| ==> WritesElsewhere(ctx, db[id].schema, items[j], id, k)
    ensures At(ApplyItems(ctx, db, items), id, k) == At(ApplyItems(ctx, db, items[..i]), id, k)
    decreases |items|
  {
    hide ApplyItem, WritesElsewhere, At;
    if i == |items| {
      assert items[..i] == items;
    } else {
      var n := |items| - 1;
      AllElsewhere(ctx, db, items[..n], i, id, k);
      assert items[..n][..i] == items[..i];
      ItemsKeepSchema(ctx, db, items[..n], id);
      ElsewhereKeeps(ctx, ApplyItems(ctx, db, items[..n]), items[n], id, k);
    }
  }

  /** A transaction that goes through leaves under each key what its last write to that key put there, in the state that
      the writes before it made; where it writes nothing, everything stays. */
  lemma LastWriteDecides(ctx: Context, db: Database, items: seq<TransactItem>, id: TableId, k: Key)
    requires id in db && forall p :: p in AllParts(items) ==> PartHolds(ctx, db, p)
    ensures var after := Run(TransactUnit(ctx, items).ops, db, []).0;
            && (forall i, r :: 0 <= i < |items|
                 && id in ApplyItems(ctx, db, items[..i])
                 && Leaves(ctx, ApplyItems(ctx, db, items[..i]), items[i], id, k, r)
                 && (forall j :: i < j < |items| ==> WritesElsewhere(ctx, db[id].schema, items[j], id, k))
                 ==> At(after, id, k) == r)
            && ((forall item :: item in items ==> WritesElsewhere(ctx, db[id].schema, item, id, k)) ==>
                  At(after, id, k) == At(db, id, k))
  {
    hide Run, ApplyItem, Leaves, WritesElsewhere, AllParts, PartHolds, At;
    AllOrNothing(ctx, items, db);
    forall i, r | 0 <= i < |items|
      && id in ApplyItems(ctx, db, items[..i])
      && Leaves(ctx, ApplyItems(ctx, db, items[..i]), items[i], id, k, r)
      && (forall j :: i < j < |items| ==> WritesElsewhere(ctx, db[id].schema, items[j], id, k))
      ensures At(ApplyItems(ctx, db, items), id, k) == r
    {
      AllElsewhere(ctx, db, items, i + 1, id, k);
      assert items[..i + 1][..i] == items[..i];
      WriteIsLeft(ctx, ApplyItems(ctx, db, items[..i]), items[i], id, k, r);
    }
    if forall item :: item in items ==> WritesElsewhere(ctx, db[id].schema, item, id, k) {
      AllElsewhere(ctx, db, items, 0, id, k);
      assert ApplyItems(ctx, db, items[..0]) == db;
    }
  }

  /** The entry of a batch puts or deletes the item with this key. */
  predicate Addresses(schema: Schema, entry: BatchEntry, k: Key) {
    KeyBy(schema, if entry.BatchPut? then entry.item else entry.key, KeyText) == Some(k)
  }

  lemma EntryAt(t: Table, entry: BatchEntry, k: Key)
    ensures EntryEffect(t, entry).schema == t.schema
    ensures Addresses(t.schema, entry, k) ==>
              if entry.BatchPut? then k in EntryEffect(t, entry).items && EntryEffect(t, entry).items[k] == entry.item
              else k !in EntryEffect(t, entry).items
    ensures !Addresses(t.schema, entry, k) ==>
              (k in EntryEffect(t, entry).items <==> k in t.items)
              && (k in t.items ==> EntryEffect(t, entry).items[k] == t.items[k])
  {
    hide KeyBy, PutItem, DeleteItem, Gains;
    match entry
    case BatchPut(item) => PutEffect(t, item);
    case BatchDelete(key) => DeleteEffect(t, key);
  }

  lemma {:induction false} NoEntryAt(t: Table, entries: seq<BatchEntry>, k: Key)
    requires forall e :: e in entries ==> !Addresses(t.schema, e, k)
    ensures k in BatchEffect(t, entries).items <==> k in t.items
    ensures k in t.items ==> BatchEffect(t, entries).items[k] == t.items[k]
    decreases |entries|
  {
    hide EntryEffect, Addresses;
    if entries == [] {
    } else {
      assert entries[0] in entries && forall e :: e in entries[1..] ==> e in entries;
      EntryAt(t, entries[0], k);
      NoEntryAt(EntryEffect(t, entries[0]), entries[1..], k);
    }
  }

  /** The same of the puts and deletes of a batch to one table. */
  lemma {:induction false} LastEntryDecides(t: Table, entries: seq<BatchEntry>, i: nat, k: Key)
    requires i < |entries| && Addresses(t.schema, entries[i], k)
    requires forall j :: i < j < |entries| ==> !Addresses(t.schema, entries[j], k)
    ensures var items := BatchEffect(t, entries).items;
            if entries[i].BatchPut? then k in items && items[k] == entries[i].item else k !in items
    decreases |entries|
  {
    hide EntryEffect, Addresses;
    EntryAt(t, entries[0], k);
    if i == 0 {
      NoEntryAt(EntryEffect(t, entries[0]), entries[1..], k);
    } else {
      LastEntryDecides(EntryEffect(t, entries[0]), entries[1..], i - 1, k);
    }
  }
}
