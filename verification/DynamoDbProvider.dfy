/** The item writers as the provider runs them: each fetches the mutexes of its tables from the pool, in the order
    of its unit, and changes the tables in place. What happens between the calls of several tasks, each mutex held
    by one of them, is the subject of `TwoPhase`, whose lock keys stand for these mutexes one for one. */
module DynamoDbProvider {
  import opened Base
  import opened Text
  import opened Store
  import opened ItemWriters

  class Mutex {
    constructor () {
    }
  }

  /** The pool has the mutexes it had, and one for each of these keys. */
  ghost predicate Extends(before: map<string, Mutex>, after: map<string, Mutex>, keys: set<string>) {
    after.Keys == before.Keys + keys && forall k :: k in before ==> after[k] == before[k]
  }

  ghost function KeysOf(locks: seq<string>): set<string> {
    set k | k in locks
  }

  function LocksOf(ctx: Context, names: seq<string>): seq<string> {
    seq(|names|, i requires 0 <= i < |names| => ctx.Key(names[i]))
  }

  lemma NoKeys(ctx: Context)
    ensures KeysOf(LocksOf(ctx, [])) == {}
  {
  }

  lemma MoreKeys(ctx: Context, names: seq<string>, i: nat)
    requires i < |names|
    ensures KeysOf(LocksOf(ctx, names[..i + 1])) == KeysOf(LocksOf(ctx, names[..i])) + {ctx.Key(names[i])}
  {
    assert LocksOf(ctx, names[..i + 1]) == LocksOf(ctx, names[..i]) + [ctx.Key(names[i])];
  }

  lemma KeysDiffer(ctx: Context, names: seq<string>)
    requires StrictlySorted(names)
    ensures forall i, j :: 0 <= i < j < |names| ==> ctx.Key(names[i]) != ctx.Key(names[j])
  {
    var locks := LocksOf(ctx, names);
    LocksAscend(ctx, names, locks);
    forall i, j | 0 <= i < j < |names| ensures ctx.Key(names[i]) != ctx.Key(names[j]) {
      assert Less(locks[i], locks[j]);
      LessIrreflexive(locks[i]);
    }
  }

  class Provider {
    var tables: Database
    var pool: map<string, Mutex>

    constructor ()
      ensures Valid() && tables == map[] && pool == map[]
    {
      tables, pool := map[], map[];
    }

    /** Different keys never share a mutex. */
    ghost predicate Valid()
      reads this
    {
      forall k, j :: k in pool && j in pool && pool[k] == pool[j] ==> k == j
    }

    /** A key's first caller makes its mutex and every later one gets the same. */
    method GetTableLock(t: TableId) returns (m: Mutex)
      requires Valid()
      modifies this`pool
      ensures Valid()
      ensures LockKey(t) in pool && pool[LockKey(t)] == m
      ensures LockKey(t) !in old(pool) ==> fresh(m)
      ensures Extends(old(pool), pool, {LockKey(t)})
    {
      var key := LockKey(t);
      if key !in pool {
        var made := new Mutex();
        pool := pool[key := made];
      }
      m := pool[key];
    }

    method Put(ctx: Context, p: Part) returns (outcome: Outcome)
      requires Valid()
      modifies this`tables, this`pool
      ensures Valid() && Extends(old(pool), pool, {ctx.Key(p.table)})
      ensures (tables, outcome) == Run(UnitsOf(ctx, PutRequest(p))[0].ops, old(tables), [])
    {
      RunGuarded(ctx, p, [PutOp(ctx, p)], tables);
      RunLast(PutOp(ctx, p), tables, []);
      var id := ctx.Id(p.table);
      var lock := GetTableLock(id);
      if id !in tables {
        return Failed(NOT_FOUND);
      }
      if p.condition.Some? {
        var existing := GetItem(tables[id], p.key);
        if !p.condition.value(existing) {
          return Failed(CONDITION_FAILED);
        }
      }
      var (after, before) := PutItem(tables[id], p.key);
      assert Perform(PutOp(ctx, p), tables, []) == Next(tables[id := after], [before]);
      tables := tables[id := after];
      outcome := Done([before]);
    }

    method Delete(ctx: Context, p: Part) returns (outcome: Outcome)
      requires Valid()
      modifies this`tables, this`pool
      ensures Valid() && Extends(old(pool), pool, {ctx.Key(p.table)})
      ensures (tables, outcome) == Run(UnitsOf(ctx, DeleteRequest(p))[0].ops, old(tables), [])
    {
      RunGuarded(ctx, p, [DeleteOp(ctx, p)], tables);
      RunLast(DeleteOp(ctx, p), tables, []);
      var id := ctx.Id(p.table);
      var lock := GetTableLock(id);
      if id !in tables {
        return Failed(NOT_FOUND);
      }
      if p.condition.Some? {
        var existing := GetItem(tables[id], p.key);
        if !p.condition.value(existing) {
          return Failed(CONDITION_FAILED);
        }
      }
      var (after, before) := DeleteItem(tables[id], p.key);
      assert Perform(DeleteOp(ctx, p), tables, []) == Next(tables[id := after], [before]);
      tables := tables[id := after];
      outcome := Done([before]);
    }

    method Update(ctx: Context, p: Part) returns (outcome: Outcome)
      requires Valid()
      modifies this`tables, this`pool
      ensures Valid() && Extends(old(pool), pool, {ctx.Key(p.table)})
      ensures (tables, outcome) == Run(UnitsOf(ctx, UpdateRequest(p))[0].ops, old(tables), [])
    {
      hide GetItem, PutItem;
      RunGuarded(ctx, p, [HasKey(ctx, p), UpdateOp(ctx, p)], tables);
      assert [HasKey(ctx, p), UpdateOp(ctx, p)] == [HasKey(ctx, p)] + [UpdateOp(ctx, p)];
      RunLast(UpdateOp(ctx, p), tables, []);
      var id := ctx.Id(p.table);
      var lock := GetTableLock(id);
      if id !in tables {
        return Failed(NOT_FOUND);
      }
      if p.condition.Some? {
        var existing := GetItem(tables[id], p.key);
        if !p.condition.value(existing) {
          return Failed(CONDITION_FAILED);
        }
      }
      var k := ExtractKey(tables[id], p.key);
      if k.None? {
        return Failed(VALIDATION);
      }
      var before := if k.value in tables[id].items then Some(tables[id].items[k.value]) else None;
      var item := p.edit(if before.Some? then before.value else p.key);
      assert Perform(UpdateOp(ctx, p), tables, []) == Next(tables[id := PutItem(tables[id], item).0], [before]);
      tables := tables[id := PutItem(tables[id], item).0];
      outcome := Done([before]);
    }

    /** The mutexes of several tables, in this order; no mutex comes twice. */
    method GetTableLocks(ctx: Context, names: seq<string>) returns (mutexes: seq<Mutex>)
      requires Valid() && StrictlySorted(names)
      modifies this`pool
      ensures Valid() && Extends(old(pool), pool, KeysOf(LocksOf(ctx, names)))
      ensures |mutexes| == |names|
      ensures forall i :: 0 <= i < |names| ==> ctx.Key(names[i]) in pool && mutexes[i] == pool[ctx.Key(names[i])]
      ensures forall i, j :: 0 <= i < j < |mutexes| ==> mutexes[i] != mutexes[j]
    {
      hide LocksOf, KeysOf, StrictlySorted, LockKey;
      mutexes := [];
      NoKeys(ctx);
      for i := 0 to |names|
        invariant Valid() && Extends(old(pool), pool, KeysOf(LocksOf(ctx, names[..i])))
        invariant |mutexes| == i
        invariant forall j :: 0 <= j < i ==> ctx.Key(names[j]) in pool && mutexes[j] == pool[ctx.Key(names[j])]
      {
        var mutex := GetTableLock(ctx.Id(names[i]));
        MoreKeys(ctx, names, i);
        mutexes := mutexes + [mutex];
      }
      assert names[..|names|] == names;
      KeysDiffer(ctx, names);
    }

    /** Three passes under all the locks: every table exists, every condition holds, then the writes. */
    method TransactWrite(ctx: Context, items: seq<TransactItem>) returns (outcome: Outcome)
      requires Valid()
      modifies this`tables, this`pool
      ensures Valid() && Extends(old(pool), pool, KeysOf(TransactUnit(ctx, items).locks))
      ensures if forall p :: p in AllParts(items) ==> PartHolds(ctx, old(tables), p)
              then outcome.Done? && tables == ApplyItems(ctx, old(tables), items)
              else outcome == Failed(CANCELED) && tables == old(tables)
    {
      hide GetItem, PutItem, DeleteItem, UpdateItem, ApplyItem, AllParts, PartHolds, TableNames;
      var parts := AllParts(items);
      TableNamesSorted(parts);
      var locks := GetTableLocks(ctx, TableNames(parts));
      assert TransactUnit(ctx, items).locks == LocksOf(ctx, TableNames(parts));
      var found := TablesExist(ctx, parts);
      if !found {
        return Failed(CANCELED);
      }
      var held := ConditionsHold(ctx, parts);
      if !held {
        return Failed(CANCELED);
      }
      ghost var taken := pool;
      for i := 0 to |items|
        invariant Valid() && pool == taken
        invariant tables == ApplyItems(ctx, old(tables), items[..i])
      {
        assert items[..i + 1][..i] == items[..i];
        ApplyOne(ctx, items[i]);
      }
      assert items[..|items|] == items;
      outcome := Done([]);
    }

    method TablesExist(ctx: Context, parts: seq<Part>) returns (found: bool)
      ensures found <==> forall p :: p in parts ==> ctx.Id(p.table) in tables
      ensures !found ==> exists p :: p in parts && !PartHolds(ctx, tables, p)
    {
      hide GetItem;
      for i := 0 to |parts|
        invariant forall j :: 0 <= j < i ==> ctx.Id(parts[j].table) in tables
      {
        if ctx.Id(parts[i].table) !in tables {
          assert !PartHolds(ctx, tables, parts[i]) && parts[i] in parts;
          return false;
        }
      }
      return true;
    }

    method ConditionsHold(ctx: Context, parts: seq<Part>) returns (held: bool)
      requires forall p :: p in parts ==> ctx.Id(p.table) in tables
      ensures held <==> forall p :: p in parts ==> PartHolds(ctx, tables, p)
    {
      hide GetItem;
      for i := 0 to |parts|
        invariant forall j :: 0 <= j < i ==> PartHolds(ctx, tables, parts[j])
      {
        if parts[i].condition.Some? {
          var existing := GetItem(tables[ctx.Id(parts[i].table)], parts[i].key);
          if !parts[i].condition.value(existing) {
            assert !PartHolds(ctx, tables, parts[i]) && parts[i] in parts;
            return false;
          }
        }
      }
      return true;
    }

    /** One table after the other; a missing one ends the batch and leaves the earlier ones written. */
    method BatchWrite(ctx: Context, batch: Batch) returns (outcome: Outcome)
      requires Valid()
      modifies this`tables, this`pool
      ensures Valid() && old(pool).Keys <= pool.Keys && forall k :: k in old(pool) ==> pool[k] == old(pool)[k]
      ensures tables == ApplyBatch(ctx, old(tables), batch)
      ensures outcome == if forall b :: b in batch ==> ctx.Id(b.0) in old(tables) then Done([]) else Failed(NOT_FOUND)
    {
      hide EntryEffect, BatchEffect;
      assert batch[0..] == batch;
      for i := 0 to |batch|
        invariant Valid() && old(pool).Keys <= pool.Keys && forall k :: k in old(pool) ==> pool[k] == old(pool)[k]
        invariant tables.Keys == old(tables).Keys
        invariant forall j :: 0 <= j < i ==> ctx.Id(batch[j].0) in tables
        invariant ApplyBatch(ctx, old(tables), batch) == ApplyBatch(ctx, tables, batch[i..])
      {
        assert batch[i..][1..] == batch[i + 1..];
        var id := ctx.Id(batch[i].0);
        var lock := GetTableLock(id);
        if id !in tables {
          assert batch[i] in batch;
          return Failed(NOT_FOUND);
        }
        ghost var before := tables;
        WriteEntries(id, batch[i].1);
        assert tables == before[id := BatchEffect(before[id], batch[i].1)];
      }
      outcome := Done([]);
    }

    method WriteEntries(id: TableId, entries: seq<BatchEntry>)
      requires id in tables
      modifies this`tables
      ensures tables == old(tables)[id := BatchEffect(old(tables)[id], entries)]
    {
      hide EntryEffect;
      assert entries[0..] == entries;
      for i := 0 to |entries|
        invariant id in tables && tables == old(tables)[id := tables[id]]
        invariant BatchEffect(old(tables)[id], entries) == BatchEffect(tables[id], entries[i..])
      {
        assert entries[i..][1..] == entries[i + 1..];
        tables := tables[id := EntryEffect(tables[id], entries[i])];
      }
    }

    method ApplyOne(ctx: Context, item: TransactItem)
      modifies this`tables
      ensures tables == ApplyItem(ctx, old(tables), item)
    {
      hide PutItem, DeleteItem, UpdateItem;
      if item.put.Some? {
        Write(ctx.Id(item.put.value.table), t => PutItem(t, item.put.value.key).0);
      } else if item.delete.Some? {
        Write(ctx.Id(item.delete.value.table), t => DeleteItem(t, item.delete.value.key).0);
      } else if item.update.Some? {
        Write(ctx.Id(item.update.value.table), t => UpdateItem(t, item.update.value.key, item.update.value.edit).0);
      }
    }

    /** `if let Some(mut table) = tables.get_mut(name) { … }` */
    method Write(id: TableId, f: Table -> Table)
      modifies this`tables
      ensures tables == Change(old(tables), id, f)
    {
      if id in tables {
        tables := tables[id := f(tables[id])];
      }
    }
  }
}
