/** The state of every (account, region) pair, kept under one combined key. Texts are UTF-8 bytes. */
module AccountRegion {
  import opened Base

  newtype byte = b: int | 0 <= b < 256

  type Bytes = seq<byte>

  type Tenant = (Bytes, Bytes)

  const NUL: byte := 0
  const BUFFER_SIZE: nat := 64

  // ---------------------------------------------------------------------------
  // The combined key
  // ---------------------------------------------------------------------------

  function KeyOf(t: Tenant): Bytes {
    t.0 + [NUL] + t.1
  }

  predicate NoNul(s: Bytes) {
    forall i :: 0 <= i < |s| ==> s[i] != NUL
  }

  /** The position of the first NUL byte, or the length. */
  function FirstNul(s: Bytes): (i: nat)
    ensures i <= |s| && (forall j :: 0 <= j < i ==> s[j] != NUL) && (i < |s| ==> s[i] == NUL)
  {
    if s == [] || s[0] == NUL then 0 else 1 + FirstNul(s[1..])
  }

  function AccountId(key: Bytes): Bytes {
    key[..FirstNul(key)]
  }

  function Region(key: Bytes): Bytes {
    if FirstNul(key) < |key| then key[FirstNul(key) + 1..] else []
  }

  lemma FirstNulOfKey(t: Tenant)
    ensures FirstNul(KeyOf(t)) == FirstNul(t.0)
  {
    var k, i, f := KeyOf(t), FirstNul(t.0), FirstNul(KeyOf(t));
    assert k[i] == NUL && (forall j :: 0 <= j < i ==> k[j] == t.0[j]);
  }

  /** The accessors give the pair back exactly when the account id holds no NUL byte. */
  lemma AccessorsInvert(t: Tenant)
    ensures (AccountId(KeyOf(t)), Region(KeyOf(t))) == t <==> NoNul(t.0)
  {
    var k, i := KeyOf(t), FirstNul(t.0);
    FirstNulOfKey(t);
    assert k[..i] == t.0[..i];
    if i == |t.0| {
      assert t.0[..i] == t.0 && k[i + 1..] == t.1;
    } else {
      assert |AccountId(k)| < |t.0|;
    }
  }

  /** Without NUL bytes in the account ids, different pairs have different keys. */
  lemma KeyIsInjective(t: Tenant, u: Tenant)
    requires NoNul(t.0) && NoNul(u.0) && KeyOf(t) == KeyOf(u)
    ensures t == u
  {
    AccessorsInvert(t);
    AccessorsInvert(u);
  }

  /** With one, some other pair, whose account id has none, shares the key. */
  lemma KeyIsShared(t: Tenant) returns (u: Tenant)
    requires !NoNul(t.0)
    ensures u != t && NoNul(u.0) && KeyOf(u) == KeyOf(t)
  {
    var k, i := t.0, FirstNul(t.0);
    u := (k[..i], k[i + 1..] + [NUL] + t.1);
    assert k == k[..i] + [NUL] + k[i + 1..];
    assert KeyOf(u) == KeyOf(t);
  }

  // ---------------------------------------------------------------------------
  // Building the key
  // ---------------------------------------------------------------------------

  method CopyInto(buffer: array<byte>, start: nat, source: Bytes)
    requires start + |source| <= buffer.Length
    modifies buffer
    ensures buffer[..] == old(buffer[..start]) + source + old(buffer[start + |source|..])
  {
    for i := 0 to |source|
      invariant buffer[..start] == old(buffer[..start])
      invariant buffer[start..start + i] == source[..i]
      invariant buffer[start + i..] == old(buffer[start + i..])
    {
      buffer[start + i] := source[i];
      assert buffer[start..start + i + 1] == source[..i] + [source[i]];
      assert buffer[start + i + 1..] == buffer[start + i..][1..];
      assert old(buffer[start + i + 1..]) == old(buffer[start + i..])[1..];
    }
    assert buffer[..] == buffer[..start] + buffer[start..start + |source|] + buffer[start + |source|..];
  }

  /** `AccountRegionKey::new`. */
  method NewKey(account: Bytes, region: Bytes) returns (key: Bytes)
    ensures key == KeyOf((account, region))
  {
    key := [];
    key := key + account;
    key := key + [NUL];
    key := key + region;
  }

  /** The key a lookup uses: in a buffer on the stack when it fits, on the heap otherwise. */
  method LookupKey(account: Bytes, region: Bytes) returns (key: Bytes)
    ensures key == KeyOf((account, region))
  {
    var n, total := |account|, |account| + 1 + |region|;
    if total <= BUFFER_SIZE - 1 {
      var buffer := new byte[BUFFER_SIZE](_ => NUL);
      CopyInto(buffer, 0, account);
      assert buffer[..n] == account;
      buffer[n] := NUL;
      assert buffer[..n] == account;
      CopyInto(buffer, n + 1, region);
      assert buffer[..n] == account && buffer[n] == NUL && buffer[n + 1..total] == region;
      key := buffer[..total];
    } else {
      key := NewKey(account, region);
    }
  }

  // ---------------------------------------------------------------------------
  // The bundle
  // ---------------------------------------------------------------------------

  /** The guards returned by `get_or_create` and `get_mut` let the caller write; `write` is what it writes. */
  datatype Op<!S> =
    | GetOrCreate(t: Tenant, write: S -> S)
    | Get(t: Tenant)
    | GetMut(t: Tenant, write: S -> S)
    | Clear

  /** One operation on a map under the given keys: the map after it, and the state that was found or made. */
  function Apply<K(==), S>(m: map<K, S>, key: Tenant -> K, initial: S, op: Op<S>): (map<K, S>, Option<S>) {
    match op
    case GetOrCreate(t, write) =>
      var s := if key(t) in m then m[key(t)] else initial;
      (m[key(t) := write(s)], Some(s))
    case Get(t) => (m, if key(t) in m then Some(m[key(t)]) else None)
    case GetMut(t, write) =>
      if key(t) in m then (m[key(t) := write(m[key(t)])], Some(m[key(t)])) else (m, None)
    case Clear => (map[], None)
  }

  class Bundle<S> {
    var stores: map<Bytes, S>
    const initial: S

    constructor (initial: S)
      ensures stores == map[] && this.initial == initial
    {
      stores := map[];
      this.initial := initial;
    }

    method GetOrCreate(account: Bytes, region: Bytes, write: S -> S) returns (found: S)
      modifies this
      ensures (stores, Some(found)) == Apply(old(stores), KeyOf, initial, Op.GetOrCreate((account, region), write))
    {
      var key := NewKey(account, region);
      if key !in stores {
        stores := stores[key := initial];
      }
      found := stores[key];
      stores := stores[key := write(found)];
      assert stores == old(stores)[key := write(found)];
    }

    method Get(account: Bytes, region: Bytes) returns (found: Option<S>)
      ensures (stores, found) == Apply(stores, KeyOf, initial, Op.Get((account, region)))
    {
      var key := LookupKey(account, region);
      found := if key in stores then Some(stores[key]) else None;
    }

    method GetMut(account: Bytes, region: Bytes, write: S -> S) returns (found: Option<S>)
      modifies this
      ensures (stores, found) == Apply(old(stores), KeyOf, initial, Op.GetMut((account, region), write))
    {
      var key := LookupKey(account, region);
      if key in stores {
        found := Some(stores[key]);
        stores := stores[key := write(stores[key])];
      } else {
        found := None;
      }
    }

    method Clear()
      modifies this
      ensures stores == Apply(old(stores), KeyOf, initial, Op.Clear).0
    {
      stores := map[];
    }
  }

  // ---------------------------------------------------------------------------
  // The bundle behaves as a map keyed by pairs
  // ---------------------------------------------------------------------------

  function Pair(t: Tenant): Tenant {
    t
  }

  function Run<K(==), S>(m: map<K, S>, key: Tenant -> K, initial: S, ops: seq<Op<S>>): (map<K, S>, seq<Option<S>>)
    decreases |ops|
  {
    if ops == [] then (m, [])
    else
      var (next, found) := Apply(m, key, initial, ops[0]);
      var (last, rest) := Run(next, key, initial, ops[1..]);
      (last, [found] + rest)
  }

  predicate OpIsClean<S>(op: Op<S>) {
    op.Clear? || NoNul(op.t.0)
  }

  /** The combined keys of exactly the pairs, each with the same state. */
  ghost predicate Represents<S>(stores: map<Bytes, S>, tenants: map<Tenant, S>) {
    && (forall t :: t in tenants ==> NoNul(t.0) && KeyOf(t) in stores && stores[KeyOf(t)] == tenants[t])
    && (forall k :: k in stores ==> (AccountId(k), Region(k)) in tenants && KeyOf((AccountId(k), Region(k))) == k)
  }

  lemma LookupAgrees<S>(stores: map<Bytes, S>, tenants: map<Tenant, S>, t: Tenant)
    requires Represents(stores, tenants) && NoNul(t.0)
    ensures KeyOf(t) in stores <==> t in tenants
    ensures t in tenants ==> stores[KeyOf(t)] == tenants[t]
  {
    AccessorsInvert(t);
  }

  lemma UpdateAgrees<S>(stores: map<Bytes, S>, tenants: map<Tenant, S>, t: Tenant, s: S)
    requires Represents(stores, tenants) && NoNul(t.0)
    ensures Represents(stores[KeyOf(t) := s], tenants[t := s])
  {
    AccessorsInvert(t);
    forall u | u in tenants ensures u == t || KeyOf(u) != KeyOf(t) {
      if KeyOf(u) == KeyOf(t) {
        KeyIsInjective(t, u);
      }
    }
  }

  lemma StepAgrees<S>(stores: map<Bytes, S>, tenants: map<Tenant, S>, initial: S, op: Op<S>)
    requires Represents(stores, tenants) && OpIsClean(op)
    ensures var (stores1, found) := Apply(stores, KeyOf, initial, op);
            var (tenants1, expected) := Apply(tenants, Pair, initial, op);
            Represents(stores1, tenants1) && found == expected
  {
    hide Represents, KeyOf;
    if op.Clear? {
      EmptyAgrees<S>();
    } else {
      var t := op.t;
      LookupAgrees(stores, tenants, t);
      if op.GetOrCreate? {
        UpdateAgrees(stores, tenants, t, op.write(if t in tenants then tenants[t] else initial));
      } else if op.GetMut? && t in tenants {
        UpdateAgrees(stores, tenants, t, op.write(tenants[t]));
      }
    }
  }

  lemma EmptyAgrees<S>()
    ensures Represents<S>(map[], map[])
  {
  }

  /** Every run over account ids without NUL bytes gives the answers, and leaves the states, of a map keyed by
      (account, region). */
  lemma {:induction false} RunAgrees<S>(stores: map<Bytes, S>, tenants: map<Tenant, S>, initial: S, ops: seq<Op<S>>)
    requires Represents(stores, tenants) && forall op :: op in ops ==> OpIsClean(op)
    ensures Run(stores, KeyOf, initial, ops).1 == Run(tenants, Pair, initial, ops).1
    ensures Represents(Run(stores, KeyOf, initial, ops).0, Run(tenants, Pair, initial, ops).0)
    decreases |ops|
  {
    if ops == [] {
    } else {
      hide Represents, OpIsClean, Apply;
      StepAgrees(stores, tenants, initial, ops[0]);
      RunAgrees(Apply(stores, KeyOf, initial, ops[0]).0, Apply(tenants, Pair, initial, ops[0]).0, initial, ops[1..]);
    }
  }

  /** What a lookup of u finds in an empty bundle after t was created. */
  function SeenAfterCreating<S>(t: Tenant, u: Tenant, write: S -> S, initial: S): Option<S> {
    var (stores, _) := Apply(map[], KeyOf, initial, GetOrCreate(t, write));
    Apply(stores, KeyOf, initial, Get(u)).1
  }

  /** The state of t stays hidden from every other well-formed tenant exactly when its account id holds no NUL byte. */
  lemma IsolationIff<S(!new)>(t: Tenant, write: S -> S, initial: S)
    ensures (forall u: Tenant :: u != t && NoNul(u.0) ==> SeenAfterCreating(t, u, write, initial) == None)
            <==> NoNul(t.0)
  {
    if NoNul(t.0) {
      forall u: Tenant | u != t && NoNul(u.0) ensures SeenAfterCreating(t, u, write, initial) == None {
        if KeyOf(u) == KeyOf(t) {
          KeyIsInjective(t, u);
        }
      }
    } else {
      var u := KeyIsShared(t);
      assert SeenAfterCreating(t, u, write, initial) == Some(write(initial));
    }
  }

  // ---------------------------------------------------------------------------
  // What a tenant finds
  // ---------------------------------------------------------------------------

  function FindIn<S>(stores: map<Bytes, S>, t: Tenant): Option<S> {
    if KeyOf(t) in stores then Some(stores[KeyOf(t)]) else None
  }

  /** The state of one tenant after an operation, told without any map: others leave it alone, the first creation makes
      it, every guard writes to it, and clearing ends it. */
  function OwnStep<S>(s: Option<S>, t: Tenant, initial: S, op: Op<S>): Option<S> {
    match op
    case Clear => None
    case Get(_) => s
    case GetOrCreate(u, write) => if u == t then Some(write(if s.Some? then s.value else initial)) else s
    case GetMut(u, write) => if u == t && s.Some? then Some(write(s.value)) else s
  }

  function OwnState<S>(s: Option<S>, t: Tenant, initial: S, ops: seq<Op<S>>): Option<S>
    decreases |ops|
  {
    if ops == [] then s else OwnState(OwnStep(s, t, initial, ops[0]), t, initial, ops[1..])
  }

  lemma StepIsOwn<S>(stores: map<Bytes, S>, t: Tenant, initial: S, op: Op<S>)
    requires NoNul(t.0) && OpIsClean(op)
    ensures FindIn(Apply(stores, KeyOf, initial, op).0, t) == OwnStep(FindIn(stores, t), t, initial, op)
  {
    if !op.Clear? && KeyOf(op.t) == KeyOf(t) {
      KeyIsInjective(op.t, t);
    }
  }

  lemma {:induction false} RunIsOwn<S>(stores: map<Bytes, S>, t: Tenant, initial: S, ops: seq<Op<S>>)
    requires NoNul(t.0) && forall op :: op in ops ==> OpIsClean(op)
    ensures FindIn(Run(stores, KeyOf, initial, ops).0, t) == OwnState(FindIn(stores, t), t, initial, ops)
    decreases |ops|
  {
    if ops == [] {
    } else {
      hide FindIn, OpIsClean, Apply, OwnStep;
      StepIsOwn(stores, t, initial, ops[0]);
      RunIsOwn(Apply(stores, KeyOf, initial, ops[0]).0, t, initial, ops[1..]);
    }
  }

  lemma {:induction false} AnswerAt<S>(stores: map<Bytes, S>, initial: S, ops: seq<Op<S>>, k: nat)
    requires k < |ops|
    ensures |Run(stores, KeyOf, initial, ops).1| == |ops|
    ensures Run(stores, KeyOf, initial, ops).1[k]
         == Apply(Run(stores, KeyOf, initial, ops[..k]).0, KeyOf, initial, ops[k]).1
    decreases |ops|
  {
    hide Apply;
    var next := Apply(stores, KeyOf, initial, ops[0]).0;
    AnswersToAll(next, initial, ops[1..]);
    if k == 0 {
      assert ops[..0] == [];
    } else {
      assert ops[..k][1..] == ops[1..][..k - 1];
      AnswerAt(next, initial, ops[1..], k - 1);
    }
  }

  lemma {:induction false} AnswersToAll<S>(stores: map<Bytes, S>, initial: S, ops: seq<Op<S>>)
    ensures |Run(stores, KeyOf, initial, ops).1| == |ops|
    decreases |ops|
  {
    hide Apply;
    if ops != [] {
      AnswersToAll(Apply(stores, KeyOf, initial, ops[0]).0, initial, ops[1..]);
    }
  }

  /** In any run over account ids without NUL bytes, each operation finds what the earlier operations of the same tenant
      made of its state, and a creation finds the initial state where there is none. */
  lemma FindsItsOwn<S>(initial: S, ops: seq<Op<S>>, k: nat)
    requires k < |ops| && forall op :: op in ops ==> OpIsClean(op)
    ensures var answers := Run(map[], KeyOf, initial, ops).1;
            |answers| == |ops| &&
            (if ops[k].Clear? then answers[k] == None
             else
               var own := OwnState(None, ops[k].t, initial, ops[..k]);
               answers[k] == if ops[k].GetOrCreate? && own.None? then Some(initial) else own)
  {
    hide Run, OwnState;
    AnswerAt(map[], initial, ops, k);
    assert ops[k] in ops && forall op :: op in ops[..k] ==> op in ops;
    if !ops[k].Clear? {
      RunIsOwn(map[], ops[k].t, initial, ops[..k]);
    }
  }

  /** In particular, a tenant finds again what was written, through every guard, until everything is cleared. */
  lemma WriteThenFind<S>(stores: map<Bytes, S>, t: Tenant, initial: S, write: S -> S)
    ensures FindIn(Apply(stores, KeyOf, initial, GetOrCreate(t, write)).0, t)
         == Some(write(if FindIn(stores, t).Some? then FindIn(stores, t).value else initial))
    ensures FindIn(Apply(stores, KeyOf, initial, GetMut(t, write)).0, t)
         == if FindIn(stores, t).Some? then Some(write(FindIn(stores, t).value)) else None
    ensures Apply(stores, KeyOf, initial, Get(t)) == (stores, FindIn(stores, t))
    ensures Apply(stores, KeyOf, initial, Op<S>.Clear).0 == map[]
  {
  }
}
