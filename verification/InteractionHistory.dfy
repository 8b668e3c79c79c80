/** The studio's bounded interaction history: newest first, ids taken from the newest entry. */
module InteractionHistory {
  import opened Base

  datatype Entry<Q> = Entry(id: nat, service: string, status: nat, request: Q)

  function MaxId<Q>(entries: seq<Entry<Q>>): nat {
    if entries == [] then 0 else Max(entries[0].id, MaxId(entries[1..]))
  }

  /** `next_id`: one above the greatest id present, saturating. */
  function NextIdOf<Q>(entries: seq<Entry<Q>>): nat {
    Min(MaxId(entries) + 1, U64_MAX)
  }

  function Pushed<Q>(entries: seq<Entry<Q>>, e: Entry<Q>, capacity: nat): seq<Entry<Q>> {
    var all := [e] + entries;
    if |all| > capacity then all[..capacity] else all
  }

  function Lookup<Q>(entries: seq<Entry<Q>>, id: nat): Option<Q> {
    if entries == [] then None
    else if entries[0].id == id then Some(entries[0].request)
    else Lookup(entries[1..], id)
  }

  class History<Q> {
    const maxEntries: nat
    var entries: seq<Entry<Q>>

    constructor (maxEntries: nat)
      ensures this.maxEntries == Max(1, maxEntries) && entries == []
    {
      this.maxEntries := Max(1, maxEntries);
      entries := [];
    }

    method NextId() returns (id: nat)
      ensures id == NextIdOf(entries)
    {
      var greatest := 0;
      assert entries[0..] == entries;
      for i := 0 to |entries|
        invariant MaxId(entries) == Max(greatest, MaxId(entries[i..]))
      {
        greatest := Max(greatest, entries[i].id);
        assert entries[i..][1..] == entries[i + 1..];
      }
      id := Min(greatest + 1, U64_MAX);
    }

    method Push(e: Entry<Q>)
      modifies this`entries
      ensures entries == Pushed(old(entries), e, maxEntries)
    {
      entries := [e] + entries;
      ghost var all := entries;
      while |entries| > maxEntries
        invariant entries == all[..|entries|]
        invariant |entries| >= Min(|all|, maxEntries)
      {
        entries := entries[..|entries| - 1];
      }
    }

    method ReplayRequest(id: nat) returns (request: Option<Q>)
      ensures request == Lookup(entries, id)
    {
      assert entries[0..] == entries;
      for i := 0 to |entries|
        invariant Lookup(entries, id) == Lookup(entries[i..], id)
      {
        if entries[i].id == id {
          return Some(entries[i].request);
        }
        assert entries[i..][1..] == entries[i + 1..];
      }
      request := None;
    }
  }

  // ---------------------------------------------------------------------------
  // Whole runs
  // ---------------------------------------------------------------------------

  datatype Exchange<Q> = Exchange(service: string, status: nat, request: Q)

  /** The entries after every exchange was pushed under the id that `next_id` gave for it. */
  ghost function Recorded<Q>(exchanges: seq<Exchange<Q>>, capacity: nat): seq<Entry<Q>>
    decreases |exchanges|
  {
    if exchanges == [] then []
    else
      var before := Recorded(exchanges[..|exchanges| - 1], capacity);
      var x := exchanges[|exchanges| - 1];
      Pushed(before, Entry(NextIdOf(before), x.service, x.status, x.request), capacity)
  }

  /** Exchange number k, counted from 1, under id k. */
  ghost function EntryOf<Q>(exchanges: seq<Exchange<Q>>, k: nat): Entry<Q>
    requires 1 <= k <= |exchanges|
  {
    var x := exchanges[k - 1];
    Entry(k, x.service, x.status, x.request)
  }

  lemma {:induction false} MaxIdAtFront<Q>(entries: seq<Entry<Q>>)
    requires forall i, j :: 0 <= i < j < |entries| ==> entries[i].id > entries[j].id
    ensures MaxId(entries) == if entries == [] then 0 else entries[0].id
  {
    if |entries| > 1 {
      MaxIdAtFront(entries[1..]);
    }
  }

  /** As many of the last exchanges as fit, the newest first, the k-th of them all under id k. */
  ghost predicate AreNewest<Q>(kept: seq<Entry<Q>>, exchanges: seq<Exchange<Q>>, capacity: nat) {
    && |kept| == Min(|exchanges|, capacity)
    && forall i :: 0 <= i < |kept| ==> kept[i] == EntryOf(exchanges, |exchanges| - i)
  }

  lemma NextAfterNewest<Q>(kept: seq<Entry<Q>>, exchanges: seq<Exchange<Q>>, capacity: nat)
    requires capacity >= 1 && |exchanges| < U64_MAX && AreNewest(kept, exchanges, capacity)
    ensures NextIdOf(kept) == |exchanges| + 1
  {
    var n := |exchanges|;
    forall i | 0 <= i < |kept| ensures kept[i].id == n - i {
      assert kept[i] == EntryOf(exchanges, n - i);
    }
    hide AreNewest;
    MaxIdAtFront(kept);
  }

  lemma EntryStays<Q>(exchanges: seq<Exchange<Q>>, x: Exchange<Q>, k: nat)
    requires 1 <= k <= |exchanges|
    ensures EntryOf(exchanges + [x], k) == EntryOf(exchanges, k)
  {
  }

  lemma PushedAt<Q>(before: seq<Entry<Q>>, e: Entry<Q>, capacity: nat)
    requires capacity >= 1
    ensures |Pushed(before, e, capacity)| == Min(|before| + 1, capacity) && Pushed(before, e, capacity)[0] == e
    ensures forall i :: 1 <= i < |Pushed(before, e, capacity)| ==> Pushed(before, e, capacity)[i] == before[i - 1]
  {
  }

  lemma NewestAt<Q>(kept: seq<Entry<Q>>, exchanges: seq<Exchange<Q>>, capacity: nat, i: nat)
    requires AreNewest(kept, exchanges, capacity) && i < |kept|
    ensures |kept| <= |exchanges| && kept[i] == EntryOf(exchanges, |exchanges| - i)
  {
  }

  lemma PushKeepsNewest<Q>(before: seq<Entry<Q>>, exchanges: seq<Exchange<Q>>, x: Exchange<Q>, capacity: nat)
    requires capacity >= 1 && |exchanges| < U64_MAX && AreNewest(before, exchanges, capacity)
    ensures AreNewest(Pushed(before, Entry(NextIdOf(before), x.service, x.status, x.request), capacity),
                      exchanges + [x], capacity)
  {
    NextAfterNewest(before, exchanges, capacity);
    var n, more := |exchanges|, exchanges + [x];
    var e := Entry(n + 1, x.service, x.status, x.request);
    assert EntryOf(more, n + 1) == e && |before| == Min(n, capacity);
    hide NextIdOf, Pushed, EntryOf, AreNewest;
    var kept := Pushed(before, e, capacity);
    PushedAt(before, e, capacity);
    forall i | 0 <= i < |kept| ensures kept[i] == EntryOf(more, |more| - i) {
      if i > 0 {
        NewestAt(before, exchanges, capacity, i - 1);
        EntryStays(exchanges, x, n - (i - 1));
      }
    }
    AllNewest(kept, more, capacity);
  }

  lemma AllNewest<Q>(kept: seq<Entry<Q>>, exchanges: seq<Exchange<Q>>, capacity: nat)
    requires |kept| == Min(|exchanges|, capacity)
    requires forall i :: 0 <= i < |kept| ==> kept[i] == EntryOf(exchanges, |exchanges| - i)
    ensures AreNewest(kept, exchanges, capacity)
  {
  }

  /** The kept entries are the newest ones, and the k-th exchange carries id k. */
  lemma {:induction false} KeepsTheNewest<Q>(exchanges: seq<Exchange<Q>>, capacity: nat)
    requires capacity >= 1 && |exchanges| <= U64_MAX
    ensures AreNewest(Recorded(exchanges, capacity), exchanges, capacity)
    decreases |exchanges|
  {
    hide Pushed, NextIdOf, EntryOf;
    var n := |exchanges|;
    if n == 0 {
    } else {
      hide AreNewest;
      var earlier := exchanges[..n - 1];
      KeepsTheNewest(earlier, capacity);
      assert exchanges == earlier + [exchanges[n - 1]];
      PushKeepsNewest(Recorded(earlier, capacity), earlier, exchanges[n - 1], capacity);
    }
  }

  lemma {:induction false} LookupInDescending<Q>(entries: seq<Entry<Q>>, top: nat, id: nat)
    requires |entries| <= top && forall i :: 0 <= i < |entries| ==> entries[i].id == top - i
    ensures Lookup(entries, id) ==
            if top - |entries| < id <= top then Some(entries[top - id].request) else None
  {
    if entries != [] && entries[0].id != id {
      LookupInDescending(entries[1..], top - 1, id);
    }
  }

  /** Replaying id k gives back exactly the k-th request while it is among the newest, and nothing
      after that: no id is ever given to a second exchange. */
  lemma ReplayIsExact<Q>(exchanges: seq<Exchange<Q>>, capacity: nat, id: nat)
    requires capacity >= 1 && |exchanges| <= U64_MAX
    ensures Lookup(Recorded(exchanges, capacity), id) ==
            if 1 <= id <= |exchanges| && id > |exchanges| - capacity then Some(exchanges[id - 1].request) else None
  {
    var kept := Recorded(exchanges, capacity);
    KeepsTheNewest(exchanges, capacity);
    forall i: nat | i < |kept| ensures kept[i] == EntryOf(exchanges, |exchanges| - i) {
      NewestAt(kept, exchanges, capacity, i);
    }
    hide Recorded;
    LookupInDescending(kept, |exchanges|, id);
  }

  /** The next id is new exactly as long as the 64-bit counter has not reached its end. */
  lemma NextIdIsNew<Q>(entries: seq<Entry<Q>>)
    requires forall i :: 0 <= i < |entries| ==> entries[i].id <= U64_MAX
    ensures (forall i :: 0 <= i < |entries| ==> entries[i].id != NextIdOf(entries)) <==> MaxId(entries) < U64_MAX
  {
    MaxIdIsGreatest(entries);
  }

  lemma {:induction false} MaxIdIsGreatest<Q>(entries: seq<Entry<Q>>)
    ensures forall i :: 0 <= i < |entries| ==> entries[i].id <= MaxId(entries)
    ensures entries != [] ==> exists i :: 0 <= i < |entries| && entries[i].id == MaxId(entries)
  {
    if entries == [] {
    } else {
      MaxIdIsGreatest(entries[1..]);
      if entries[0].id == MaxId(entries) {
      } else {
        var i :| 0 <= i < |entries[1..]| && entries[1..][i].id == MaxId(entries[1..]);
        assert entries[i + 1].id == MaxId(entries);
      }
    }
  }
}
