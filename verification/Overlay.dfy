/** Reading an entity inside a nested transaction: the chain of transactions, its trimming, and the overlay of their events. */
module Overlay {
  import opened Wrappers
  import opened TransactionProtocol

  // ---------------------------------------------------------------- the chain of a transaction

  /** Stored transactions point to a destination created before them. */
  predicate Nested(table: Table) {
    NULL_UUID !in table &&
    forall t :: t in table ==> table[t].dest < t && (table[t].dest == NULL_UUID || table[t].dest in table)
  }

  /** From the outermost log to `t`. */
  function Chain(table: Table, t: Uuid): (r: seq<Uuid>)
    requires Nested(table) && (t == NULL_UUID || t in table)
    ensures |r| > 0 && r[0] == NULL_UUID && r[|r| - 1] == t
    ensures forall k :: 0 <= k < |r| ==> r[k] <= t && (r[k] == NULL_UUID || r[k] in table)
    ensures forall j, k :: 0 <= j < k < |r| ==> r[j] < r[k]
    decreases t
  {
    if t == NULL_UUID then [NULL_UUID] else Chain(table, table[t].dest) + [t]
  }

  /** `TransactionEntry.uuids`: walks outwards and reverses what it collected. */
  method ChainUuids(table: Table, t: Uuid) returns (uuids: seq<Uuid>)
    requires Nested(table) && t in table
    ensures uuids == Chain(table, t)
  {
    uuids := [];
    var current := t;
    while current != NULL_UUID
      invariant current == NULL_UUID || current in table
      invariant Chain(table, t) == Chain(table, current) + uuids
      decreases current
    {
      uuids := [current] + uuids;
      current := table[current].dest;
    }
    uuids := [NULL_UUID] + uuids;
  }

  /** The transaction whose view a reader inside `t` gets: the innermost one that is not rejected. */
  function NearestLive(table: Table, t: Uuid): (r: Uuid)
    requires Nested(table) && (t == NULL_UUID || t in table)
    ensures r == NULL_UUID || (r in table && table[r].status != Rejected)
    decreases t
  {
    if t != NULL_UUID && table[t].status == Rejected then NearestLive(table, table[t].dest) else t
  }

  /** It is on the chain, its own chain is the outer part, and all transactions further in are rejected. */
  lemma {:induction false} NearestIsNearest(table: Table, t: Uuid)
    requires Nested(table) && (t == NULL_UUID || t in table)
    ensures var r := NearestLive(table, t);
            Chain(table, r) <= Chain(table, t) &&
            forall k :: |Chain(table, r)| <= k < |Chain(table, t)| ==>
              Chain(table, t)[k] in table && table[Chain(table, t)[k]].status == Rejected
    decreases t
  {
    if t != NULL_UUID && table[t].status == Rejected { NearestIsNearest(table, table[t].dest); }
  }

  /** `_get_transaction_uuids`: a trailing run of rejected transactions is dropped, no more. */
  method TransactionUuids(table: Table, t: Option<Uuid>) returns (uuids: seq<Uuid>)
    requires Nested(table) && (t.Some? ==> t.value in table)
    ensures uuids == Chain(table, if t.None? then NULL_UUID else NearestLive(table, t.value))
  {
    if t.None? {
      return [NULL_UUID];
    }
    uuids := ChainUuids(table, t.value);
    ghost var inner := t.value;
    while |uuids| > 1
      invariant inner == NULL_UUID || inner in table
      invariant uuids == Chain(table, inner) && NearestLive(table, t.value) == NearestLive(table, inner)
      decreases |uuids|
    {
      if table[uuids[|uuids| - 1]].status != Rejected {
        break;
      }
      inner := table[inner].dest;
      uuids := uuids[..|uuids| - 1];
    }
  }

  // ---------------------------------------------------------------- the overlay

  predicate Distinct(chain: seq<Uuid>) {
    forall j, k :: 0 <= j < k < |chain| ==> chain[j] != chain[k]
  }

  function Index(chain: seq<Uuid>, t: Uuid): (r: nat)
    requires t in chain
    ensures r < |chain| && chain[r] == t
    ensures Distinct(chain) ==> forall k :: 0 <= k < |chain| && chain[k] == t ==> k == r
  {
    if chain[0] == t then 0 else 1 + Index(chain[1..], t)
  }

  predicate Seen(x: EventEntry, e: Uuid, chain: seq<Uuid>) {
    x.entity == e && x.txn in chain
  }

  /** At most one event of the entity per version and transaction. */
  predicate Unique(log: Log, e: Uuid) {
    forall i, j :: 0 <= i < j < |log| && log[i].entity == e && log[j].entity == e && log[i].txn == log[j].txn ==>
      log[i].version != log[j].version
  }

  /** Some entry of r speaks for x: same version, from x's transaction or one further in. */
  predicate SpokenFor(x: EventEntry, chain: seq<Uuid>, r: seq<EventEntry>)
    requires x.txn in chain
  {
    exists k :: 0 <= k < |r| && r[k].version == x.version && r[k].txn in chain && Index(chain, r[k].txn) >= Index(chain, x.txn)
  }

  /** What a read should return: strictly increasing versions, one for each version seen, each the innermost event. */
  predicate IsOverlay(log: Log, e: Uuid, chain: seq<Uuid>, r: seq<EventEntry>) {
    VersionSorted(r) &&
    (forall k :: 0 <= k < |r| ==> r[k] in log && Seen(r[k], e, chain)) &&
    (forall x :: x in log && Seen(x, e, chain) ==> SpokenFor(x, chain, r))
  }

  lemma {:induction false} SameEvent(log: Log, e: Uuid, x: EventEntry, y: EventEntry)
    requires Unique(log, e) && x in log && y in log && x.entity == e && y.entity == e && x.txn == y.txn && x.version == y.version
    ensures x == y
  {
  }

  /** The entry of an overlay that speaks for x. */
  lemma {:induction false} Speaker(log: Log, e: Uuid, chain: seq<Uuid>, r: seq<EventEntry>, x: EventEntry) returns (k: nat)
    requires IsOverlay(log, e, chain, r) && x in log && Seen(x, e, chain)
    ensures k < |r| && r[k].version == x.version && r[k] in log && Seen(r[k], e, chain) && Index(chain, r[k].txn) >= Index(chain, x.txn)
  {
    hide Index;
    assert SpokenFor(x, chain, r);
    k :| 0 <= k < |r| && r[k].version == x.version && r[k].txn in chain && Index(chain, r[k].txn) >= Index(chain, x.txn);
  }

  lemma {:induction false} OverlayEntry(log: Log, e: Uuid, chain: seq<Uuid>, r: seq<EventEntry>, i: nat)
    requires IsOverlay(log, e, chain, r) && i < |r|
    ensures r[i] in log && Seen(r[i], e, chain) && forall k :: 0 <= k < |r| && r[k].version == r[i].version ==> k == i
  {
  }

  lemma {:induction false} OverlayMember(log: Log, e: Uuid, chain: seq<Uuid>, r: seq<EventEntry>, q: seq<EventEntry>, i: nat)
    requires Unique(log, e) && Distinct(chain) && IsOverlay(log, e, chain, r) && IsOverlay(log, e, chain, q) && i < |r|
    ensures r[i] in q
  {
    hide Unique, Index, IsOverlay;
    OverlayEntry(log, e, chain, r, i);
    var j := Speaker(log, e, chain, q, r[i]);
    var k := Speaker(log, e, chain, r, q[j]);
    SameEvent(log, e, r[i], q[j]);
  }

  predicate VersionSorted(r: seq<EventEntry>) {
    forall j, k :: 0 <= j < k < |r| ==> r[j].version < r[k].version
  }

  predicate SameMembers(r: seq<EventEntry>, q: seq<EventEntry>) {
    (forall i :: 0 <= i < |r| ==> r[i] in q) && (forall i :: 0 <= i < |q| ==> q[i] in r)
  }

  lemma {:induction false} LastIsShared(r: seq<EventEntry>, q: seq<EventEntry>)
    requires VersionSorted(r) && VersionSorted(q) && SameMembers(r, q) && |r| > 0
    ensures |q| > 0 && r[|r| - 1] == q[|q| - 1] && SameMembers(r[..|r| - 1], q[..|q| - 1])
  {
  }

  lemma {:induction false} SortedByVersionSame(r: seq<EventEntry>, q: seq<EventEntry>)
    requires VersionSorted(r) && VersionSorted(q) && SameMembers(r, q)
    ensures r == q
  {
    assert q != [] ==> q[0] in r;
    if r != [] {
      LastIsShared(r, q);
      hide SameMembers;
      SortedByVersionSame(r[..|r| - 1], q[..|q| - 1]);
      assert r == r[..|r| - 1] + [r[|r| - 1]] && q == q[..|q| - 1] + [q[|q| - 1]];
    }
  }

  /** That determines the result, so `IsOverlay` is a complete specification. */
  lemma {:induction false} OverlayIsUnique(log: Log, e: Uuid, chain: seq<Uuid>, r: seq<EventEntry>, q: seq<EventEntry>)
    requires Unique(log, e) && Distinct(chain) && IsOverlay(log, e, chain, r) && IsOverlay(log, e, chain, q)
    ensures r == q
  {
    hide Unique, SpokenFor;
    forall i | 0 <= i < |r| ensures r[i] in q { OverlayMember(log, e, chain, r, q, i); }
    forall i | 0 <= i < |q| ensures q[i] in r { OverlayMember(log, e, chain, q, r, i); }
    SortedByVersionSame(r, q);
  }

  // ---------------------------------------------------------------- how the code computes it

  predicate KeyLess(chain: seq<Uuid>, a: EventEntry, b: EventEntry)
    requires a.txn in chain && b.txn in chain
  {
    a.version < b.version || (a.version == b.version && Index(chain, a.txn) < Index(chain, b.txn))
  }

  predicate KeySorted(chain: seq<Uuid>, r: seq<EventEntry>) {
    (forall k :: 0 <= k < |r| ==> r[k].txn in chain) &&
    forall j, k :: 0 <= j < k < |r| ==> KeyLess(chain, r[j], r[k])
  }

  /** `list.sort` by (version, position in the chain), on entries whose keys differ. */
  function Inserted(chain: seq<Uuid>, r: seq<EventEntry>, x: EventEntry): (s: seq<EventEntry>)
    requires Distinct(chain) && KeySorted(chain, r) && x.txn in chain
    requires forall k :: 0 <= k < |r| ==> r[k].version != x.version || r[k].txn != x.txn
    ensures KeySorted(chain, s) && forall y :: y in s <==> y in r || y == x
  {
    if r == [] || KeyLess(chain, r[|r| - 1], x) then r + [x]
    else
      var n := |r| - 1;
      assert r == r[..n] + [r[n]];
      assert KeyLess(chain, x, r[n]);
      var s := Inserted(chain, r[..n], x);
      assert forall y :: y in s ==> KeyLess(chain, y, r[n]);
      s + [r[n]]
  }

  /** The events of the entity on the chain, sorted. */
  method SortedEntries(log: Log, e: Uuid, chain: seq<Uuid>) returns (entries: seq<EventEntry>)
    requires Unique(log, e) && Distinct(chain)
    ensures KeySorted(chain, entries) && forall x :: x in entries <==> x in log && Seen(x, e, chain)
  {
    entries := [];
    var i := 0;
    while i < |log|
      invariant 0 <= i <= |log| && KeySorted(chain, entries)
      invariant forall x :: x in entries <==> x in log[..i] && Seen(x, e, chain)
    {
      assert log[..i + 1] == log[..i] + [log[i]];
      if Seen(log[i], e, chain) {
        forall k | 0 <= k < |entries| ensures entries[k].version != log[i].version || entries[k].txn != log[i].txn {
          assert entries[k] in log[..i];
          var j :| 0 <= j < i && log[j] == entries[k];
        }
        entries := Inserted(chain, entries, log[i]);
      }
      i := i + 1;
    }
    assert log[..i] == log;
  }

  /** The backward sweep: an entry is kept when its version is lower than the last one kept. */
  method Sweep(log: Log, e: Uuid, chain: seq<Uuid>, entries: seq<EventEntry>) returns (kept: seq<EventEntry>)
    requires |entries| > 0 && KeySorted(chain, entries) && forall x :: x in entries <==> x in log && Seen(x, e, chain)
    ensures IsOverlay(log, e, chain, kept)
  {
    hide Index, SpokenFor;
    var i := |entries| - 1;
    kept := [entries[i]];
    ghost var top := i;
    SpokenByFirst(entries[i], chain, kept);
    while i > 0
      invariant 0 <= i <= top < |entries| && |kept| > 0 && kept[0] == entries[top] && entries[i].version == entries[top].version
      invariant VersionSorted(kept) && forall k :: 0 <= k < |kept| ==> kept[k] in entries
      invariant forall k :: i <= k < |entries| ==> SpokenFor(entries[k], chain, kept)
    {
      i := i - 1;
      assert KeyLess(chain, entries[i], entries[i + 1]);
      assert KeyLess(chain, entries[i], entries[top]);
      if entries[i].version < kept[0].version {
        forall k | i < k < |entries| ensures SpokenFor(entries[k], chain, [entries[i]] + kept) {
          SpokenForMore(entries[k], chain, entries[i], kept);
        }
        kept := [entries[i]] + kept;
        top := i;
        assert kept[0] == entries[i];
      } else {
        assert kept[0].version == entries[i].version;
      }
      SpokenByFirst(entries[i], chain, kept);
    }
    forall x | x in log && Seen(x, e, chain) ensures SpokenFor(x, chain, kept) {
      var k :| 0 <= k < |entries| && entries[k] == x;
    }
  }

  lemma {:induction false} SpokenByFirst(x: EventEntry, chain: seq<Uuid>, r: seq<EventEntry>)
    requires x.txn in chain && |r| > 0 && r[0].version == x.version && r[0].txn in chain && Index(chain, r[0].txn) >= Index(chain, x.txn)
    ensures SpokenFor(x, chain, r)
  {
  }

  lemma {:induction false} SpokenForMore(x: EventEntry, chain: seq<Uuid>, y: EventEntry, r: seq<EventEntry>)
    requires x.txn in chain && SpokenFor(x, chain, r)
    ensures SpokenFor(x, chain, [y] + r)
  {
    var k :| 0 <= k < |r| && r[k].version == x.version && r[k].txn in chain && Index(chain, r[k].txn) >= Index(chain, x.txn);
    assert ([y] + r)[k + 1] == r[k];
  }

  /** `_get_event_entries`: the sweep only runs when more than one transaction is present. */
  method EventEntries(log: Log, e: Uuid, chain: seq<Uuid>) returns (r: seq<EventEntry>)
    requires Unique(log, e) && Distinct(chain)
    ensures IsOverlay(log, e, chain, r)
  {
    r := SortedEntries(log, e, chain);
    var txns := set x | x in r :: x.txn;
    if |txns| > 1 {
      assert |r| > 0;
      r := Sweep(log, e, chain, r);
    } else {
      forall j, k | 0 <= j < |r| && 0 <= k < |r| ensures r[j].txn == r[k].txn {
        assert r[j].txn in txns && r[k].txn in txns;
        if r[j].txn != r[k].txn { TwoMembers(txns, r[j].txn, r[k].txn); }
      }
      forall x | x in log && Seen(x, e, chain) ensures SpokenFor(x, chain, r) {
        var k :| 0 <= k < |r| && r[k] == x;
      }
    }
  }

  lemma {:induction false} TwoMembers(s: set<Uuid>, a: Uuid, b: Uuid)
    requires a in s && b in s && a != b
    ensures |s| > 1
  {
    assert |{a, b}| == 2 && {a, b} <= s;
    assert |s - {a, b}| >= 0 && s == {a, b} + (s - {a, b});
  }
}
