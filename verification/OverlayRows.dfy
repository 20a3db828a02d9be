/** The rows of a transaction against the overlay that a reader of the log computes. */
module OverlayRows {
  import opened Wrappers
  import TP = TransactionProtocol
  import Overlay
  import EventSourcing
  import opened SnapshotTable
  import opened TransactionRows
  import opened ProtocolSnapshots

  /** What a transaction sees, as entries of the log. */
  function ChainEntries(log: TP.Log, parents: Parents, t: Uuid, e: Uuid): seq<TP.EventEntry>
    decreases |log|, t
  {
    if log == [] then []
    else
      var n := |log| - 1;
      var own := log[n].txn == t && log[n].entity == e;
      if t == NULL_UUID || parents(t) >= t then
        ChainEntries(log[..n], parents, t, e) + (if log[n].txn == NULL_UUID && log[n].entity == e then [log[n]] else [])
      else if own then ChainEntries(log[..n], parents, t, e) + [log[n]]
      else if WroteEntry(log[..n], t, e) then ChainEntries(log[..n], parents, t, e)
      else ChainEntries(log, parents, parents(t), e)
  }

  predicate WroteEntry(log: TP.Log, t: Uuid, e: Uuid) {
    exists i :: 0 <= i < |log| && log[i].txn == t && log[i].entity == e
  }

  function Meant(meaning: Meaning, entries: seq<TP.EventEntry>): (r: seq<EventSourcing.Event>)
    ensures |r| == |entries| && forall i :: 0 <= i < |r| ==> r[i] == meaning(entries[i])
  {
    seq(|entries|, i requires 0 <= i < |entries| => meaning(entries[i]))
  }

  lemma {:induction false} WrotesMatch(meaning: Meaning, log: TP.Log, t: Uuid, e: Uuid)
    ensures Wrote(LogOf(meaning, log), t, e) <==> WroteEntry(log, t, e)
  {
    if WroteEntry(log, t, e) {
      var i :| 0 <= i < |log| && log[i].txn == t && log[i].entity == e;
      assert LogOf(meaning, log)[i] == EntryOf(meaning, log[i]);
    }
  }

  lemma {:induction false} MeantAppend(meaning: Meaning, a: seq<TP.EventEntry>, x: TP.EventEntry)
    ensures Meant(meaning, a + [x]) == Meant(meaning, a) + [meaning(x)]
  {
  }

  lemma {:induction false} SeenIsMeant(meaning: Meaning, log: TP.Log, parents: Parents, t: Uuid, e: Uuid)
    ensures ChainEvents(LogOf(meaning, log), parents, t, e) == Meant(meaning, ChainEntries(log, parents, t, e))
    decreases |log|, t
  {
    if log == [] {
      assert LogOf(meaning, log) == [];
      EmptyChain(parents, t, e);
    } else {
      var n := |log| - 1;
      var x := EntryOf(meaning, log[n]);
      assert LogOf(meaning, log) == LogOf(meaning, log[..n]) + [x];
      SeenIsMeant(meaning, log[..n], parents, t, e);
      MeantAppend(meaning, ChainEntries(log[..n], parents, t, e), log[n]);
      WrotesMatch(meaning, log[..n], t, e);
      WroteNext(LogOf(meaning, log[..n]), x, t, e);
      hide ChainEvents, Meant, LogOf, Wrote, WroteEntry;
      if t == NULL_UUID || parents(t) >= t {
        OutermostSees(LogOf(meaning, log[..n]), parents, t, e);
        OutermostSees(LogOf(meaning, log), parents, t, e);
        GlobalNext(LogOf(meaning, log[..n]), x, e);
      } else {
        ChainNext(LogOf(meaning, log[..n]), x, parents, t, e);
        if !(log[n].txn == t && log[n].entity == e) && !WroteEntry(log[..n], t, e) {
          NotYet(LogOf(meaning, log), parents, t, e);
          SeenIsMeant(meaning, log, parents, parents(t), e);
        }
      }
    }
  }

  // ---------------------------------------------------------------- the overlay

  predicate Around(parents: Parents, t: Uuid, u: Uuid)
    decreases t
  {
    u == t || (t != NULL_UUID && parents(t) < t && Around(parents, parents(t), u))
  }

  /** Once a transaction on the chain has written the entity, none further out writes it. */
  predicate Settled(log: TP.Log, parents: Parents, t: Uuid, e: Uuid) {
    forall i, j :: 0 <= i < j < |log| && Concerns(log[i], parents, t, e) && Concerns(log[j], parents, t, e) ==> log[i].txn <= log[j].txn
  }

  /** The event is of the entity and on the chain. */
  predicate Concerns(x: TP.EventEntry, parents: Parents, t: Uuid, e: Uuid) { x.entity == e && Around(parents, t, x.txn) }

  /** After a write of t only its own events concern it. */
  lemma {:induction false} LastIsNotAround(log: TP.Log, parents: Parents, t: Uuid, e: Uuid)
    requires Settled(log, parents, t, e) && log != [] && WroteEntry(log[..|log| - 1], t, e)
    requires !(log[|log| - 1].txn == t && log[|log| - 1].entity == e)
    ensures !Concerns(log[|log| - 1], parents, t, e)
  {
    var n := |log| - 1;
    var j :| 0 <= j < n && log[..n][j].txn == t && log[..n][j].entity == e;
    assert Concerns(log[j], parents, t, e);
    if Concerns(log[n], parents, t, e) { AroundIsBelow(parents, t, log[n].txn); }
  }

  lemma {:induction false} AroundIsBelow(parents: Parents, t: Uuid, u: Uuid)
    requires Around(parents, t, u)
    ensures u <= t
    decreases t
  {
    if u != t { AroundIsBelow(parents, parents(t), u); }
  }

  /** Only events of the chain are seen. */
  lemma {:induction false} SeenIsAround(log: TP.Log, parents: Parents, t: Uuid, e: Uuid, k: nat)
    requires k < |ChainEntries(log, parents, t, e)| && Rooted(parents, t)
    ensures var x := ChainEntries(log, parents, t, e)[k]; x in log && x.entity == e && Around(parents, t, x.txn)
    decreases |log|, t
  {
    var n := |log| - 1;
    if t == NULL_UUID || parents(t) >= t {
      if k < |ChainEntries(log[..n], parents, t, e)| { SeenIsAround(log[..n], parents, t, e, k); }
    } else if log[n].txn == t && log[n].entity == e {
      if k < |ChainEntries(log[..n], parents, t, e)| { SeenIsAround(log[..n], parents, t, e, k); }
    } else if WroteEntry(log[..n], t, e) {
      SeenIsAround(log[..n], parents, t, e, k);
    } else {
      SeenIsAround(log, parents, parents(t), e, k);
    }
  }

  /** The chain leads to the outermost log. */
  predicate Rooted(parents: Parents, t: Uuid)
    decreases t
  {
    t == NULL_UUID || (parents(t) < t && Rooted(parents, parents(t)))
  }

  /** If nobody further out interferes, all events of the chain are seen. */
  lemma {:induction false} AroundIsSeen(log: TP.Log, parents: Parents, t: Uuid, e: Uuid, i: nat)
    requires Settled(log, parents, t, e) && Rooted(parents, t) && i < |log| && log[i].entity == e && Around(parents, t, log[i].txn)
    ensures log[i] in ChainEntries(log, parents, t, e)
    decreases |log|, t
  {
    var n := |log| - 1;
    assert i < n ==> log[..n][i] == log[i];
    if t == NULL_UUID {
      if i < n { AroundIsSeen(log[..n], parents, t, e, i); }
    } else if log[n].txn == t && log[n].entity == e {
      if i < n { AroundIsSeen(log[..n], parents, t, e, i); }
    } else if WroteEntry(log[..n], t, e) {
      LastIsNotAround(log, parents, t, e);
      AroundIsSeen(log[..n], parents, t, e, i);
    } else {
      SettledOutside(log, parents, t, e);
      AroundIsSeen(log, parents, parents(t), e, i);
    }
  }

  lemma {:induction false} SettledOutside(log: TP.Log, parents: Parents, t: Uuid, e: Uuid)
    requires Settled(log, parents, t, e) && t != NULL_UUID && parents(t) < t
    ensures Settled(log, parents, parents(t), e)
  {
  }

  ghost predicate Agree(table: TP.Table, parents: Parents) {
    forall t :: t in table ==> table[t].dest == parents(t)
  }

  lemma {:induction false} ChainIsAround(table: TP.Table, parents: Parents, t: Uuid, u: Uuid)
    requires Overlay.Nested(table) && Agree(table, parents) && (t == NULL_UUID || t in table)
    ensures u in Overlay.Chain(table, t) <==> Around(parents, t, u)
    ensures Rooted(parents, t)
    decreases t
  {
    if t != NULL_UUID { ChainIsAround(table, parents, table[t].dest, u); }
  }

  /** Then what is seen is the overlay. */
  lemma {:induction false} SeenIsOverlay(log: TP.Log, table: TP.Table, parents: Parents, t: Uuid, e: Uuid)
    requires Overlay.Nested(table) && Agree(table, parents) && (t == NULL_UUID || t in table) && Settled(log, parents, t, e)
    requires Overlay.VersionSorted(ChainEntries(log, parents, t, e))
    ensures Overlay.IsOverlay(log, e, Overlay.Chain(table, t), ChainEntries(log, parents, t, e))
  {
    var chain, r := Overlay.Chain(table, t), ChainEntries(log, parents, t, e);
    ChainIsAround(table, parents, t, t);
    hide ChainEntries, Settled, Overlay.Chain, Rooted, Around, Overlay.Index;
    forall k | 0 <= k < |r| ensures r[k] in log && Overlay.Seen(r[k], e, chain) {
      SeenIsAround(log, parents, t, e, k);
      ChainIsAround(table, parents, t, r[k].txn);
    }
    forall x | x in log && Overlay.Seen(x, e, chain) ensures Overlay.SpokenFor(x, chain, r) {
      var i :| 0 <= i < |log| && log[i] == x;
      ChainIsAround(table, parents, t, x.txn);
      AroundIsSeen(log, parents, t, e, i);
      var k :| 0 <= k < |r| && r[k] == x;
    }
  }

  lemma {:induction false} SeenIsSorted(meaning: Meaning, log: TP.Log, parents: Parents, t: Uuid, e: Uuid)
    requires KeepsVersions(meaning) && Rising(LogOf(meaning, log), parents)
    ensures Overlay.VersionSorted(ChainEntries(log, parents, t, e))
  {
    SeenIncreases(LogOf(meaning, log), parents, t, e);
    SeenIsMeant(meaning, log, parents, t, e);
    hide ChainEvents, ChainEntries;
    var r := ChainEntries(log, parents, t, e);
    assert forall k :: 0 <= k < |r| ==> Meant(meaning, r)[k].version == r[k].version;
  }

  /**
    Two ways of reading: inside an open transaction, with everything dispatched, the table shows the replay of the overlay
    that is computed from the log, as long as nobody on the chain writes the entity after one further in has.
   */
  lemma {:induction false} RowsShowOverlay(states: seq<State>, steps: seq<Step>, parents: Parents, k: nat, meaning: Meaning, log: TP.Log,
                                           table: TP.Table, t: Uuid, e: Uuid, r: seq<TP.EventEntry>)
    requires SnapshotTable.Run(states, steps) && Atomic(steps) && AllDirect(states, steps) && k < |states|
    requires AlwaysChained(states, parents, k) && Rising(states[k].log, parents) && t != NULL_UUID && Open(states[k].txns, parents, t)
    requires states[k].reached == |states[k].log| && states[k].log == LogOf(meaning, log) && KeepsVersions(meaning)
    requires Overlay.Nested(table) && Agree(table, parents) && t in table && Settled(log, parents, t, e)
    requires Overlay.Unique(log, e) && Overlay.IsOverlay(log, e, Overlay.Chain(table, t), r)
    ensures ReadingOf(Read(states[k].rows, states[k].txns, t, e)) == EventSourcing.Rebuild(Meant(meaning, r))
  {
    hide AllDirect, SnapshotTable.Run, Rising, ChainEvents, ChainEntries, Overlay.IsOverlay, Overlay.Unique, Settled, Agree, Open, Read;
    InsideReadsAreReplay(states, steps, parents, k, t, e);
    assert states[k].log[..states[k].reached] == states[k].log;
    SeenIsSorted(meaning, log, parents, t, e);
    SeenIsMeant(meaning, log, parents, t, e);
    SeenIsOverlay(log, table, parents, t, e);
    Overlay.OverlayIsUnique(log, e, Overlay.Chain(table, t), r, ChainEntries(log, parents, t, e));
  }
}
