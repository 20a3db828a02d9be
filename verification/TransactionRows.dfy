/**
  What the rows of open transactions hold: from its first write of an entity on, a transaction sees what
  its chain showed of the entity then, and its own events on top.
 */
module TransactionRows {
  import opened Wrappers
  import opened FieldDiffs
  import opened EventSourcing
  import opened SnapshotTable

  /** The transaction that another one is stored on top of; it is created before. */
  type Parents = Uuid -> Uuid

  // ---------------------------------------------------------------- what a transaction sees, from the log

  predicate Wrote(log: seq<EventEntry>, t: Uuid, e: Uuid) {
    exists i :: 0 <= i < |log| && log[i].txn == t && log[i].entity == e
  }

  /** The events that a reader inside t sees of an entity after the whole log. */
  function ChainEvents(log: seq<EventEntry>, parents: Parents, t: Uuid, e: Uuid): seq<Event>
    decreases |log|, t
  {
    if t == NULL_UUID || parents(t) >= t then GlobalEvents(log, e)
    else if log == [] then []
    else
      var n := |log| - 1;
      if log[n].txn == t && log[n].entity == e then ChainEvents(log[..n], parents, t, e) + [log[n].event]
      else if Wrote(log[..n], t, e) then ChainEvents(log[..n], parents, t, e)
      else ChainEvents(log, parents, parents(t), e)
  }

  /** The events of one transaction, in order. */
  function OwnEvents(log: seq<EventEntry>, t: Uuid, e: Uuid): seq<Event> {
    if log == [] then []
    else
      var n := |log| - 1;
      OwnEvents(log[..n], t, e) + (if log[n].txn == t && log[n].entity == e then [log[n].event] else [])
  }

  predicate FirstWrite(log: seq<EventEntry>, t: Uuid, e: Uuid, f: nat) {
    f < |log| && log[f].txn == t && log[f].entity == e && !Wrote(log[..f], t, e)
  }

  lemma {:induction false} NothingOwn(log: seq<EventEntry>, t: Uuid, e: Uuid)
    requires !Wrote(log, t, e)
    ensures OwnEvents(log, t, e) == []
  {
    if log != [] {
      var n := |log| - 1;
      assert forall i :: 0 <= i < n ==> log[..n][i] == log[i];
      NothingOwn(log[..n], t, e);
    }
  }

  /** What the chain showed at the first write, and then the transaction's own events. */
  lemma {:induction false} SeenThenOwn(log: seq<EventEntry>, parents: Parents, t: Uuid, e: Uuid, f: nat)
    requires t != NULL_UUID && parents(t) < t && FirstWrite(log, t, e, f)
    ensures ChainEvents(log, parents, t, e) == ChainEvents(log[..f], parents, parents(t), e) + OwnEvents(log, t, e)
    decreases |log|
  {
    hide ChainEvents;
    var n := |log| - 1;
    assert log == log[..n] + [log[n]];
    ChainNext(log[..n], log[n], parents, t, e);
    OwnNext(log[..n], log[n], t, e);
    if f == n {
      NotYet(log[..n], parents, t, e);
      NothingOwn(log[..n], t, e);
    } else {
      assert log[..n][f] == log[f] && log[..n][..f] == log[..f];
      assert Wrote(log[..n], t, e);
      hide Wrote;
      SeenThenOwn(log[..n], parents, t, e, f);
    }
  }

  lemma {:induction false} OwnNext(log: seq<EventEntry>, x: EventEntry, t: Uuid, e: Uuid)
    ensures OwnEvents(log + [x], t, e) == OwnEvents(log, t, e) + (if x.txn == t && x.entity == e then [x.event] else [])
  {
    assert (log + [x])[..|log|] == log;
  }

  /** Before that it sees what the transaction around it sees. */
  lemma {:induction false} NotYet(log: seq<EventEntry>, parents: Parents, t: Uuid, e: Uuid)
    requires t != NULL_UUID && parents(t) < t && !Wrote(log, t, e)
    ensures ChainEvents(log, parents, t, e) == ChainEvents(log, parents, parents(t), e)
  {
    if log == [] {
      EmptyChain(parents, parents(t), e);
    } else {
      var n := |log| - 1;
      assert forall i :: 0 <= i < n ==> log[..n][i] == log[i];
    }
  }

  lemma {:induction false} EmptyChain(parents: Parents, t: Uuid, e: Uuid)
    ensures ChainEvents([], parents, t, e) == []
  {
  }

  lemma {:induction false} WroteNext(log: seq<EventEntry>, x: EventEntry, t: Uuid, e: Uuid)
    ensures Wrote(log + [x], t, e) <==> Wrote(log, t, e) || (x.txn == t && x.entity == e)
  {
    assert forall i :: 0 <= i < |log| ==> (log + [x])[i] == log[i];
    assert (log + [x])[|log|] == x;
  }

  /** One event more: for the writer one event more, and for others at most what their chain gains. */
  lemma {:induction false} ChainNext(log: seq<EventEntry>, x: EventEntry, parents: Parents, t: Uuid, e: Uuid)
    requires t != NULL_UUID && parents(t) < t
    ensures x.txn == t && x.entity == e ==> ChainEvents(log + [x], parents, t, e) == ChainEvents(log, parents, t, e) + [x.event]
    ensures !(x.txn == t && x.entity == e) && Wrote(log, t, e) ==> ChainEvents(log + [x], parents, t, e) == ChainEvents(log, parents, t, e)
  {
    assert (log + [x])[..|log|] == log;
  }

  lemma {:induction false} GlobalNext(log: seq<EventEntry>, x: EventEntry, e: Uuid)
    ensures GlobalEvents(log + [x], e) == GlobalEvents(log, e) + if Global(x, e) then [x.event] else []
  {
    assert (log + [x])[..|log|] == log;
  }

  /** What is seen only grows. */
  lemma {:induction false} ChainGrows(log: seq<EventEntry>, x: EventEntry, parents: Parents, t: Uuid, e: Uuid)
    ensures ChainEvents(log, parents, t, e) <= ChainEvents(log + [x], parents, t, e)
    decreases t
  {
    GlobalNext(log, x, e);
    if t != NULL_UUID && parents(t) < t {
      ChainNext(log, x, parents, t, e);
      WroteNext(log, x, t, e);
      if !(x.txn == t && x.entity == e) && !Wrote(log, t, e) {
        NotYet(log, parents, t, e);
        NotYet(log + [x], parents, t, e);
        ChainGrows(log, x, parents, parents(t), e);
      }
    }
  }

  /** The rule for versions: an event is newer than all that its transaction saw. */
  ghost predicate Rising(log: seq<EventEntry>, parents: Parents) {
    forall n :: 0 <= n < |log| ==> Newest(ChainEvents(log[..n], parents, log[n].txn, log[n].entity), log[n].event)
  }

  predicate Newest(events: seq<Event>, x: Event) {
    forall k :: 0 <= k < |events| ==> events[k].version < x.version
  }

  predicate Increasing(events: seq<Event>) {
    forall j, k :: 0 <= j < k < |events| ==> events[j].version < events[k].version
  }

  lemma {:induction false} RisingBefore(log: seq<EventEntry>, parents: Parents, n: nat)
    requires Rising(log, parents) && n <= |log|
    ensures Rising(log[..n], parents)
  {
    forall i | 0 <= i < n
      ensures Newest(ChainEvents(log[..n][..i], parents, log[..n][i].txn, log[..n][i].entity), log[..n][i].event)
    {
      assert log[..n][..i] == log[..i];
    }
  }

  lemma {:induction false} GlobalIsChain(log: seq<EventEntry>, parents: Parents, e: Uuid)
    ensures ChainEvents(log, parents, NULL_UUID, e) == GlobalEvents(log, e)
  {
  }

  /** Then everybody sees increasing versions. */
  lemma {:induction false} SeenIncreases(log: seq<EventEntry>, parents: Parents, t: Uuid, e: Uuid)
    requires Rising(log, parents)
    ensures Increasing(ChainEvents(log, parents, t, e))
    decreases |log|, t
  {
    if log != [] {
      var n := |log| - 1;
      assert log == log[..n] + [log[n]];
      RisingBefore(log, parents, n);
      hide Rising, ChainEvents;
      SeenIncreases(log[..n], parents, t, e);
      if t == NULL_UUID || parents(t) >= t {
        GlobalIncreases(log, parents, t, e);
      } else {
        ChainNext(log[..n], log[n], parents, t, e);
        WroteNext(log[..n], log[n], t, e);
        if log[n].txn == t && log[n].entity == e {
          NewestNow(log, parents);
        } else if !Wrote(log[..n], t, e) {
          NotYet(log, parents, t, e);
          SeenIncreases(log, parents, parents(t), e);
        }
      }
    } else {
      EmptyChain(parents, t, e);
    }
  }

  lemma {:induction false} NewestNow(log: seq<EventEntry>, parents: Parents)
    requires Rising(log, parents) && log != []
    ensures var n := |log| - 1; Newest(ChainEvents(log[..n], parents, log[n].txn, log[n].entity), log[n].event)
  {
  }

  lemma {:induction false} OutermostSees(log: seq<EventEntry>, parents: Parents, t: Uuid, e: Uuid)
    requires t == NULL_UUID || parents(t) >= t
    ensures ChainEvents(log, parents, t, e) == GlobalEvents(log, e)
  {
  }

  lemma {:induction false} GlobalIncreases(log: seq<EventEntry>, parents: Parents, t: Uuid, e: Uuid)
    requires Rising(log, parents) && log != [] && (t == NULL_UUID || parents(t) >= t)
    requires Increasing(ChainEvents(log[..|log| - 1], parents, t, e))
    ensures Increasing(ChainEvents(log, parents, t, e))
  {
    var n := |log| - 1;
    assert log == log[..n] + [log[n]];
    OutermostSees(log[..n], parents, t, e);
    OutermostSees(log, parents, t, e);
    GlobalNext(log[..n], log[n], e);
    if Global(log[n], e) {
      NewestNow(log, parents);
      OutermostSees(log[..n], parents, NULL_UUID, e);
    }
  }

  // ---------------------------------------------------------------- rows that show what is seen

  function ReadingOf(row: Option<Row>): Reading {
    match row
    case None => Missing
    case Some(Tombstone(_)) => Gone
    case Some(Stored(x)) => Alive(x)
  }

  /** The row, if there is one, is the replay of the events, with the version of the last one. */
  predicate RowFits(row: Option<Row>, events: seq<Event>) {
    match row
    case None => events == []
    case Some(Tombstone(version)) => Rebuild(events) == Gone && HasDelete(events, version)
    case Some(Stored(x)) => Rebuild(events) == Alive(x) && events != [] && x.version == events[|events| - 1].version && NoDelete(events)
  }

  lemma {:induction false} FittingReads(row: Option<Row>, events: seq<Event>)
    requires RowFits(row, events)
    ensures ReadingOf(row) == Rebuild(events)
  {
  }

  /** Deciding on the next event from a row that fits. */
  lemma {:induction false} NextFits(row: Option<Row>, events: seq<Event>, x: Event)
    requires RowFits(row, events) && Newest(events, x) && DecidedFrom(row, x).Some?
    ensures DecidedFrom(row, x).value.Put? && RowFits(Some(DecidedFrom(row, x).value.row), events + [x])
  {
    hide FromDiff, ApplyEvents, ApplyEvent;
    var events' := events + [x];
    assert events'[|events|] == x && forall i :: 0 <= i < |events| ==> events'[i] == events[i];
    if x.action == Delete {
      assert HasDelete(events', x.version);
    } else {
      ExtendedReplay(events, x);
      if row.None? { BuiltVersion(x); } else if row.value.Stored? { VersionAfter(row.value.instance, x); }
    }
  }

  lemma {:induction false} BuiltVersion(x: Event)
    ensures FromDiff(x).Some? ==> FromDiff(x).value.version == x.version
  {
    hide ApplyAll, Flattened;
  }

  /** Deciding once more on an event that is among them. */
  lemma {:induction false} AgainFits(row: Row, events: seq<Event>, k: nat)
    requires RowFits(Some(row), events) && Increasing(events) && k < |events| && DecidedFrom(Some(row), events[k]).Some?
    ensures var w := DecidedFrom(Some(row), events[k]).value; RowFits(Some(if w.Put? then w.row else row), events)
  {
    hide FromDiff, ApplyEvents, ApplyEvent;
    var x := events[k];
    if x.action == Delete {
      assert HasDelete(events, x.version);
      assert row.Tombstone?;
    } else {
      assert row.Stored? ==> x.version <= row.instance.version;
    }
  }

  // ---------------------------------------------------------------- the table

  /** Destinations are stored before, and do not change. */
  predicate Chained(txns: Txns, parents: Parents) {
    forall t :: t in txns ==> txns[t].dest == parents(t) && parents(t) < t && (parents(t) == NULL_UUID || parents(t) in txns)
  }

  /** The transaction and those around it have not ended. */
  predicate Open(txns: Txns, parents: Parents, t: Uuid)
    decreases t
  {
    t == NULL_UUID || (t in txns && !txns[t].final && parents(t) < t && Open(txns, parents, parents(t)))
  }

  function RowAt(rows: Rows, t: Uuid, e: Uuid): Option<Row> { if (e, t) in rows then Some(rows[(e, t)]) else None }

  /** The row of an open transaction shows what it sees, once it has written. */
  predicate OwnRowFits(s: State, parents: Parents, t: Uuid, e: Uuid)
    requires s.reached <= |s.log|
  {
    Wrote(s.log[..s.reached], t, e) ==>
      (e, t) in s.rows && RowFits(Some(s.rows[(e, t)]), ChainEvents(s.log[..s.reached], parents, t, e))
  }

  /** Nobody has a row of an entity before its first write of it. */
  ghost predicate RowsWritten(s: State)
    requires s.reached <= |s.log|
  {
    forall t: Uuid, e: Uuid :: t != NULL_UUID && (e, t) in s.rows ==> Wrote(s.log[..s.reached], t, e)
  }

  ghost predicate RowsFit(s: State, parents: Parents) {
    s.reached <= |s.log| && RowsWritten(s) &&
    (forall e: Uuid :: RowShows(s.rows, GlobalEvents(s.log[..s.reached], e), e)) &&
    forall t: Uuid, e: Uuid :: t != NULL_UUID && Open(s.txns, parents, t) ==> OwnRowFits(s, parents, t, e)
  }

  lemma {:induction false} GlobalFits(rows: Rows, events: seq<Event>, e: Uuid)
    requires RowShows(rows, events, e)
    ensures RowFits(GlobalRow(rows, e), events)
  {
  }

  /** A reader inside an open transaction finds what the transaction sees. */
  lemma {:induction false} ReadFits(s: State, parents: Parents, t: Uuid, e: Uuid)
    requires RowsFit(s, parents) && Chained(s.txns, parents) && NULL_UUID !in s.txns && Open(s.txns, parents, t)
    ensures RowFits(Read(s.rows, s.txns, t, e), ChainEvents(s.log[..s.reached], parents, t, e))
    decreases t
  {
    hide RowFits, ChainEvents, Wrote, GlobalEvents, RowShows;
    var log := s.log[..s.reached];
    if t == NULL_UUID {
      GlobalIsChain(log, parents, e);
      assert RowShows(s.rows, GlobalEvents(log, e), e);
      GlobalFits(s.rows, GlobalEvents(log, e), e);
    } else {
      assert OwnRowFits(s, parents, t, e);
      if !Wrote(log, t, e) {
        assert (e, t) !in s.rows;
        NotYet(log, parents, t, e);
        ReadFits(s, parents, parents(t), e);
      }
    }
  }

  // ---------------------------------------------------------------- every step

  /** What was open after a step was open before it. */
  lemma {:induction false} OpenBefore(s: State, step: Step, s': State, parents: Parents, t: Uuid)
    requires SnapshotTable.Next(s, step, s') && Chained(s.txns, parents) && Open(s'.txns, parents, t) && (t == NULL_UUID || t in s.txns)
    ensures Open(s.txns, parents, t)
    decreases t
  {
    hide Ascending, DecidedNext, Written, Cleaned;
    if t != NULL_UUID { OpenBefore(s, step, s', parents, parents(t)); }
  }

  lemma {:induction false} WritersAreStored(s: State, n: nat, t: Uuid, e: Uuid)
    requires EndsExact(s) && n <= |s.log| && Wrote(s.log[..n], t, e) && t != NULL_UUID
    ensures t in s.txns
  {
    var i :| 0 <= i < n && s.log[..n][i].txn == t && s.log[..n][i].entity == e;
    assert s.log[i].txn == t && EventPrecedes(s, i);
  }

  /** A step that leaves the rows and what has been dispatched. */
  lemma {:induction false} OtherStepFits(s: State, step: Step, s': State, parents: Parents)
    requires Base(s) && SnapshotTable.Next(s, step, s') && RowsFit(s, parents) && Refines(s') && Chained(s.txns, parents)
    requires !step.Write? && !step.Clean?
    ensures RowsFit(s', parents)
  {
    assert s'.reached == s.reached <= |s.log| <= |s'.log| && s'.rows == s.rows && s'.log[..s.reached] == s.log[..s.reached] by {
      hide Ascending, DecidedNext, RowsWritten, RowShows;
    }
    forall t: Uuid, e: Uuid | t != NULL_UUID && Open(s'.txns, parents, t) ensures OwnRowFits(s', parents, t, e) {
      if Wrote(s.log[..s.reached], t, e) {
        WritersAreStored(s, s.reached, t, e);
        OpenBefore(s, step, s', parents, t);
        assert OwnRowFits(s, parents, t, e);
      }
    }
  }

  lemma {:induction false} OpenIsKept(s: State, id: nat, parents: Parents, t: Uuid, e: Uuid)
    requires Enabled(s, Clean(id)) && t != NULL_UUID && Open(s.txns, parents, t)
    ensures RowAt(Apply(s, Clean(id)).rows, t, e) == RowAt(s.rows, t, e)
  {
  }

  lemma {:induction false} CleanFits(s: State, id: nat, s': State, parents: Parents)
    requires SnapshotTable.Next(s, Clean(id), s') && RowsFit(s, parents) && Refines(s')
    ensures RowsFit(s', parents)
  {
    assert s'.reached == s.reached && s'.log == s.log && s'.txns == s.txns && s'.rows.Keys <= s.rows.Keys by {
      hide Ascending, RowsWritten, RowShows;
    }
    forall t: Uuid, e: Uuid | t != NULL_UUID && Open(s'.txns, parents, t) ensures OwnRowFits(s', parents, t, e) {
      OpenIsKept(s, id, parents, t, e);
      assert OwnRowFits(s, parents, t, e);
    }
  }

  /** The write that follows its read. */
  ghost predicate Immediate(s: State, step: Step)
    requires Enabled(s, step)
  {
    step.Write? ==> s.syncs[step.id].pending == DecidedNext(s, step.id)
  }

  /** The events dispatched with the n-th. */
  lemma {:induction false} DispatchedNext(log: seq<EventEntry>, n: nat)
    requires n < |log|
    ensures log[..n + 1] == log[..n] + [log[n]]
  {
  }

  /** A write adds its event to what has been dispatched, if it was not there. */
  lemma {:induction false} WriteIs(s: State, id: nat, s': State)
    requires Base(s) && SnapshotTable.Next(s, Write(id), s')
    ensures var n := s.syncs[id].offset;
            n <= s.reached && n < |s.log| && s.syncs[id].pending.Some? && s'.log == s.log && s'.txns == s.txns &&
            s'.rows == Written(s.rows, s.log[n], s.syncs[id].pending.value) && s'.reached == Max(s.reached, n + 1)
  {
    hide Ascending, RowsClean, EndsExact, Decided;
    assert SyncExact(s, s.syncs[id]);
  }

  lemma {:induction false} WriteFits(s: State, id: nat, s': State, parents: Parents)
    requires Base(s) && SnapshotTable.Next(s, Write(id), s') && Immediate(s, Write(id)) && RowsFit(s, parents) && Refines(s')
    requires Chained(s.txns, parents) && Rising(s.log, parents)
    ensures RowsFit(s', parents)
  {
    WriteIs(s, id, s');
    hide Base, SnapshotTable.Next, Immediate, Rising, Refines, Chained;
    var n := s.syncs[id].offset;
    assert RowsWritten(s') by { WriteKeepsWritten(s, id, s'); }
    forall t: Uuid, e: Uuid | t != NULL_UUID && Open(s'.txns, parents, t) ensures OwnRowFits(s', parents, t, e) {
      if s.log[n].txn == t && s.log[n].entity == e {
        OwnWriteFits(s, id, s', parents);
      } else {
        OtherRowFits(s, id, s', parents, t, e);
      }
    }
    assert forall e: Uuid :: RowShows(s'.rows, GlobalEvents(s'.log[..s'.reached], e), e) by { RefinesRows(s'); }
  }

  lemma {:induction false} RefinesRows(s: State)
    requires Refines(s)
    ensures s.reached <= |s.log| && forall e: Uuid :: RowShows(s.rows, GlobalEvents(s.log[..s.reached], e), e)
  {
  }

  lemma {:induction false} WriteKeepsWritten(s: State, id: nat, s': State)
    requires Base(s) && SnapshotTable.Next(s, Write(id), s') && s.reached <= |s.log| && RowsWritten(s)
    ensures s'.reached <= |s'.log| && RowsWritten(s')
  {
    WriteIs(s, id, s');
    hide Base, SnapshotTable.Next;
    var n := s.syncs[id].offset;
    forall t: Uuid, e: Uuid | t != NULL_UUID && (e, t) in s'.rows ensures Wrote(s'.log[..s'.reached], t, e) {
      if (e, t) in s.rows {
        var i :| 0 <= i < s.reached && s.log[..s.reached][i].txn == t && s.log[..s.reached][i].entity == e;
        assert s'.log[..s'.reached][i] == s.log[..s.reached][i];
      } else {
        assert s'.log[..s'.reached][n] == s.log[n];
      }
    }
  }

  /** An event of somebody else changes nothing that the transaction has written. */
  lemma {:induction false} OthersUnseen(log: seq<EventEntry>, parents: Parents, n: nat, m: nat, t: Uuid, e: Uuid)
    requires n <= m <= |log| && n < |log| && !(log[n].txn == t && log[n].entity == e) && t != NULL_UUID && parents(t) < t
    ensures Wrote(log[..Max(m, n + 1)], t, e) <==> Wrote(log[..m], t, e)
    ensures Wrote(log[..m], t, e) ==> ChainEvents(log[..Max(m, n + 1)], parents, t, e) == ChainEvents(log[..m], parents, t, e)
  {
    hide ChainEvents, Wrote;
    if n == m {
      DispatchedNext(log, n);
      WroteNext(log[..n], log[n], t, e);
      ChainNext(log[..n], log[n], parents, t, e);
    }
  }

  /** The rows of others stay, and show what they showed. */
  lemma {:induction false} OtherRowFits(s: State, id: nat, s': State, parents: Parents, t: Uuid, e: Uuid)
    requires Base(s) && SnapshotTable.Next(s, Write(id), s') && RowsFit(s, parents) && t != NULL_UUID && Open(s.txns, parents, t)
    requires var x := s.log[s.syncs[id].offset]; !(x.txn == t && x.entity == e)
    ensures s'.reached <= |s'.log| && OwnRowFits(s', parents, t, e)
  {
    WriteIs(s, id, s');
    assert OwnRowFits(s, parents, t, e) && parents(t) < t;
    hide Base, SnapshotTable.Next, RowFits, ChainEvents, Wrote, RowsFit, Open;
    OthersUnseen(s.log, parents, s.syncs[id].offset, s.reached, t, e);
  }

  /** The row that is written shows the event on top of what its transaction saw. */
  lemma {:induction false} OwnWriteFits(s: State, id: nat, s': State, parents: Parents)
    requires Base(s) && SnapshotTable.Next(s, Write(id), s') && Immediate(s, Write(id)) && RowsFit(s, parents)
    requires Chained(s.txns, parents) && Rising(s.log, parents)
    requires var x := s.log[s.syncs[id].offset]; x.txn != NULL_UUID && Open(s.txns, parents, x.txn)
    ensures var x := s.log[s.syncs[id].offset]; s'.reached <= |s'.log| && OwnRowFits(s', parents, x.txn, x.entity)
  {
    WriteIs(s, id, s');
    var n := s.syncs[id].offset;
    var x := s.log[n];
    var row := Read(s.rows, s.txns, x.txn, x.entity);
    assert DecidedNext(s, id) == DecidedFrom(row, x.event) && NULL_UUID !in s.txns;
    ReadFits(s, parents, x.txn, x.entity);
    hide Base, SnapshotTable.Next, Immediate, RowFits, DecidedFrom, Read, RowsFit, Chained;
    if n == s.reached {
      DispatchedNext(s.log, n);
      assert Newest(ChainEvents(s.log[..n], parents, x.txn, x.entity), x.event);
      NextFits(row, ChainEvents(s.log[..n], parents, x.txn, x.entity), x.event);
      ChainNext(s.log[..n], x, parents, x.txn, x.entity);
    } else {
      AgainIsFine(s, parents, n);
    }
  }

  /** An event of an open transaction that was dispatched before. */
  lemma {:induction false} AgainIsFine(s: State, parents: Parents, n: nat)
    requires RowsFit(s, parents) && n < s.reached && Rising(s.log, parents)
    requires var x := s.log[n];
             x.txn != NULL_UUID && Open(s.txns, parents, x.txn) && DecidedFrom(Read(s.rows, s.txns, x.txn, x.entity), x.event).Some?
    ensures var x := s.log[n];
            var w := DecidedFrom(Read(s.rows, s.txns, x.txn, x.entity), x.event).value;
            (x.entity, x.txn) in s.rows &&
            RowFits(Some(if w.Put? then w.row else s.rows[(x.entity, x.txn)]), ChainEvents(s.log[..s.reached], parents, x.txn, x.entity))
  {
    var x := s.log[n];
    var log := s.log[..s.reached];
    assert log[n] == x && Wrote(log, x.txn, x.entity);
    assert OwnRowFits(s, parents, x.txn, x.entity);
    var k := SeenIsAmong(log, parents, n);
    RisingBefore(s.log, parents, s.reached);
    SeenIncreases(log, parents, x.txn, x.entity);
    hide RowsFit, Rising, RowFits, DecidedFrom, ChainEvents;
    AgainFits(s.rows[(x.entity, x.txn)], ChainEvents(log, parents, x.txn, x.entity), k);
  }

  /** A transaction sees its own events. */
  lemma {:induction false} SeenIsAmong(log: seq<EventEntry>, parents: Parents, n: nat) returns (k: nat)
    requires n < |log| && log[n].txn != NULL_UUID && parents(log[n].txn) < log[n].txn
    ensures var seen := ChainEvents(log, parents, log[n].txn, log[n].entity); k < |seen| && seen[k] == log[n].event
    decreases |log|
  {
    var last := |log| - 1;
    var t, e := log[n].txn, log[n].entity;
    assert log == log[..last] + [log[last]];
    ChainNext(log[..last], log[last], parents, t, e);
    if n == last {
      k := |ChainEvents(log[..last], parents, t, e)|;
    } else {
      assert log[..last][n] == log[n];
      k := SeenIsAmong(log[..last], parents, n);
      ChainGrows(log[..last], log[last], parents, t, e);
    }
  }

  // ---------------------------------------------------------------- every run

  lemma {:induction false} ReadIsImmediate(s: State, id: nat, s': State)
    requires SnapshotTable.Next(s, ReadNext(id), s') && Enabled(s', Write(id))
    ensures Immediate(s', Write(id))
  {
    hide Ascending, Decided;
  }

  lemma {:induction false} StepFits(s: State, step: Step, s': State, parents: Parents)
    requires Base(s) && SnapshotTable.Next(s, step, s') && Immediate(s, step) && RowsFit(s, parents) && Refines(s')
    requires Chained(s.txns, parents) && Rising(s.log, parents)
    ensures RowsFit(s', parents)
  {
    hide Base, SnapshotTable.Next, Immediate, RowsFit, Refines, Chained, Rising;
    if step.Write? {
      WriteFits(s, step.id, s', parents);
    } else if step.Clean? {
      CleanFits(s, step.id, s', parents);
    } else {
      OtherStepFits(s, step, s', parents);
    }
  }

  lemma {:induction false} InitialFits(s: State, parents: Parents)
    requires Initial(s)
    ensures RowsFit(s, parents)
  {
    assert s.log[..s.reached] == [];
    assert forall e: Uuid :: GlobalEvents([], e) == [];
  }

  lemma {:induction false} LogIsLonger(s: State, step: Step, s': State, parents: Parents)
    requires SnapshotTable.Next(s, step, s') && Rising(s'.log, parents)
    ensures Rising(s.log, parents)
  {
    hide Rising, Ascending, DecidedNext;
    assert s'.log[..|s.log|] == s.log;
    RisingBefore(s'.log, parents, |s.log|);
  }

  ghost predicate AlwaysChained(states: seq<State>, parents: Parents, k: nat) {
    forall j :: 0 <= j <= k && j < |states| ==> Chained(states[j].txns, parents)
  }

  lemma {:induction false} RunFits(states: seq<State>, steps: seq<Step>, parents: Parents, k: nat)
    requires SnapshotTable.Run(states, steps) && Atomic(steps) && AllDirect(states, steps) && k < |states|
    requires AlwaysChained(states, parents, k) && Rising(states[k].log, parents)
    ensures RowsFit(states[k], parents)
  {
    hide RowsFit, Rising, AllDirect, Base, Chained, Refines;
    if k == 0 {
      InitialFits(states[0], parents);
    } else {
      var s, step := states[k - 1], steps[k - 1];
      assert SnapshotTable.Next(s, step, states[k]);
      LogIsLonger(s, step, states[k], parents);
      RunFits(states, steps, parents, k - 1);
      RunKeepsBase(states, steps, k - 1);
      assert Immediate(s, step) by { WritesAreImmediate(states, steps, k - 1); }
      assert Refines(states[k]) by { AtomicRunRefines(states, steps, k); }
      assert Chained(s.txns, parents);
      StepFits(s, step, states[k], parents);
    }
  }

  lemma {:induction false} WritesAreImmediate(states: seq<State>, steps: seq<Step>, k: nat)
    requires SnapshotTable.Run(states, steps) && Atomic(steps) && k < |steps|
    ensures Enabled(states[k], steps[k]) && Immediate(states[k], steps[k])
  {
    assert SnapshotTable.Next(states[k], steps[k], states[k + 1]);
    if steps[k].Write? {
      assert SnapshotTable.Next(states[k - 1], steps[k - 1], states[k]);
      ReadIsImmediate(states[k - 1], steps[k].id, states[k]);
    }
  }

  lemma {:induction false} AtomicRunRefines(states: seq<State>, steps: seq<Step>, k: nat)
    requires SnapshotTable.Run(states, steps) && Atomic(steps) && AllDirect(states, steps) && k < |states|
    ensures Refines(states[k])
  {
    AtomicRunIsGuarded(states, steps, k);
    GuardedRunKeeps(states, steps, k);
  }

  /** What a row shows of what was dispatched, from a table that fits. */
  lemma {:induction false} FittingTable(s: State, parents: Parents, t: Uuid, e: Uuid)
    requires RowsFit(s, parents) && Chained(s.txns, parents) && NULL_UUID !in s.txns && t != NULL_UUID && Open(s.txns, parents, t)
    ensures (e, t) in s.rows <==> Wrote(s.log[..s.reached], t, e)
    ensures ReadingOf(Read(s.rows, s.txns, t, e)) == Rebuild(ChainEvents(s.log[..s.reached], parents, t, e))
    ensures (e, t) in s.rows ==> ReadingOf(RowAt(s.rows, t, e)) == Rebuild(ChainEvents(s.log[..s.reached], parents, t, e))
  {
    ReadFits(s, parents, t, e);
    hide ChainEvents, Rebuild, RowFits, Wrote;
    var log := s.log[..s.reached];
    FittingReads(Read(s.rows, s.txns, t, e), ChainEvents(log, parents, t, e));
    assert OwnRowFits(s, parents, t, e);
    if (e, t) in s.rows { FittingReads(RowAt(s.rows, t, e), ChainEvents(log, parents, t, e)); }
  }

  /** Its first write of the entity is among what has been dispatched. */
  predicate FirstDispatched(s: State, t: Uuid, e: Uuid, f: nat) {
    f < s.reached <= |s.log| && FirstWrite(s.log[..s.reached], t, e, f)
  }

  /**
    The rows of open transactions: if dispatching an event is not interrupted and reads of global events are direct, the
    row of a transaction that is open with all around it is the replay of what its chain showed of the entity at its
    first write, followed by its own events in order.
   */
  lemma {:induction false} OwnRowIsReplay(states: seq<State>, steps: seq<Step>, parents: Parents, k: nat, t: Uuid, e: Uuid, f: nat)
    requires SnapshotTable.Run(states, steps) && Atomic(steps) && AllDirect(states, steps) && k < |states|
    requires AlwaysChained(states, parents, k) && Rising(states[k].log, parents)
    requires t != NULL_UUID && Open(states[k].txns, parents, t) && FirstDispatched(states[k], t, e, f)
    ensures var s := states[k];
            (e, t) in s.rows &&
            ReadingOf(RowAt(s.rows, t, e)) ==
            Rebuild(ChainEvents(s.log[..f], parents, parents(t), e) + OwnEvents(s.log[..s.reached], t, e))
  {
    hide AllDirect, Rising, ChainEvents, Rebuild, RowFits, OwnEvents, RowsFit;
    var s := states[k];
    RunFits(states, steps, parents, k);
    RunKeepsBase(states, steps, k);
    NullIsNoTxn(s);
    assert Chained(s.txns, parents);
    hide SnapshotTable.Run, Base, Chained;
    FittingTable(s, parents, t, e);
    var log := s.log[..s.reached];
    FirstIsWritten(log, t, e, f);
    assert log[..f] == s.log[..f];
    assert parents(t) < t;
    SeenThenOwn(log, parents, t, e, f);
  }

  /**
    Such a transaction has a row exactly of the entities that it has written among what was dispatched, and a reader
    inside it finds the replay of what it sees: its own events on top, or what the transaction around it sees.
   */
  lemma {:induction false} InsideReadsAreReplay(states: seq<State>, steps: seq<Step>, parents: Parents, k: nat, t: Uuid, e: Uuid)
    requires SnapshotTable.Run(states, steps) && Atomic(steps) && AllDirect(states, steps) && k < |states|
    requires AlwaysChained(states, parents, k) && Rising(states[k].log, parents) && t != NULL_UUID && Open(states[k].txns, parents, t)
    ensures var s := states[k];
            s.reached <= |s.log| && ((e, t) in s.rows <==> Wrote(s.log[..s.reached], t, e)) &&
            ReadingOf(Read(s.rows, s.txns, t, e)) == Rebuild(ChainEvents(s.log[..s.reached], parents, t, e))
  {
    hide AllDirect, Rising, ChainEvents, Rebuild, RowsFit;
    var s := states[k];
    RunFits(states, steps, parents, k);
    RunKeepsBase(states, steps, k);
    NullIsNoTxn(s);
    assert Chained(s.txns, parents);
    hide SnapshotTable.Run, Chained;
    FittingTable(s, parents, t, e);
  }

  lemma {:induction false} FirstIsWritten(log: seq<EventEntry>, t: Uuid, e: Uuid, f: nat)
    requires FirstWrite(log, t, e, f)
    ensures f < |log| && Wrote(log, t, e)
  {
  }
}
