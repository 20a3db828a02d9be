/**
  The snapshot table kept up to date from the log of events. Any number of synchronisations run at
  once, started by readers: each takes the events after the stored offset one by one, reads the row
  an event is about and later writes it, then drops the rows of the transactions that ended and
  stores its offset. Meanwhile others append to the log and end transactions.
 */
module SnapshotTable {
  import opened Wrappers
  import opened FieldDiffs
  import opened EventSourcing

  type Uuid = nat
  const NULL_UUID: Uuid := 0

  /** A stored event; its id is its position in the log plus one. */
  datatype EventEntry = EventEntry(entity: Uuid, txn: Uuid, event: Event)

  /** `final` is COMMITTED or REJECTED; `offset` is the `event_offset` saved with it. */
  datatype Txn = Txn(dest: Uuid, final: bool, offset: nat)

  datatype Row = Tombstone(version: nat) | Stored(instance: Instance)

  type Rows = map<(Uuid, Uuid), Row>

  type Txns = map<Uuid, Txn>

  /** What a synchronisation is about to write for the event it has read: a row, or nothing for an old version. */
  datatype Writing = Put(row: Row) | Skip

  /**
    `reader` is the transaction of the read that started the synchronisation, or the null uuid. One that
    was broken off by an exception stays, as history.
   */
  datatype Sync = Sync(reader: Uuid, initial: nat, offset: nat, pending: Option<Writing>, cleaned: bool, broken: bool)

  /** `reached` is history: how far the log was ever dispatched. */
  datatype State = State(log: seq<EventEntry>, txns: Txns, rows: Rows, stored: nat, syncs: map<nat, Sync>, reached: nat)

  // ---------------------------------------------------------------- one event

  /** The row that is read inside a transaction: the innermost one there is. */
  function Read(rows: Rows, txns: Txns, t: Uuid, e: Uuid): Option<Row>
    decreases t
  {
    if (e, t) in rows then Some(rows[(e, t)])
    else if t == NULL_UUID then None
    else if t in txns && txns[t].dest < t then Read(rows, txns, txns[t].dest, e)
    else Read(rows, txns, NULL_UUID, e)
  }

  /** An event of a stored transaction is looked up through that one, any other through the reader's. */
  function Through(txns: Txns, reader: Uuid, x: EventEntry): Uuid { if x.txn in txns then x.txn else reader }

  /** `_dispatch_one` up to its write; an older version than the row's is passed over; `None` is an exception. */
  function Decided(rows: Rows, txns: Txns, reader: Uuid, x: EventEntry): Option<Writing> {
    DecidedFrom(Read(rows, txns, Through(txns, reader, x), x.entity), x.event)
  }

  function DecidedFrom(previous: Option<Row>, x: Event): Option<Writing> {
    if x.action == Delete then Some(Put(Tombstone(x.version)))
    else if previous.None? then
      var built := FromDiff(x);
      if built.None? then None else Some(Put(Stored(built.value)))
    else if previous.value.Tombstone? then None
    else if previous.value.instance.version >= x.version then Some(Skip)
    else
      var updated := ApplyEvent(previous.value.instance, x);
      if updated.None? then None else Some(Put(Stored(updated.value)))
  }

  /** The upsert, which looks at no version. */
  function Written(rows: Rows, x: EventEntry, w: Writing): Rows {
    if w.Put? then rows[(x.entity, x.txn) := w.row] else rows
  }

  /** `_clean_transactions`: the transactions that ended after the offset. */
  function Cleaned(rows: Rows, txns: Txns, offset: nat): Rows {
    map key | key in rows && !(key.1 in txns && txns[key.1].final && txns[key.1].offset > offset) :: rows[key]
  }

  // ---------------------------------------------------------------- the steps

  datatype Step =
    | Append(entry: EventEntry)
    | SaveOpen(txn: Uuid, dest: Uuid, offset: nat)
    | SaveFinal(txn: Uuid)
    | Start(id: nat, reader: Uuid)
    | ReadNext(id: nat)
    | Write(id: nat)
    | Clean(id: nat)
    | Store(id: nat)
    | Abort(id: nat)

  /** A synchronisation that is still taking events. */
  predicate Going(s: State, id: nat) {
    id in s.syncs && !s.syncs[id].broken && !s.syncs[id].cleaned
  }

  /** What a synchronisation decides about its next event. */
  function DecidedNext(s: State, id: nat): Option<Writing>
    requires id in s.syncs && s.syncs[id].offset < |s.log|
  {
    Decided(s.rows, s.txns, s.syncs[id].reader, s.log[s.syncs[id].offset])
  }

  /** A transaction writes until it ends, and a synchronisation may stop taking events at any offset. */
  predicate Enabled(s: State, step: Step) {
    match step
    case Append(x) => x.txn == NULL_UUID || (x.txn in s.txns && !s.txns[x.txn].final)
    case SaveOpen(t, _, _) => t != NULL_UUID && (t in s.txns ==> !s.txns[t].final)
    case SaveFinal(t) => t in s.txns && !s.txns[t].final
    case Start(id, _) => id !in s.syncs
    case ReadNext(id) =>
      Going(s, id) && s.syncs[id].pending.None? && s.syncs[id].offset < |s.log| &&
      DecidedNext(s, id).Some?
    case Write(id) => Going(s, id) && s.syncs[id].pending.Some? && s.syncs[id].offset < |s.log|
    case Clean(id) => Going(s, id) && s.syncs[id].pending.None?
    case Store(id) => Storing(s, id)
    case Abort(id) => id in s.syncs && !s.syncs[id].broken
  }

  function Max(a: nat, b: nat): nat { if a < b then b else a }

  function WithSync(s: State, id: nat, sync: Sync): State { s.(syncs := s.syncs[id := sync]) }

  function Apply(s: State, step: Step): State
    requires Enabled(s, step)
  {
    match step
    case Append(x) => s.(log := s.log + [x])
    case SaveOpen(t, dest, offset) => s.(txns := s.txns[t := Txn(dest, false, offset)])
    case SaveFinal(t) => s.(txns := s.txns[t := Txn(s.txns[t].dest, true, |s.log| + 1)])
    case Start(id, reader) => WithSync(s, id, Sync(reader, s.stored, s.stored, None, false, false))
    case ReadNext(id) => WithSync(s, id, s.syncs[id].(pending := DecidedNext(s, id)))
    case Write(id) =>
      var sync := s.syncs[id];
      WithSync(s, id, sync.(offset := sync.offset + 1, pending := None)).(
        rows := Written(s.rows, s.log[sync.offset], sync.pending.value), reached := Max(s.reached, sync.offset + 1))
    case Clean(id) =>
      var sync := s.syncs[id];
      WithSync(s, id, sync.(cleaned := true)).(
        rows := if sync.initial < sync.offset then Cleaned(s.rows, s.txns, sync.initial) else s.rows)
    case Store(id) => s.(stored := Max(s.stored, s.syncs[id].offset), syncs := s.syncs - {id})
    case Abort(id) => WithSync(s, id, s.syncs[id].(broken := true))
  }

  ghost predicate Next(s: State, step: Step, s': State) {
    Enabled(s, step) && s' == Apply(s, step) && Ascending(s'.log)
  }

  /** The versions of an entity's global events go up along the log. */
  predicate Ascending(log: seq<EventEntry>) {
    forall i, j :: 0 <= i < j < |log| && Global(log[i], log[i].entity) && Global(log[j], log[i].entity) ==>
      log[i].event.version < log[j].event.version
  }

  predicate Global(x: EventEntry, e: Uuid) { x.txn == NULL_UUID && x.entity == e }

  predicate Initial(s: State) {
    s.log == [] && s.txns == map[] && s.rows == map[] && s.stored == 0 && s.syncs == map[] && s.reached == 0
  }

  ghost predicate Run(states: seq<State>, steps: seq<Step>) {
    |states| == |steps| + 1 && Initial(states[0]) && forall k :: 0 <= k < |steps| ==> Next(states[k], steps[k], states[k + 1])
  }

  // ---------------------------------------------------------------- what every run keeps

  /** What is about to be written is of the event's version: a tombstone exactly for a deletion. */
  predicate Suits(w: Writing, x: Event) {
    match w
    case Put(Tombstone(version)) => x.action == Delete && version == x.version
    case Put(Stored(y)) => x.action != Delete && y.version == x.version
    case Skip => x.action != Delete
  }

  lemma {:induction false} DecisionSuits(previous: Option<Row>, x: Event)
    requires DecidedFrom(previous, x).Some?
    ensures Suits(DecidedFrom(previous, x).value, x)
  {
    hide ApplyAll, Flattened;
  }

  predicate SyncExact(s: State, sync: Sync) {
    sync.initial <= s.stored && sync.initial <= sync.offset <= s.reached &&
    (sync.pending.Some? ==> !sync.cleaned && sync.offset < |s.log| && Suits(sync.pending.value, s.log[sync.offset].event))
  }

  predicate Furthest(s: State) {
    s.reached == s.stored || exists id :: id in s.syncs && s.syncs[id].offset == s.reached
  }

  ghost predicate OffsetsExact(s: State) {
    s.stored <= s.reached <= |s.log| && (forall id :: id in s.syncs ==> SyncExact(s, s.syncs[id])) && Furthest(s)
  }

  /** The events of an ended transaction precede its offset. */
  ghost predicate EndsExact(s: State) {
    NULL_UUID !in s.txns && (forall i :: 0 <= i < |s.log| && s.log[i].txn != NULL_UUID ==> EventPrecedes(s, i)) &&
    forall t :: t in s.txns && s.txns[t].final ==> s.txns[t].offset <= |s.log| + 1
  }

  predicate EventPrecedes(s: State, i: nat)
    requires i < |s.log|
  {
    s.log[i].txn in s.txns && (s.txns[s.log[i].txn].final ==> i + 1 < s.txns[s.log[i].txn].offset)
  }

  /** A synchronisation that is about to store its offset. */
  predicate Storing(s: State, id: nat) { id in s.syncs && s.syncs[id].cleaned && !s.syncs[id].broken }

  /** The transaction ended after every offset that is stored or about to be. */
  predicate EndedLater(s: State, t: Uuid)
    requires t in s.txns
  {
    s.txns[t].offset > s.stored && forall id :: id in s.syncs && Storing(s, id) ==> s.txns[t].offset > s.syncs[id].offset
  }

  /** The synchronisation, under way or broken off, has dispatched an event of the transaction and has not cleaned up since. */
  predicate Responsible(s: State, id: nat, t: Uuid) {
    id in s.syncs && !s.syncs[id].cleaned &&
    exists i :: s.syncs[id].initial <= i < s.syncs[id].offset && i < |s.log| && s.log[i].txn == t
  }

  predicate Excused(s: State, t: Uuid)
    requires t in s.txns
  {
    EndedLater(s, t) || exists id :: id in s.syncs && Responsible(s, id, t)
  }

  ghost predicate RowsClean(s: State) {
    forall e: Uuid, t: Uuid :: (e, t) in s.rows && t in s.txns && s.txns[t].final ==> Excused(s, t)
  }

  ghost predicate Base(s: State) {
    Ascending(s.log) && OffsetsExact(s) && EndsExact(s) && RowsClean(s)
  }

  lemma {:induction false} EndsKeep(s: State, step: Step, s': State)
    requires Base(s) && Next(s, step, s')
    ensures EndsExact(s')
  {
    hide RowsClean, OffsetsExact, Ascending, Decided, Written, Cleaned;
    forall i | 0 <= i < |s'.log| && s'.log[i].txn != NULL_UUID ensures EventPrecedes(s', i) {
      if i < |s.log| { assert EventPrecedes(s, i); }
    }
  }

  lemma {:induction false} OffsetsKeep(s: State, step: Step, s': State)
    requires Base(s) && Next(s, step, s')
    ensures OffsetsExact(s') && s.stored <= s'.stored
  {
    hide RowsClean, EndsExact, Ascending, Decided, Written, Cleaned, Furthest;
    forall id | id in s'.syncs ensures SyncExact(s', s'.syncs[id]) {
      if id in s.syncs {
        assert SyncExact(s, s.syncs[id]);
        if step == ReadNext(id) { DecisionNextSuits(s, id); }
        if s.syncs[id].pending.Some? { assert s'.log[s.syncs[id].offset] == s.log[s.syncs[id].offset]; }
      }
    }
    FurthestKeeps(s, step, s');
  }

  lemma {:induction false} DecisionNextSuits(s: State, id: nat)
    requires Enabled(s, ReadNext(id))
    ensures Suits(DecidedNext(s, id).value, s.log[s.syncs[id].offset].event)
  {
    var x := s.log[s.syncs[id].offset];
    DecisionSuits(Read(s.rows, s.txns, Through(s.txns, s.syncs[id].reader, x), x.entity), x.event);
  }

  lemma {:induction false} FurthestKeeps(s: State, step: Step, s': State)
    requires Base(s) && Next(s, step, s')
    ensures Furthest(s')
  {
    hide RowsClean, EndsExact, Ascending, Decided, Written, Cleaned;
    if s.reached != s.stored {
      var id :| id in s.syncs && s.syncs[id].offset == s.reached;
      if id in s'.syncs && s'.syncs[id].offset == s'.reached {
      } else if step.Write? {
        assert step.id in s'.syncs && s'.syncs[step.id].offset == s'.reached;
      }
    } else if step.Write? {
      assert SyncExact(s, s.syncs[step.id]);
      if s'.reached != s.reached { assert step.id in s'.syncs && s'.syncs[step.id].offset == s'.reached; }
    }
  }

  /** A transaction that is excused stays so, unless the one synchronisation that excuses it cleans up. */
  lemma {:induction false} ExcuseKeeps(s: State, step: Step, s': State, t: Uuid)
    requires Base(s) && Next(s, step, s') && !step.Clean? && t in s.txns && s.txns[t].final && Excused(s, t)
    requires t in s'.txns && s'.txns[t] == s.txns[t]
    ensures Excused(s', t)
  {
    hide RowsClean, EndsExact, Ascending, Decided, Written, Cleaned;
    hide EndedLater;
    if EndedLater(s, t) {
      LaterStays(s, step, s', t);
    } else {
      var id :| id in s.syncs && Responsible(s, id, t);
      ResponsibleStays(s, step, s', t, id);
    }
  }

  lemma {:induction false} ResponsibleStays(s: State, step: Step, s': State, t: Uuid, id: nat)
    requires Next(s, step, s') && !step.Clean? && Responsible(s, id, t)
    ensures Responsible(s', id, t)
  {
    hide Ascending, DecidedNext, Written, Cleaned;
    var i :| s.syncs[id].initial <= i < s.syncs[id].offset && i < |s.log| && s.log[i].txn == t;
    assert s'.log[i] == s.log[i];
  }

  lemma {:induction false} FinalTxnStays(s: State, step: Step, s': State, t: Uuid)
    requires Next(s, step, s') && t in s.txns && s.txns[t].final
    ensures t in s'.txns && s'.txns[t] == s.txns[t]
  {
    hide Ascending, Decided, Written, Cleaned;
  }

  lemma {:induction false} CleanExcuses(s: State, id: nat, t: Uuid)
    requires Base(s) && Enabled(s, Clean(id)) && t in s.txns && s.txns[t].final && Excused(s, t)
    requires s.syncs[id].initial < s.syncs[id].offset ==> s.txns[t].offset <= s.syncs[id].initial
    ensures Excused(Apply(s, Clean(id)), t)
  {
    hide RowsClean, Ascending, Cleaned;
    var s', sync := Apply(s, Clean(id)), s.syncs[id];
    assert SyncExact(s, sync);
    if EndedLater(s, t) {
      assert EndedLater(s', t);
    } else {
      var id' :| id' in s.syncs && Responsible(s, id', t);
      var i :| s.syncs[id'].initial <= i < s.syncs[id'].offset && i < |s.log| && s.log[i].txn == t;
      assert t != NULL_UUID;
      assert EventPrecedes(s, i);
      assert id' != id;
      assert Responsible(s', id', t);
    }
  }

  lemma {:induction false} RowsKeepClean(s: State, step: Step, s': State)
    requires Base(s) && Next(s, step, s')
    ensures RowsClean(s')
  {
    hide OffsetsExact, Ascending, Decided, Excused;
    forall e: Uuid, t: Uuid | (e, t) in s'.rows && t in s'.txns && s'.txns[t].final ensures Excused(s', t) {
      if t in s.txns && s.txns[t].final {
        FinalTxnStays(s, step, s', t);
        if (e, t) !in s.rows {
          WriterAnswers(s, step.id, t);
        } else if step.Clean? {
          CleanExcuses(s, step.id, t);
        } else {
          ExcuseKeeps(s, step, s', t);
        }
      } else {
        JustEnded(s, t);
      }
    }
  }

  lemma {:induction false} WriterAnswers(s: State, id: nat, t: Uuid)
    requires Base(s) && Enabled(s, Write(id)) && s.log[s.syncs[id].offset].txn == t && t in s.txns
    ensures Excused(Apply(s, Write(id)), t)
  {
    hide RowsClean, EndsExact, Ascending, Written;
    var i := s.syncs[id].offset;
    assert SyncExact(s, s.syncs[id]);
    assert Responsible(Apply(s, Write(id)), id, t);
  }

  lemma {:induction false} JustEnded(s: State, t: Uuid)
    requires Base(s) && Enabled(s, SaveFinal(t))
    ensures Excused(Apply(s, SaveFinal(t)), t)
  {
    hide RowsClean, EndsExact, Ascending;
    var s' := Apply(s, SaveFinal(t));
    forall id | Storing(s', id) ensures s'.txns[t].offset > s'.syncs[id].offset { assert SyncExact(s, s.syncs[id]); }
    assert EndedLater(s', t);
  }

  lemma {:induction false} BaseKeeps(s: State, step: Step, s': State)
    requires Base(s) && Next(s, step, s')
    ensures Base(s') && s.stored <= s'.stored
  {
    hide OffsetsExact, EndsExact, RowsClean, Ascending;
    EndsKeep(s, step, s');
    OffsetsKeep(s, step, s');
    RowsKeepClean(s, step, s');
  }

  lemma {:induction false} RunKeepsBase(states: seq<State>, steps: seq<Step>, k: nat)
    requires Run(states, steps) && k < |states|
    ensures Base(states[k]) && forall j :: 0 <= j <= k ==> states[j].stored <= states[k].stored
  {
    hide Next;
    if k > 0 {
      RunKeepsBase(states, steps, k - 1);
      BaseKeeps(states[k - 1], steps[k - 1], states[k]);
    }
  }

  /**
    Clean-up, with any number of synchronisations. After one ended at an offset, a row of a transaction
    that ended by then is there only if some synchronisation, under way or broken off, has dispatched
    an event of that transaction itself and has not cleaned up since.
   */
  lemma {:induction false} CleanUpIsComplete(states: seq<State>, steps: seq<Step>, k: nat, m: nat, id: nat, e: Uuid, t: Uuid)
    requires Run(states, steps) && k < |steps| && steps[k] == Store(id) && k < m < |states|
    requires t in states[m].txns && states[m].txns[t].final
    requires id in states[k].syncs ==> states[m].txns[t].offset <= states[k].syncs[id].offset
    ensures (e, t) in states[m].rows ==> exists other :: other in states[m].syncs && Responsible(states[m], other, t)
  {
    hide Responsible;
    assert Next(states[k], steps[k], states[k + 1]);
    RunKeepsBase(states, steps, m);
    assert (e, t) in states[m].rows ==> Excused(states[m], t);
  }

  /** No row belongs to a transaction that ended by an offset that is stored or about to be. */
  ghost predicate Tidy(s: State) {
    forall e: Uuid, t: Uuid :: (e, t) in s.rows && t in s.txns && s.txns[t].final ==> EndedLater(s, t)
  }

  /** The write of a row of a transaction that ended by such an offset. */
  predicate Late(s: State, step: Step)
    requires Enabled(s, step)
  {
    step.Write? && s.syncs[step.id].pending.value.Put? &&
    var t := s.log[s.syncs[step.id].offset].txn;
    t in s.txns && s.txns[t].final && !EndedLater(s, t)
  }

  /** Exactly the late writes make a tidy table untidy. */
  lemma {:induction false} LateIsExact(s: State, step: Step, s': State)
    requires Base(s) && Tidy(s) && Next(s, step, s')
    ensures Tidy(s') <==> !Late(s, step)
  {
    hide EndsExact, RowsClean, Ascending, DecidedNext;
    if Late(s, step) {
      var x := s.log[s.syncs[step.id].offset];
      assert (x.entity, x.txn) in s'.rows && !EndedLater(s', x.txn) by { LaterStays(s, step, s', x.txn); }
    } else {
      forall e: Uuid, t: Uuid | (e, t) in s'.rows && t in s'.txns && s'.txns[t].final ensures EndedLater(s', t) {
        if t in s.txns && s.txns[t].final {
          FinalTxnStays(s, step, s', t);
          assert EndedLater(s, t);
          if step.Clean? { CleanedLater(s, step.id, t); } else { LaterStays(s, step, s', t); }
        } else {
          EndedNow(s, step, s', t);
        }
      }
    }
  }

  lemma {:induction false} LaterStays(s: State, step: Step, s': State, t: Uuid)
    requires Base(s) && Next(s, step, s') && !step.Clean? && t in s.txns && t in s'.txns && s'.txns[t] == s.txns[t]
    ensures EndedLater(s, t) ==> EndedLater(s', t)
    ensures step.Write? && EndedLater(s', t) ==> EndedLater(s, t)
  {
    hide EndsExact, RowsClean, Ascending, DecidedNext, Written, Furthest;
    if step.Write? && EndedLater(s', t) {
      forall id | Storing(s, id) ensures s.txns[t].offset > s.syncs[id].offset { assert Storing(s', id); }
    }
  }

  lemma {:induction false} CleanedLater(s: State, id: nat, t: Uuid)
    requires Base(s) && Enabled(s, Clean(id)) && t in s.txns && s.txns[t].final && EndedLater(s, t)
    requires s.syncs[id].initial < s.syncs[id].offset ==> s.txns[t].offset <= s.syncs[id].initial
    ensures EndedLater(Apply(s, Clean(id)), t)
  {
    hide EndsExact, RowsClean, Ascending, Cleaned, Furthest;
    assert SyncExact(s, s.syncs[id]);
  }

  lemma {:induction false} EndedNow(s: State, step: Step, s': State, t: Uuid)
    requires Base(s) && Next(s, step, s') && t in s'.txns && s'.txns[t].final && !(t in s.txns && s.txns[t].final)
    ensures EndedLater(s', t)
  {
    hide EndsExact, RowsClean, Ascending, DecidedNext, Written, Cleaned, Furthest;
    forall id | Storing(s', id) ensures s'.txns[t].offset > s'.syncs[id].offset { assert SyncExact(s, s.syncs[id]); }
  }

  /**
    Clean-up, exactly: with any number of synchronisations the table is tidy at every point of a run if
    and only if no write is late.
   */
  lemma {:induction false} CleanUpIsExact(states: seq<State>, steps: seq<Step>, k: nat)
    requires Run(states, steps) && k < |states|
    ensures (forall j :: 0 <= j <= k ==> Tidy(states[j])) <==>
            (forall j :: 0 <= j < k ==> Enabled(states[j], steps[j]) && !Late(states[j], steps[j]))
    decreases k
  {
    hide Base, Late, Apply, Ascending;
    if k > 0 {
      CleanUpIsExact(states, steps, k - 1);
      RunKeepsBase(states, steps, k - 1);
      assert Next(states[k - 1], steps[k - 1], states[k]);
      if Tidy(states[k - 1]) { LateIsExact(states[k - 1], steps[k - 1], states[k]); }
    }
  }

  // ---------------------------------------------------------------- rows and replay

  function GlobalEvents(log: seq<EventEntry>, e: Uuid): seq<Event>
    decreases |log|
  {
    if log == [] then []
    else
      var n := |log| - 1;
      GlobalEvents(log[..n], e) + (if Global(log[n], e) then [log[n].event] else [])
  }

  /** What a reader of the table finds for an entity, outside transactions. */
  function Found(rows: Rows, e: Uuid): Reading {
    if (e, NULL_UUID) !in rows then Missing
    else if rows[(e, NULL_UUID)].Tombstone? then Gone
    else Alive(rows[(e, NULL_UUID)].instance)
  }

  /** Every reader outside transactions finds the replay of the events dispatched so far. */
  ghost predicate Shows(s: State) {
    s.reached <= |s.log| && forall e: Uuid :: Found(s.rows, e) == Rebuild(GlobalEvents(s.log[..s.reached], e))
  }

  predicate NoDelete(events: seq<Event>) {
    forall i :: 0 <= i < |events| ==> events[i].action != Delete
  }

  predicate HasDelete(events: seq<Event>, version: nat) {
    exists i :: 0 <= i < |events| && events[i].action == Delete && events[i].version == version
  }

  /** Nothing but deletions comes after a deletion. */
  predicate DeletesLast(events: seq<Event>) {
    forall i, j :: 0 <= i < |events| && 0 <= j < |events| && events[i].action == Delete && events[j].action != Delete ==>
      events[j].version < events[i].version
  }

  function GlobalRow(rows: Rows, e: Uuid): Option<Row> { if (e, NULL_UUID) in rows then Some(rows[(e, NULL_UUID)]) else None }

  function VersionOf(row: Row): nat { if row.Tombstone? then row.version else row.instance.version }

  /** The row shows the replay of the events, and its version is one of theirs. */
  ghost predicate RowShows(rows: Rows, events: seq<Event>, e: Uuid) {
    Found(rows, e) == Rebuild(events) &&
    ((e, NULL_UUID) in rows ==>
       events != [] &&
       match rows[(e, NULL_UUID)]
       case Tombstone(version) => HasDelete(events, version) && DeletesLast(events)
       case Stored(x) => x.version == events[|events| - 1].version && NoDelete(events))
  }

  ghost predicate Refines(s: State) {
    s.reached <= |s.log| && forall e: Uuid :: RowShows(s.rows, GlobalEvents(s.log[..s.reached], e), e)
  }

  /** What a synchronisation begun outside transactions is about to write for a global event is the replay up to that event. */
  ghost predicate PendingShows(s: State, sync: Sync)
    requires sync.pending.Some? ==> sync.offset < |s.log|
  {
    sync.pending.Some? && sync.reader == NULL_UUID && s.log[sync.offset].txn == NULL_UUID ==>
      WritingShows(sync.pending.value, s.log[sync.offset].event, GlobalEvents(s.log[..sync.offset + 1], s.log[sync.offset].entity),
                   sync.offset < s.reached)
  }

  ghost predicate WritingShows(w: Writing, event: Event, events: seq<Event>, before: bool) {
    match w
    case Skip => before && event.action != Delete
    case Put(Tombstone(version)) => event.action == Delete && version == event.version
    case Put(Stored(x)) => Rebuild(events) == Alive(x) && x.version == event.version && NoDelete(events)
  }

  ghost predicate Inv(s: State) {
    Base(s) && Refines(s) && forall id :: id in s.syncs && s.syncs[id].pending.Some? ==> PendingShows(s, s.syncs[id])
  }

  lemma {:induction false} GlobalEventsHas(log: seq<EventEntry>, e: Uuid, i: nat) returns (k: nat)
    requires i < |log| && Global(log[i], e)
    ensures k < |GlobalEvents(log, e)| && GlobalEvents(log, e)[k] == log[i].event
    decreases |log|
  {
    var n := |log| - 1;
    if i == n {
      k := |GlobalEvents(log[..n], e)|;
    } else {
      k := GlobalEventsHas(log[..n], e, i);
    }
  }

  lemma {:induction false} GlobalEventIsAmong(log: seq<EventEntry>, e: Uuid, k: nat) returns (i: nat)
    requires k < |GlobalEvents(log, e)|
    ensures i < |log| && Global(log[i], e) && log[i].event == GlobalEvents(log, e)[k]
    ensures k == |GlobalEvents(log, e)| - 1 ==> forall j :: i < j < |log| ==> !Global(log[j], e)
    decreases |log|
  {
    var n := |log| - 1;
    if k < |GlobalEvents(log[..n], e)| {
      i := GlobalEventIsAmong(log[..n], e, k);
    } else {
      i := n;
    }
  }

  lemma {:induction false} GlobalPrefix(log: seq<EventEntry>, n: nat, m: nat, e: Uuid)
    requires n <= m <= |log|
    ensures GlobalEvents(log[..n], e) <= GlobalEvents(log[..m], e)
    ensures (forall i :: n <= i < m ==> !Global(log[i], e)) ==> GlobalEvents(log[..n], e) == GlobalEvents(log[..m], e)
    decreases m - n
  {
    if n < m {
      GlobalPrefix(log, n, m - 1, e);
      assert log[..m][..m - 1] == log[..m - 1];
    }
  }

  lemma {:induction false} OneMoreEvent(log: seq<EventEntry>, n: nat, e: Uuid)
    requires n < |log|
    ensures GlobalEvents(log[..n + 1], e) == GlobalEvents(log[..n], e) + (if Global(log[n], e) then [log[n].event] else [])
  {
    assert log[..n + 1][..n] == log[..n];
  }

  /** The last event has the highest version, and only the last one has that version. */
  lemma {:induction false} LastIsHighest(log: seq<EventEntry>, e: Uuid, n: nat, i: nat)
    requires Ascending(log) && i < n <= |log| && Global(log[i], e)
    ensures var events := GlobalEvents(log[..n], e);
            events != [] && log[i].event.version <= events[|events| - 1].version &&
            (log[i].event.version == events[|events| - 1].version ==> events == GlobalEvents(log[..i + 1], e))
  {
    var k := GlobalEventsHas(log[..n], e, i);
    var events := GlobalEvents(log[..n], e);
    var last := GlobalEventIsAmong(log[..n], e, |events| - 1);
    assert log[..n][last] == log[last];
    assert i <= last by { assert forall j :: last < j < n ==> !Global(log[..n][j], e); }
    if i == last {
      assert forall j :: i + 1 <= j < n ==> !Global(log[..n][j], e) && log[..n][j] == log[j];
      GlobalPrefix(log, i + 1, n, e);
    }
  }

  /** Every earlier event of the entity has a lower version. */
  lemma {:induction false} EarlierIsLower(log: seq<EventEntry>, e: Uuid, n: nat, k: nat)
    requires Ascending(log) && n < |log| && Global(log[n], e) && k < |GlobalEvents(log[..n], e)|
    ensures GlobalEvents(log[..n], e)[k].version < log[n].event.version
  {
    var i := GlobalEventIsAmong(log[..n], e, k);
    assert log[..n][i] == log[i];
  }

  // ---------------------------------------------------------------- reading and writing one event

  /** Reading the row of a table that shows the replay up to m, at least as far as the event, yields the replay up to the event. */
  lemma {:induction false} ReadShows(rows: Rows, log: seq<EventEntry>, n: nat, m: nat, e: Uuid)
    requires Ascending(log) && n < |log| && n <= m <= |log| && Global(log[n], e)
    requires RowShows(rows, GlobalEvents(log[..m], e), e) && DecidedFrom(GlobalRow(rows, e), log[n].event).Some?
    ensures WritingShows(DecidedFrom(GlobalRow(rows, e), log[n].event).value, log[n].event, GlobalEvents(log[..n + 1], e), n < m)
  {
    hide ApplyAll, Flattened, GlobalEvents, HasDelete, DeletesLast;
    var x, events := log[n].event, GlobalEvents(log[..m], e);
    if n < m { LastIsHighest(log, e, m, n); }
    if x.action != Delete {
      OneMoreEvent(log, n, e);
      if n == m {
        if events != [] { EarlierIsLower(log, e, n, |events| - 1); }
        ExtendedReplay(events, x);
      }
    }
  }

  /** Replaying one event more. */
  lemma {:induction false} ExtendedReplay(events: seq<Event>, x: Event)
    requires x.action != Delete
    ensures events == [] ==> Rebuild(events + [x]) == (if FromDiff(x).None? then Broken else Alive(FromDiff(x).value))
    ensures Rebuild(events).Alive? ==>
              var y := ApplyEvent(Rebuild(events).instance, x);
              Rebuild(events + [x]) == if y.None? then Broken else Alive(y.value)
  {
    hide ApplyAll, Flattened;
    var events' := events + [x];
    if events == [] {
      assert events' == [x] && events'[1..] == [];
    } else if Rebuild(events).Alive? {
      assert events'[1..] == events[1..] + [x] && events'[0] == events[0];
      ApplyEventsAppend(FromDiff(events[0]).value, events[1..], [x]);
      OneEvent(Rebuild(events).instance, x);
    }
  }

  /**
    A writing that fits the global row as it is found: what deciding from that row gives, or what is there
    already, or a deletion; and no writing at all if the row is not older than the event.
   */
  predicate Fits(rows: Rows, e: Uuid, x: Event, w: Writing) {
    match w
    case Put(Tombstone(_)) => true
    case Put(row) => GlobalRow(rows, e) == Some(row) || DecidedFrom(GlobalRow(rows, e), x) == Some(w)
    case Skip => (e, NULL_UUID) in rows && VersionOf(rows[(e, NULL_UUID)]) >= x.version
  }

  /** No global event of an entity comes after its deletion, except deletions. */
  predicate NoRevival(log: seq<EventEntry>) {
    forall i, j :: 0 <= i < j < |log| && Global(log[i], log[i].entity) && Global(log[j], log[i].entity) && log[i].event.action == Delete ==>
      log[j].event.action == Delete
  }

  /** A write keeps the table showing the replay if it fits, and, unless entities are revived, only then. */
  lemma {:induction false} WriteDecides(rows: Rows, log: seq<EventEntry>, n: nat, m: nat, e: Uuid, w: Writing)
    requires Ascending(log) && n < |log| && n <= m <= |log| && Global(log[n], e)
    requires RowShows(rows, GlobalEvents(log[..m], e), e) && Suits(w, log[n].event)
    ensures var rows', events' := Written(rows, log[n], w), GlobalEvents(log[..Max(m, n + 1)], e);
            if Fits(rows, e, log[n].event, w) then RowShows(rows', events', e)
            else NoRevival(log) ==> Found(rows', e) != Rebuild(events')
  {
    hide GlobalEvents, RowShows, Fits, NoRevival;
    var x, events := log[n].event, GlobalEvents(log[..m], e);
    OneMoreEvent(log, n, e);
    if n == m {
      forall k | 0 <= k < |events| ensures events[k].version < x.version { EarlierIsLower(log, e, n, k); }
      FirstWrite(rows, events, e, x, w);
      if NoRevival(log) && x.action != Delete { NoneDeleted(log, n, e); }
    } else {
      LastIsHighest(log, e, m, n);
      var k := GlobalEventsHas(log[..m], e, n);
      LateWrite(rows, events, e, x, w, k);
    }
  }

  lemma {:induction false} NoneDeleted(log: seq<EventEntry>, n: nat, e: Uuid)
    requires NoRevival(log) && n < |log| && Global(log[n], e) && log[n].event.action != Delete
    ensures NoDelete(GlobalEvents(log[..n], e))
  {
    forall k | 0 <= k < |GlobalEvents(log[..n], e)| ensures GlobalEvents(log[..n], e)[k].action != Delete {
      var i := GlobalEventIsAmong(log[..n], e, k);
      assert log[..n][i] == log[i];
    }
  }

  /** The event is dispatched for the first time. */
  lemma {:induction false} FirstWrite(rows: Rows, events: seq<Event>, e: Uuid, x: Event, w: Writing)
    requires RowShows(rows, events, e) && Suits(w, x) && forall k :: 0 <= k < |events| ==> events[k].version < x.version
    ensures var rows' := if w.Put? then rows[(e, NULL_UUID) := w.row] else rows;
            if Fits(rows, e, x, w) then RowShows(rows', events + [x], e)
            else x.action != Delete && (NoDelete(events) ==> Found(rows', e) != Rebuild(events + [x]))
  {
    hide FromDiff, ApplyEvents, ApplyEvent;
    var events' := events + [x];
    assert events'[|events|] == x && forall i :: 0 <= i < |events| ==> events'[i] == events[i];
    if x.action == Delete {
      assert HasDelete(events', x.version);
    } else {
      ExtendedReplay(events, x);
      if GlobalRow(rows, e).Some? && rows[(e, NULL_UUID)].Stored? { VersionAfter(rows[(e, NULL_UUID)].instance, x); }
    }
  }

  lemma {:induction false} VersionAfter(a: Instance, x: Event)
    ensures ApplyEvent(a, x).Some? ==> ApplyEvent(a, x).value.version == x.version
  {
    hide ApplyAll, Flattened;
  }

  /** The event was dispatched before. */
  lemma {:induction false} LateWrite(rows: Rows, events: seq<Event>, e: Uuid, x: Event, w: Writing, k: nat)
    requires RowShows(rows, events, e) && Suits(w, x) && k < |events| && events[k] == x && x.version <= events[|events| - 1].version
    ensures var rows' := if w.Put? then rows[(e, NULL_UUID) := w.row] else rows;
            if Fits(rows, e, x, w) then RowShows(rows', events, e) else Found(rows', e) != Rebuild(events)
  {
    hide FromDiff, ApplyEvents, ApplyEvent;
    if x.action == Delete { assert HasDelete(events, x.version); }
  }

  /** The guard that the upsert lacks: the row that is found is not newer than the one that replaces it. */
  predicate NotNewer(rows: Rows, e: Uuid, w: Writing) {
    w.Put? && w.row.Stored? && (e, NULL_UUID) in rows ==> VersionOf(rows[(e, NULL_UUID)]) <= w.row.instance.version
  }

  /** What was decided from the global row fits exactly if the row that is found is not newer. */
  lemma {:induction false} DirectFits(rows: Rows, log: seq<EventEntry>, n: nat, m: nat, e: Uuid, w: Writing)
    requires Ascending(log) && n < |log| && n <= m <= |log| && Global(log[n], e)
    requires RowShows(rows, GlobalEvents(log[..m], e), e)
    requires WritingShows(w, log[n].event, GlobalEvents(log[..n + 1], e), n < m)
    ensures Fits(rows, e, log[n].event, w) <==> NotNewer(rows, e, w)
  {
    hide GlobalEvents, FromDiff, ApplyEvents, ApplyEvent;
    var x, events := log[n].event, GlobalEvents(log[..m], e);
    OneMoreEvent(log, n, e);
    if n == m {
      if events != [] { EarlierIsLower(log, e, n, |events| - 1); }
      if x.action != Delete {
        ExtendedReplay(events, x);
        assert NoDelete(events) by { assert forall i :: 0 <= i < |events| ==> (events + [x])[i] == events[i]; }
      }
    } else {
      LastIsHighest(log, e, m, n);
      var k := GlobalEventsHas(log[..m], e, n);
    }
  }

  // ---------------------------------------------------------------- every step

  /** The write of a global event fits the row that it finds. */
  predicate Guarded(s: State, step: Step)
    requires Enabled(s, step)
  {
    step.Write? && s.log[s.syncs[step.id].offset].txn == NULL_UUID ==>
      var x := s.log[s.syncs[step.id].offset];
      Fits(s.rows, x.entity, x.event, s.syncs[step.id].pending.value)
  }

  /** For a synchronisation begun outside transactions that is: the row it finds is not newer. */
  lemma {:induction false} OutsideIsGuarded(s: State, id: nat)
    requires Inv(s) && Enabled(s, Write(id)) && s.syncs[id].reader == NULL_UUID
    ensures var x := s.log[s.syncs[id].offset];
            x.txn == NULL_UUID ==> (Guarded(s, Write(id)) <==> NotNewer(s.rows, x.entity, s.syncs[id].pending.value))
  {
    hide RowShows, WritingShows, GlobalEvents, EndsExact, RowsClean, Fits, NotNewer;
    var x := s.log[s.syncs[id].offset];
    if x.txn == NULL_UUID {
      assert SyncExact(s, s.syncs[id]) && PendingShows(s, s.syncs[id]);
      assert RowShows(s.rows, GlobalEvents(s.log[..s.reached], x.entity), x.entity);
      DirectFits(s.rows, s.log, s.syncs[id].offset, s.reached, x.entity, s.syncs[id].pending.value);
    }
  }

  /** The row of one entity after a write. */
  lemma {:induction false} WriteOfEntity(s: State, id: nat, e: Uuid)
    requires Inv(s) && Enabled(s, Write(id))
    ensures var s' := Apply(s, Write(id));
            var events := GlobalEvents(s.log[..s'.reached], e);
            s'.reached <= |s'.log| &&
            if Global(s.log[s.syncs[id].offset], e) && !Guarded(s, Write(id)) then NoRevival(s.log) ==> Found(s'.rows, e) != Rebuild(events)
            else RowShows(s'.rows, events, e)
  {
    hide RowShows, GlobalEvents, EndsExact, RowsClean, Fits, NoRevival, Suits;
    var sync := s.syncs[id];
    var n := sync.offset;
    assert SyncExact(s, sync);
    assert RowShows(s.rows, GlobalEvents(s.log[..s.reached], e), e);
    if Global(s.log[n], e) {
      WriteDecides(s.rows, s.log, n, s.reached, e, sync.pending.value);
    } else {
      if n == s.reached { GlobalPrefix(s.log, n, n + 1, e); }
      OtherRowStays(s.rows, s.log[n], sync.pending.value, GlobalEvents(s.log[..s.reached], e), e);
    }
  }

  lemma {:induction false} OtherRowStays(rows: Rows, x: EventEntry, w: Writing, events: seq<Event>, e: Uuid)
    requires !Global(x, e) && RowShows(rows, events, e)
    ensures RowShows(Written(rows, x, w), events, e)
  {
    hide Rebuild;
  }

  /** Writes that fit keep every reader seeing the replay and, unless entities are revived, no others do. */
  lemma {:induction false} WriteIsExact(s: State, id: nat)
    requires Inv(s) && Enabled(s, Write(id))
    ensures NoRevival(s.log) ==> (Shows(Apply(s, Write(id))) <==> Guarded(s, Write(id)))
    ensures Guarded(s, Write(id)) ==> Refines(Apply(s, Write(id)))
  {
    hide RowShows, GlobalEvents, Inv, Guarded, Found, Rebuild, NoRevival;
    var s' := Apply(s, Write(id));
    var x := s.log[s.syncs[id].offset];
    WriteOfEntity(s, id, x.entity);
    if Guarded(s, Write(id)) {
      forall e: Uuid ensures RowShows(s'.rows, GlobalEvents(s'.log[..s'.reached], e), e) { WriteOfEntity(s, id, e); }
      RefinesShows(s');
    } else {
      OnlyGlobalsAreGuarded(s, id);
      assert NoRevival(s.log) ==> Found(s'.rows, x.entity) != Rebuild(GlobalEvents(s'.log[..s'.reached], x.entity));
    }
  }

  lemma {:induction false} OnlyGlobalsAreGuarded(s: State, id: nat)
    requires Enabled(s, Write(id)) && !Guarded(s, Write(id))
    ensures var x := s.log[s.syncs[id].offset]; Global(x, x.entity)
  {
  }

  lemma {:induction false} RefinesShows(s: State)
    requires Refines(s)
    ensures Shows(s)
  {
    hide Rebuild, GlobalEvents;
    forall e: Uuid ensures Found(s.rows, e) == Rebuild(GlobalEvents(s.log[..s.reached], e)) {
      assert RowShows(s.rows, GlobalEvents(s.log[..s.reached], e), e);
    }
  }

  lemma {:induction false} OthersRefine(s: State, step: Step, s': State)
    requires Inv(s) && Next(s, step, s') && !step.Write?
    ensures Refines(s')
  {
    hide GlobalEvents, Rebuild, RowsClean, Ascending, Decided;
    assert s'.reached == s.reached && s'.log[..s'.reached] == s.log[..s.reached];
    forall e: Uuid ensures RowShows(s'.rows, GlobalEvents(s'.log[..s'.reached], e), e) {
      assert RowShows(s.rows, GlobalEvents(s.log[..s.reached], e), e);
    }
  }

  lemma {:induction false} PendingKeeps(s: State, step: Step, s': State, id: nat)
    requires Inv(s) && Next(s, step, s') && id in s'.syncs && s'.syncs[id].pending.Some?
    ensures s'.syncs[id].offset < |s'.log| && PendingShows(s', s'.syncs[id])
  {
    hide GlobalEvents, Rebuild, RowsClean, EndsExact, Ascending, RowShows, WritingShows, Written, Cleaned, Furthest, Decided;
    if step == ReadNext(id) {
      var n := s.syncs[id].offset;
      assert SyncExact(s, s.syncs[id]);
      if s.log[n].txn == NULL_UUID && s.syncs[id].reader == NULL_UUID {
        var e := s.log[n].entity;
        assert RowShows(s.rows, GlobalEvents(s.log[..s.reached], e), e);
        OutsideReadsGlobal(s, id);
        ReadShows(s.rows, s.log, n, s.reached, e);
      }
    } else {
      assert id in s.syncs && s.syncs[id] == s'.syncs[id].(broken := s.syncs[id].broken);
      assert SyncExact(s, s.syncs[id]) && PendingShows(s, s.syncs[id]);
      var n := s.syncs[id].offset;
      assert s'.log[..n + 1] == s.log[..n + 1] && s'.log[n] == s.log[n] && s.reached <= s'.reached;
      LaterIsFine(s.syncs[id].pending.value, s.log[n].event, GlobalEvents(s.log[..n + 1], s.log[n].entity), n < s.reached, n < s'.reached);
    }
  }

  lemma {:induction false} OutsideReadsGlobal(s: State, id: nat)
    requires Base(s) && id in s.syncs && s.syncs[id].reader == NULL_UUID && s.syncs[id].offset < |s.log|
    requires s.log[s.syncs[id].offset].txn == NULL_UUID
    ensures var x := s.log[s.syncs[id].offset]; DecidedNext(s, id) == DecidedFrom(GlobalRow(s.rows, x.entity), x.event)
  {
    hide DecidedFrom, RowsClean, OffsetsExact, Ascending;
  }

  lemma {:induction false} LaterIsFine(w: Writing, event: Event, events: seq<Event>, before: bool, later: bool)
    requires before ==> later
    ensures WritingShows(w, event, events, before) ==> WritingShows(w, event, events, later)
  {
  }

  lemma {:induction false} StepKeeps(s: State, step: Step, s': State)
    requires Inv(s) && Next(s, step, s') && Guarded(s, step)
    ensures Inv(s')
  {
    hide Base, Refines, PendingShows, Guarded;
    BaseKeeps(s, step, s');
    if step.Write? { WriteIsExact(s, step.id); } else { OthersRefine(s, step, s'); }
    forall id | id in s'.syncs && s'.syncs[id].pending.Some? ensures s'.syncs[id].offset < |s'.log| && PendingShows(s', s'.syncs[id]) {
      PendingKeeps(s, step, s', id);
    }
  }

  // ---------------------------------------------------------------- every run

  lemma {:induction false} GuardedRunKeeps(states: seq<State>, steps: seq<Step>, k: nat)
    requires Run(states, steps) && k < |states| && forall j :: 0 <= j < k ==> Enabled(states[j], steps[j]) && Guarded(states[j], steps[j])
    ensures Inv(states[k])
  {
    if k == 0 {
      assert forall e: Uuid :: GlobalEvents([], e) == [];
    } else {
      GuardedRunKeeps(states, steps, k - 1);
      assert Next(states[k - 1], steps[k - 1], states[k]);
      StepKeeps(states[k - 1], steps[k - 1], states[k]);
    }
  }

  /**
    The snapshot table refines replay, exactly: with any number of synchronisations, inside and outside
    transactions, in any interleaving, the table shows the replay at every point of a run if every write
    of a global event fits the row that it finds, and, unless an entity is revived, only then.
   */
  lemma {:induction false} SnapshotIsReplayExactly(states: seq<State>, steps: seq<Step>, k: nat)
    requires Run(states, steps) && k < |states|
    ensures (forall j :: 0 <= j < k ==> Enabled(states[j], steps[j]) && Guarded(states[j], steps[j])) ==>
              (forall j :: 0 <= j <= k ==> Shows(states[j]))
    ensures NoRevival(states[k].log) && (forall j :: 0 <= j <= k ==> Shows(states[j])) ==>
              (forall j :: 0 <= j < k ==> Enabled(states[j], steps[j]) && Guarded(states[j], steps[j]))
    decreases k
  {
    hide Shows, Guarded, Inv, Apply, Ascending, NoRevival;
    if k == 0 {
      GuardedRunKeeps(states, steps, 0);
      InvShows(states[0]);
    } else {
      SnapshotIsReplayExactly(states, steps, k - 1);
      assert Next(states[k - 1], steps[k - 1], states[k]);
      LogGrows(states[k - 1], steps[k - 1], states[k]);
      if forall j :: 0 <= j < k - 1 ==> Enabled(states[j], steps[j]) && Guarded(states[j], steps[j]) {
        GuardedRunKeeps(states, steps, k - 1);
        LastStepIsExact(states[k - 1], steps[k - 1], states[k]);
      }
    }
  }

  lemma {:induction false} LogGrows(s: State, step: Step, s': State)
    requires Next(s, step, s')
    ensures NoRevival(s'.log) ==> NoRevival(s.log)
  {
    hide Ascending, DecidedNext, Written, Cleaned;
    assert s.log <= s'.log;
    if NoRevival(s'.log) {
      forall i, j | 0 <= i < j < |s.log| && Global(s.log[i], s.log[i].entity) && Global(s.log[j], s.log[i].entity) &&
                    s.log[i].event.action == Delete
        ensures s.log[j].event.action == Delete
      {
        assert s'.log[i] == s.log[i] && s'.log[j] == s.log[j];
      }
    }
  }

  lemma {:induction false} InvShows(s: State)
    requires Inv(s)
    ensures Shows(s)
  {
    hide Base, Refines, PendingShows;
    RefinesShows(s);
  }

  lemma {:induction false} LastStepIsExact(s: State, step: Step, s': State)
    requires Inv(s) && Next(s, step, s')
    ensures Guarded(s, step) ==> Shows(s')
    ensures NoRevival(s.log) && Shows(s') ==> Guarded(s, step)
  {
    hide Base, Refines, Shows, Inv, NoRevival;
    if step.Write? {
      WriteIsExact(s, step.id);
      if Guarded(s, step) { RefinesShows(s'); }
    } else {
      StepKeeps(s, step, s');
      InvShows(s');
    }
  }

  /** Every write comes right after the read of the same synchronisation. */
  ghost predicate Atomic(steps: seq<Step>) {
    forall j :: 0 <= j < |steps| && steps[j].Write? ==> j > 0 && steps[j - 1] == ReadNext(steps[j].id)
  }

  /** A global event is looked up in the global row: no transaction on the reader's chain has a row of the entity. */
  predicate Direct(s: State, id: nat)
    requires id in s.syncs && s.syncs[id].offset < |s.log|
  {
    var x := s.log[s.syncs[id].offset];
    x.txn == NULL_UUID ==> Read(s.rows, s.txns, s.syncs[id].reader, x.entity) == GlobalRow(s.rows, x.entity)
  }

  ghost predicate AllDirect(states: seq<State>, steps: seq<Step>)
    requires Run(states, steps)
  {
    forall j :: 0 <= j < |steps| && steps[j].ReadNext? ==> Enabled(states[j], steps[j]) && Direct(states[j], steps[j].id)
  }

  lemma {:induction false} AtomicIsGuarded(s: State, id: nat, s': State)
    requires Next(s, ReadNext(id), s') && NULL_UUID !in s.txns && Direct(s, id)
    ensures Enabled(s', Write(id)) && Guarded(s', Write(id))
  {
    hide FromDiff, ApplyEvent, Ascending;
  }

  lemma {:induction false} AtomicRunIsGuarded(states: seq<State>, steps: seq<Step>, k: nat)
    requires Run(states, steps) && Atomic(steps) && AllDirect(states, steps) && k < |states|
    ensures forall j :: 0 <= j < k ==> Enabled(states[j], steps[j]) && Guarded(states[j], steps[j])
  {
    hide Guarded, Direct, EndsExact, RowsClean, Ascending;
    forall j | 0 <= j < k ensures Enabled(states[j], steps[j]) && Guarded(states[j], steps[j]) {
      assert Next(states[j], steps[j], states[j + 1]);
      if steps[j].Write? {
        assert Next(states[j - 1], steps[j - 1], states[j]);
        RunKeepsBase(states, steps, j - 1);
        NullIsNoTxn(states[j - 1]);
        AtomicIsGuarded(states[j - 1], steps[j].id, states[j]);
      } else {
        OnlyWritesAreGuarded(states[j], steps[j]);
      }
    }
  }

  /**
    If dispatching an event is not interrupted and reads are direct, any number of synchronisations may
    overlap: at every point a reader finds the replay of the events dispatched so far, which are those up
    to the stored offset once no synchronisation, under way or broken off, is ahead of it.
   */
  lemma {:induction false} SnapshotIsReplay(states: seq<State>, steps: seq<Step>, k: nat, e: Uuid)
    requires Run(states, steps) && Atomic(steps) && AllDirect(states, steps) && k < |states|
    ensures states[k].stored <= states[k].reached <= |states[k].log|
    ensures Found(states[k].rows, e) == Rebuild(GlobalEvents(states[k].log[..states[k].reached], e))
    ensures (forall id :: id in states[k].syncs ==> states[k].syncs[id].offset <= states[k].stored) ==>
            states[k].stored == states[k].reached
  {
    hide Guarded, Direct, Rebuild, GlobalEvents, Found, EndsExact, RowsClean, Ascending;
    AtomicRunIsGuarded(states, steps, k);
    SnapshotIsReplayExactly(states, steps, k);
    RunKeepsBase(states, steps, k);
    assert Shows(states[k]);
  }

  lemma {:induction false} NullIsNoTxn(s: State)
    requires Base(s)
    ensures NULL_UUID !in s.txns
  {
  }

  lemma {:induction false} OnlyWritesAreGuarded(s: State, step: Step)
    requires Enabled(s, step) && !step.Write?
    ensures Guarded(s, step)
  {
  }

  /** A global event stops a synchronisation exactly if it comes after a deletion or cannot be applied. */
  lemma {:induction false} DispatchRaises(rows: Rows, e: Uuid, x: Event, events: seq<Event>)
    requires RowShows(rows, events, e) && (events != [] ==> events[|events| - 1].version < x.version)
    ensures DecidedFrom(GlobalRow(rows, e), x).None? <==>
            x.action != Delete && (Rebuild(events) == Gone || Rebuild(events + [x]) == Broken)
  {
    hide ApplyAll, Flattened;
    if x.action != Delete { ExtendedReplay(events, x); }
  }

  // ---------------------------------------------------------------- where the guarantees stop

  ghost predicate IsRun(states: seq<State>, steps: seq<Step>, s: State) {
    Run(states, steps) && s == states[|steps|]
  }

  lemma {:induction false} Grow(states: seq<State>, steps: seq<Step>, s: State, step: Step, s': State)
    returns (states': seq<State>, steps': seq<Step>)
    requires IsRun(states, steps, s) && Next(s, step, s')
    ensures IsRun(states', steps', s')
  {
    hide Next;
    states', steps' := states + [s'], steps + [step];
    forall k | 0 <= k < |steps'| ensures Next(states'[k], steps'[k], states'[k + 1]) {
      if k < |steps| { assert Next(states[k], steps[k], states[k + 1]); }
    }
  }

  /** A run goes on with one synchronisation reading and writing its next event. */
  lemma {:induction false} ReadWrite(states: seq<State>, steps: seq<Step>, s: State, id: nat, w: Writing)
    returns (states': seq<State>, steps': seq<Step>, s': State)
    requires IsRun(states, steps, s) && Enabled(s, ReadNext(id)) && DecidedNext(s, id) == Some(w)
    ensures var sync := s.syncs[id];
            s' == s.(syncs := s.syncs[id := sync.(offset := sync.offset + 1)], rows := Written(s.rows, s.log[sync.offset], w),
                     reached := Max(s.reached, sync.offset + 1))
    ensures IsRun(states', steps', s')
  {
    hide Decided, Written;
    assert Ascending(s.log) by { LastAscends(states, steps, s); }
    var read := Apply(s, ReadNext(id));
    states', steps' := Grow(states, steps, s, ReadNext(id), read);
    s' := Apply(read, Write(id));
    states', steps' := Grow(states', steps', read, Write(id), s');
    assert s.syncs[id].pending == None;
  }

  lemma {:induction false} LastAscends(states: seq<State>, steps: seq<Step>, s: State)
    requires IsRun(states, steps, s)
    ensures Ascending(s.log)
  {
    if |steps| > 0 { assert Next(states[|steps| - 1], steps[|steps| - 1], states[|steps|]); }
  }

  /** A run goes on with one synchronisation cleaning up and storing its offset. */
  lemma {:induction false} Finish(states: seq<State>, steps: seq<Step>, s: State, id: nat)
    returns (states': seq<State>, steps': seq<Step>, s': State)
    requires IsRun(states, steps, s) && Enabled(s, Clean(id))
    ensures IsRun(states', steps', s')
    ensures var sync := s.syncs[id];
            s' == s.(rows := if sync.initial < sync.offset then Cleaned(s.rows, s.txns, sync.initial) else s.rows,
                     stored := Max(s.stored, sync.offset), syncs := s.syncs - {id})
  {
    hide Cleaned;
    LastAscends(states, steps, s);
    var cleaned := Apply(s, Clean(id));
    states', steps' := Grow(states, steps, s, Clean(id), cleaned);
    s' := Apply(cleaned, Store(id));
    states', steps' := Grow(states', steps', cleaned, Store(id), s');
    assert s'.syncs == s.syncs - {id};
  }

  /** A table without rows of transactions is not changed by cleaning. */
  lemma {:induction false} NothingToClean(rows: Rows, offset: nat)
    ensures Cleaned(rows, map[], offset) == rows
  {
  }

  /** A slow synchronisation has read the first event, the second one has come, and a fast synchronisation has started. */
  lemma {:induction false} SlowStart(first: EventEntry, second: EventEntry, a: Instance)
    returns (states: seq<State>, steps: seq<Step>, s: State)
    requires Ascending([first, second]) && first.txn == second.txn == NULL_UUID && first.event.action != Delete
    requires FromDiff(first.event) == Some(a)
    ensures IsRun(states, steps, s)
    ensures s == State([first, second], map[], map[], 0,
                       map[0 := Sync(NULL_UUID, 0, 0, Some(Put(Stored(a))), false, false),
                           1 := Sync(NULL_UUID, 0, 0, None, false, false)], 0)
  {
    hide Decided, Ascending, Apply;
    OneAscends(first);
    FirstDecided(first, a);
    s := State([], map[], map[], 0, map[], 0);
    states, steps := [s], [];
    var s' := s.(log := [first]);
    states, steps := GrowTo(states, steps, s, Append(first), s');
    var started := s'.(syncs := map[0 := Sync(NULL_UUID, 0, 0, None, false, false)]);
    states, steps := GrowTo(states, steps, s', Start(0, NULL_UUID), started);
    var read := s'.(syncs := map[0 := Sync(NULL_UUID, 0, 0, Some(Put(Stored(a))), false, false)]);
    states, steps := GrowTo(states, steps, started, ReadNext(0), read);
    var longer := read.(log := [first, second]);
    assert read.log + [second] == longer.log;
    states, steps := GrowTo(states, steps, read, Append(second), longer);
    s := longer.(syncs := longer.syncs[1 := Sync(NULL_UUID, 0, 0, None, false, false)]);
    states, steps := GrowTo(states, steps, longer, Start(1, NULL_UUID), s);
  }

  lemma {:induction false} GrowTo(states: seq<State>, steps: seq<Step>, s: State, step: Step, s': State)
    returns (states': seq<State>, steps': seq<Step>)
    requires IsRun(states, steps, s) && Enabled(s, step) && Ascending(s'.log)
    requires match step
             case Append(x) => s' == s.(log := s.log + [x])
             case SaveOpen(t, dest, offset) => s' == s.(txns := s.txns[t := Txn(dest, false, offset)])
             case SaveFinal(t) => s' == s.(txns := s.txns[t := Txn(s.txns[t].dest, true, |s.log| + 1)])
             case Start(id, reader) => s' == s.(syncs := s.syncs[id := Sync(reader, s.stored, s.stored, None, false, false)])
             case ReadNext(id) => s' == s.(syncs := s.syncs[id := s.syncs[id].(pending := DecidedNext(s, id))])
             case _ => false
    ensures IsRun(states', steps', s')
  {
    hide Decided, Ascending;
    states', steps' := Grow(states, steps, s, step, s');
  }

  lemma {:induction false} OneAscends(x: EventEntry)
    ensures Ascending([x])
  {
  }

  lemma {:induction false} FirstDecided(x: EventEntry, a: Instance)
    requires x.txn == NULL_UUID && x.event.action != Delete && FromDiff(x.event) == Some(a)
    ensures Decided(map[], map[], NULL_UUID, x) == Some(Put(Stored(a)))
  {
    hide FromDiff;
  }

  /** The run up to the point where a slow synchronisation has read the first event and a fast one has stored the second. */
  lemma {:induction false} SlowReader(e: Uuid, x: Event, y: Event, a: Instance, b: Instance)
    returns (states: seq<State>, steps: seq<Step>, s: State)
    requires x.action != Delete && y.action != Delete && x.version < y.version
    requires FromDiff(x) == Some(a) && ApplyEvent(a, y) == Some(b)
    ensures IsRun(states, steps, s)
    ensures s == State([EventEntry(e, NULL_UUID, x), EventEntry(e, NULL_UUID, y)], map[], map[(e, NULL_UUID) := Stored(b)], 2,
                       map[0 := Sync(NULL_UUID, 0, 0, Some(Put(Stored(a))), false, false)], 2)
  {
    hide FromDiff, Cleaned;
    AppliedVersion(x, y, a, b);
    hide ApplyEvent;
    states, steps, s := SlowStart(EventEntry(e, NULL_UUID, x), EventEntry(e, NULL_UUID, y), a);
    var others := s.syncs - {1};
    states, steps, s := ReadWrite(states, steps, s, 1, Put(Stored(a)));
    states, steps, s := ReadWrite(states, steps, s, 1, Put(Stored(b)));
    NothingToClean(s.rows, 0);
    states, steps, s := Finish(states, steps, s, 1);
    assert s.syncs == others;
  }

  lemma {:induction false} AppliedVersion(x: Event, y: Event, a: Instance, b: Instance)
    requires FromDiff(x) == Some(a) && ApplyEvent(a, y) == Some(b)
    ensures a.version == x.version && b.version == y.version
  {
    hide ApplyAll, Flattened;
  }

  /**
    A lost update: a slow synchronisation that writes after a fast one has gone on leaves the older row,
    although both have come to their end and the stored offset covers the whole log.
   */
  lemma {:induction false} SlowWriteIsLost(e: Uuid, x: Event, y: Event, a: Instance, b: Instance)
    returns (states: seq<State>, steps: seq<Step>, s: State)
    requires x.action != Delete && y.action != Delete && x.version < y.version
    requires FromDiff(x) == Some(a) && ApplyEvent(a, y) == Some(b)
    ensures IsRun(states, steps, s) && s.syncs == map[] && s.stored == |s.log|
    ensures GlobalEvents(s.log, e) == [x, y] && Rebuild(GlobalEvents(s.log, e)) == Alive(b)
    ensures Found(s.rows, e) == Alive(a) && a != b
  {
    hide ApplyAll, Flattened, Cleaned;
    var t;
    states, steps, t := SlowReader(e, x, y, a, b);
    LastAscends(states, steps, t);
    s := t.(rows := map[(e, NULL_UUID) := Stored(a)], syncs := map[0 := Sync(NULL_UUID, 0, 1, None, false, false)]);
    assert Apply(t, Write(0)) == s;
    states, steps := Grow(states, steps, t, Write(0), s);
    NothingToClean(s.rows, 0);
    states, steps, s := Finish(states, steps, s, 0);
    OneMoreEvent(s.log, 0, e);
    OneMoreEvent(s.log, 1, e);
    assert s.log[..0] == [] && s.log[..2] == s.log && [x] + [y] == [x, y];
    assert [x, y][1..] == [y];
    OneEvent(a, y);
  }

  /** A transaction has written an entity on top of a global event, and both are in the table. */
  lemma {:induction false} WrittenInside(e: Uuid, x: Event, y: Event, a: Instance, b: Instance)
    returns (states: seq<State>, steps: seq<Step>, s: State)
    requires x.action != Delete && y.action != Delete && x.version < y.version && FromDiff(x) == Some(a) && ApplyEvent(a, y) == Some(b)
    ensures IsRun(states, steps, s)
    ensures s == State([EventEntry(e, NULL_UUID, x), EventEntry(e, 1, y)], map[1 := Txn(NULL_UUID, false, 0)],
                       map[(e, NULL_UUID) := Stored(a), (e, 1) := Stored(b)], 2, map[], 2)
  {
    hide FromDiff, ApplyEvent, Cleaned, Apply;
    AppliedVersion(x, y, a, b);
    var first, second := EventEntry(e, NULL_UUID, x), EventEntry(e, 1, y);
    states, steps, s := OneOpen(first, second);
    FirstIsRead(s, first, a);
    states, steps, s := ReadWrite(states, steps, s, 0, Put(Stored(a)));
    InsideIsRead(s, e, y, a, b);
    states, steps, s := ReadWrite(states, steps, s, 0, Put(Stored(b)));
    OpenIsKept(s.rows, 0);
    states, steps, s := Finish(states, steps, s, 0);
    assert s.syncs == map[];
  }

  lemma {:induction false} OneOpen(first: EventEntry, second: EventEntry) returns (states: seq<State>, steps: seq<Step>, s: State)
    requires first.txn == NULL_UUID && second.txn == 1
    ensures IsRun(states, steps, s)
    ensures s == State([first, second], map[1 := Txn(NULL_UUID, false, 0)], map[], 0,
                       map[0 := Sync(NULL_UUID, 0, 0, None, false, false)], 0)
  {
    hide Apply, Ascending;
    OneAscends(first);
    TwoAscend(first, second);
    s := State([], map[], map[], 0, map[], 0);
    NoneAscend();
    states, steps := [s], [];
    var open := s.(txns := map[1 := Txn(NULL_UUID, false, 0)]);
    states, steps := GrowTo(states, steps, s, SaveOpen(1, NULL_UUID, 0), open);
    var one := open.(log := [first]);
    states, steps := GrowTo(states, steps, open, Append(first), one);
    var two := open.(log := [first, second]);
    assert one.log + [second] == two.log;
    states, steps := GrowTo(states, steps, one, Append(second), two);
    s := two.(syncs := map[0 := Sync(NULL_UUID, 0, 0, None, false, false)]);
    states, steps := GrowTo(states, steps, two, Start(0, NULL_UUID), s);
  }

  lemma {:induction false} NoneAscend()
    ensures Ascending([])
  {
  }

  lemma {:induction false} TwoAscend(x: EventEntry, y: EventEntry)
    requires x.txn != NULL_UUID || y.txn != NULL_UUID
    ensures Ascending([x, y])
  {
  }

  lemma {:induction false} FirstIsRead(s: State, first: EventEntry, a: Instance)
    requires s.rows == map[] && NULL_UUID !in s.txns && first.txn == NULL_UUID && first.event.action != Delete &&
             FromDiff(first.event) == Some(a)
    ensures Decided(s.rows, s.txns, NULL_UUID, first) == Some(Put(Stored(a)))
  {
    hide FromDiff;
  }

  lemma {:induction false} InsideIsRead(s: State, e: Uuid, y: Event, a: Instance, b: Instance)
    requires s.rows == map[(e, NULL_UUID) := Stored(a)] && s.txns == map[1 := Txn(NULL_UUID, false, 0)]
    requires y.action != Delete && a.version < y.version && ApplyEvent(a, y) == Some(b)
    ensures Decided(s.rows, s.txns, NULL_UUID, EventEntry(e, 1, y)) == Some(Put(Stored(b)))
  {
    hide ApplyEvent;
    assert Read(s.rows, s.txns, 1, e) == Read(s.rows, s.txns, NULL_UUID, e);
  }

  lemma {:induction false} OpenIsKept(rows: Rows, offset: nat)
    ensures Cleaned(rows, map[1 := Txn(NULL_UUID, false, 0)], offset) == rows
  {
  }

  /** Then a global event arrives, and a read inside the transaction starts a synchronisation. */
  lemma {:induction false} ReadInside(e: Uuid, x: Event, y: Event, z: Event, a: Instance, b: Instance)
    returns (states: seq<State>, steps: seq<Step>, s: State)
    requires x.action != Delete && y.action != Delete && z.action != Delete && x.version < z.version <= y.version
    requires FromDiff(x) == Some(a) && ApplyEvent(a, y) == Some(b)
    ensures IsRun(states, steps, s)
    ensures s == State([EventEntry(e, NULL_UUID, x), EventEntry(e, 1, y), EventEntry(e, NULL_UUID, z)], map[1 := Txn(NULL_UUID, false, 0)],
                       map[(e, NULL_UUID) := Stored(a), (e, 1) := Stored(b)], 2, map[1 := Sync(1, 2, 3, None, false, false)], 3)
  {
    hide FromDiff, ApplyEvent, Apply;
    AppliedVersion(x, y, a, b);
    var two;
    states, steps, two := WrittenInside(e, x, y, a, b);
    var third := EventEntry(e, NULL_UUID, z);
    var three := two.(log := two.log + [third]);
    assert three.log == [EventEntry(e, NULL_UUID, x), EventEntry(e, 1, y), third];
    states, steps := GrowTo(states, steps, two, Append(third), three);
    s := three.(syncs := map[1 := Sync(1, 2, 2, None, false, false)]);
    states, steps := GrowTo(states, steps, three, Start(1, 1), s);
    assert Read(s.rows, s.txns, 1, e) == Some(Stored(b));
    states, steps, s := ReadWrite(states, steps, s, 1, Skip);
    assert s.syncs == map[1 := Sync(1, 2, 3, None, false, false)];
  }

  /**
    A read inside a transaction that loses a global event: the synchronisation it starts finds the
    transaction's own row, passes the event over and stores an offset beyond it. No other synchronisation
    is under way, and no write found a newer row.
   */
  lemma {:induction false} InsideReadIsLost(e: Uuid, x: Event, y: Event, z: Event, a: Instance, b: Instance, c: Instance)
    returns (states: seq<State>, steps: seq<Step>, s: State)
    requires x.action != Delete && y.action != Delete && z.action != Delete && x.version < z.version <= y.version
    requires FromDiff(x) == Some(a) && ApplyEvent(a, y) == Some(b) && ApplyEvent(a, z) == Some(c)
    ensures IsRun(states, steps, s) && s.syncs == map[] && s.stored == |s.log|
    ensures GlobalEvents(s.log, e) == [x, z] && Rebuild(GlobalEvents(s.log, e)) == Alive(c)
    ensures Found(s.rows, e) == Alive(a) && a != c
  {
    hide FromDiff, ApplyEvent, Cleaned;
    states, steps, s := ReadInside(e, x, y, z, a, b);
    OpenIsKept(s.rows, 2);
    states, steps, s := Finish(states, steps, s, 1);
    assert s.syncs == map[];
    TwoGlobals(s.log, e, x, z);
    AppliedVersion(x, z, a, c);
    TwoReplayed(x, z, a, c);
  }

  lemma {:induction false} TwoGlobals(log: seq<EventEntry>, e: Uuid, x: Event, z: Event)
    requires |log| == 3 && log[0] == EventEntry(e, NULL_UUID, x) && log[1].txn != NULL_UUID && log[2] == EventEntry(e, NULL_UUID, z)
    ensures GlobalEvents(log, e) == [x, z]
  {
    OneMoreEvent(log, 0, e);
    OneMoreEvent(log, 1, e);
    OneMoreEvent(log, 2, e);
    assert log[..0] == [] && log[..3] == log;
  }

  lemma {:induction false} TwoReplayed(x: Event, z: Event, a: Instance, c: Instance)
    requires x.action != Delete && z.action != Delete && FromDiff(x) == Some(a) && ApplyEvent(a, z) == Some(c)
    ensures Rebuild([x, z]) == Alive(c)
  {
    hide FromDiff, ApplyEvent;
    assert [x, z][1..] == [z];
    OneEvent(a, z);
  }

  /** And one that leaks: the next global event is applied to what the open transaction wrote, in the global row. */
  lemma {:induction false} InsideReadLeaks(e: Uuid, x: Event, y: Event, z: Event, z': Event, a: Instance, b: Instance, d: Instance)
    returns (states: seq<State>, steps: seq<Step>, s: State)
    requires x.action != Delete && y.action != Delete && z.action != Delete && z'.action != Delete &&
             x.version < z.version <= y.version < z'.version
    requires FromDiff(x) == Some(a) && ApplyEvent(a, y) == Some(b) && ApplyEvent(b, z') == Some(d)
    ensures IsRun(states, steps, s) && s.syncs == map[] && s.stored == |s.log| && 1 in s.txns && !s.txns[1].final
    ensures Found(s.rows, e) == Alive(d)
  {
    hide FromDiff, ApplyEvent, Cleaned, Apply;
    AppliedVersion(x, y, a, b);
    var three;
    states, steps, three := ReadInside(e, x, y, z, a, b);
    var fourth := EventEntry(e, NULL_UUID, z');
    s := three.(log := three.log + [fourth]);
    LastAscends(states, steps, three);
    states, steps := GrowTo(states, steps, three, Append(fourth), s);
    assert Read(s.rows, s.txns, 1, e) == Some(Stored(b));
    states, steps, s := ReadWrite(states, steps, s, 1, Put(Stored(d)));
    OpenIsKept(s.rows, 2);
    states, steps, s := Finish(states, steps, s, 1);
  }

  /** The row of an ended transaction, and no synchronisation under way that would still drop it. */
  ghost predicate Leaked(s: State, e: Uuid, t: Uuid) {
    (e, t) in s.rows && t in s.txns && s.txns[t].final && s.txns[t].offset <= s.stored &&
    forall id :: Going(s, id) ==> s.syncs[id].initial >= s.txns[t].offset
  }

  /** Such a row stays for ever: later synchronisations start beyond the offset and ask for later ends only. */
  lemma {:induction false} LeakedRowStays(s: State, step: Step, s': State, e: Uuid, t: Uuid)
    requires Leaked(s, e, t) && Next(s, step, s')
    ensures Leaked(s', e, t)
  {
    hide Ascending, Decided;
    forall id | Going(s', id) ensures s'.syncs[id].initial >= s'.txns[t].offset {
      if !(step.Start? && step.id == id) { assert Going(s, id); }
    }
  }

  /** The log after a transaction has written an event and ended, and another entity was written. */
  lemma {:induction false} EndedTxn(first: EventEntry, other: EventEntry) returns (states: seq<State>, steps: seq<Step>, s: State)
    requires first.txn == 1 && other.txn == NULL_UUID
    ensures IsRun(states, steps, s) && s == State([first, other], map[1 := Txn(NULL_UUID, true, 2)], map[], 0, map[], 0)
  {
    hide Apply, Ascending;
    NoneAscend();
    OneAscends(first);
    TwoAscend(first, other);
    s := State([], map[], map[], 0, map[], 0);
    states, steps := [s], [];
    var open := s.(txns := map[1 := Txn(NULL_UUID, false, 0)]);
    states, steps := GrowTo(states, steps, s, SaveOpen(1, NULL_UUID, 0), open);
    var logged := open.(log := [first]);
    states, steps := GrowTo(states, steps, open, Append(first), logged);
    var ended := logged.(txns := map[1 := Txn(NULL_UUID, true, 2)]);
    states, steps := GrowTo(states, steps, logged, SaveFinal(1), ended);
    s := ended.(log := [first, other]);
    assert ended.log + [other] == s.log;
    states, steps := GrowTo(states, steps, ended, Append(other), s);
  }

  /** The run up to the point where a fast synchronisation has cleaned up and a slow one has not begun. */
  lemma {:induction false} EarlyCleaner(e: Uuid, x: Event, a: Instance, other: EventEntry)
    returns (states: seq<State>, steps: seq<Step>, s: State)
    requires x.action != Delete && FromDiff(x) == Some(a)
    requires other.txn == NULL_UUID && other.entity != e && other.event.action == Delete
    ensures IsRun(states, steps, s)
    ensures s == State([EventEntry(e, 1, x), other], map[1 := Txn(NULL_UUID, true, 2)],
                       map[(other.entity, NULL_UUID) := Tombstone(other.event.version)], 2,
                       map[0 := Sync(NULL_UUID, 0, 0, None, false, false)], 2)
  {
    hide FromDiff, Cleaned;
    var both;
    states, steps, both := EndedTxn(EventEntry(e, 1, x), other);
    LastAscends(states, steps, both);
    var slow := both.(syncs := map[0 := Sync(NULL_UUID, 0, 0, None, false, false)]);
    states, steps := Grow(states, steps, both, Start(0, NULL_UUID), slow);
    s := slow.(syncs := slow.syncs[1 := Sync(NULL_UUID, 0, 0, None, false, false)]);
    states, steps := Grow(states, steps, slow, Start(1, NULL_UUID), s);
    states, steps, s := ReadWrite(states, steps, s, 1, Put(Stored(a)));
    states, steps, s := ReadWrite(states, steps, s, 1, Put(Tombstone(other.event.version)));
    OneCleaned(s.rows, e, other.entity);
    states, steps, s := Finish(states, steps, s, 1);
    assert s.syncs == slow.syncs;
  }

  lemma {:induction false} OneCleaned(rows: Rows, e: Uuid, f: Uuid)
    requires rows.Keys == {(e, 1), (f, NULL_UUID)}
    ensures Cleaned(rows, map[1 := Txn(NULL_UUID, true, 2)], 0) == map[(f, NULL_UUID) := rows[(f, NULL_UUID)]]
  {
  }

  /**
    A row that comes back: a slow synchronisation dispatches an event of an ended transaction after a fast
    one has dropped that transaction and stored its offset, and is then broken off.
   */
  lemma {:induction false} SlowDispatchLeaks(e: Uuid, x: Event, a: Instance, other: EventEntry)
    returns (states: seq<State>, steps: seq<Step>, s: State)
    requires x.action != Delete && FromDiff(x) == Some(a)
    requires other.txn == NULL_UUID && other.entity != e && other.event.action == Delete
    ensures IsRun(states, steps, s) && Leaked(s, e, 1) && Responsible(s, 0, 1)
    ensures exists j :: 0 <= j < |steps| && Enabled(states[j], steps[j]) && Late(states[j], steps[j])
  {
    hide ApplyAll, Flattened;
    states, steps, s := EarlyCleaner(e, x, a, other);
    states, steps, s := ReadWrite(states, steps, s, 0, Put(Stored(a)));
    LastAscends(states, steps, s);
    var end := Apply(s, Abort(0));
    states, steps := Grow(states, steps, s, Abort(0), end);
    s := end;
    assert s.log[0].txn == 1;
    assert !Tidy(s) by { assert (e, 1) in s.rows && !EndedLater(s, 1); }
    CleanUpIsExact(states, steps, |steps|);
    AllEnabled(states, steps);
  }

  lemma {:induction false} AllEnabled(states: seq<State>, steps: seq<Step>)
    requires Run(states, steps)
    ensures forall j :: 0 <= j < |steps| ==> Enabled(states[j], steps[j])
  {
    forall j | 0 <= j < |steps| ensures Enabled(states[j], steps[j]) { assert Next(states[j], steps[j], states[j + 1]); }
  }

  // ---------------------------------------------------------------- the repository

  /** The only rows of ended transactions are those of transactions that ended at the very end of the log. */
  ghost predicate NoOlderEnds(rows: Rows, txns: Txns, length: nat) {
    forall e: Uuid, t: Uuid :: (e, t) in rows && t in txns && txns[t].final ==> txns[t].offset == length + 1
  }

  class DatabaseSnapshotRepository {
    var rows: Rows
    var stored: nat
    ghost var reached: nat

    ghost function Seen(log: seq<EventEntry>, txns: Txns, syncs: map<nat, Sync>): State
      reads this
    {
      State(log, txns, rows, stored, syncs, reached)
    }

    constructor ()
      ensures rows == map[] && stored == 0 && reached == 0
    {
      rows, stored, reached := map[], 0, 0;
    }

    /** `_synchronize` in the transaction of its reader, whatever `others` are half done; `ok` is false if an event raises. */
    method Synchronize(log: seq<EventEntry>, txns: Txns, reader: Uuid, ghost others: map<nat, Sync>, ghost id: nat)
      returns (ok: bool, ghost left: Sync)
      requires id !in others && Inv(Seen(log, txns, others))
      modifies this
      ensures Base(Seen(log, txns, if ok then others else others[id := left]))
      ensures stored == if ok then |log| else old(stored)
      ensures DirectFrom(old(rows), txns, reader, log, old(stored)) ==>
                Inv(Seen(log, txns, if ok then others else others[id := left])) &&
                (ok ==> forall e: Uuid :: Found(rows, e) == Rebuild(GlobalEvents(log, e)))
      ensures ok && others == map[] ==> NoOlderEnds(rows, txns, |log|)
    {
      hide Inv, Base, Decided, Written, Cleaned, Found, Rebuild, GlobalEvents, Read, GlobalRow, NoOlderEnds;
      InvAscends(Seen(log, txns, others));
      var initial, offset := stored, stored;
      left := Sync(reader, initial, offset, None, false, false);
      ghost var direct := DirectFrom(rows, txns, reader, log, offset);
      BaseKeeps(Seen(log, txns, others), Start(id, reader), Seen(log, txns, others[id := left]));
      StepKeeps(Seen(log, txns, others), Start(id, reader), Seen(log, txns, others[id := left]));
      while offset < |log|
        invariant initial == stored <= offset <= |log| && stored == old(stored)
        invariant left == Sync(reader, initial, offset, None, false, false) && Base(Seen(log, txns, others[id := left]))
        invariant direct ==> Inv(Seen(log, txns, others[id := left])) && DirectFrom(rows, txns, reader, log, offset)
        decreases |log| - offset
      {
        var decided := Decided(rows, txns, reader, log[offset]);
        if decided.None? {
          return false, left;
        }
        DispatchKeeps(Seen(log, txns, others[id := left]), id, decided.value);
        rows, offset := Written(rows, log[offset], decided.value), offset + 1;
        reached := Max(reached, offset);
        assert others[id := left][id := left.(offset := offset)] == others[id := left.(offset := offset)];
        left := left.(offset := offset);
      }
      EndKeeps(Seen(log, txns, others[id := left]), id);
      if initial < offset {
        rows := Cleaned(rows, txns, initial);
      }
      stored := if offset > stored then offset else stored;
      assert others[id := left] - {id} == others;
      EndIsTidy(Seen(log, txns, others));
      if direct { EndShows(Seen(log, txns, others)); }
      ok := true;
    }
  }

  /** Every read of a global event, from the given offset on, is direct. */
  predicate DirectFrom(rows: Rows, txns: Txns, reader: Uuid, log: seq<EventEntry>, offset: nat)
    decreases |log| - offset
  {
    offset < |log| ==>
      (log[offset].txn == NULL_UUID ==> Read(rows, txns, reader, log[offset].entity) == GlobalRow(rows, log[offset].entity)) &&
      (Decided(rows, txns, reader, log[offset]).Some? ==>
         DirectFrom(Written(rows, log[offset], Decided(rows, txns, reader, log[offset]).value), txns, reader, log, offset + 1))
  }

  /** Outside transactions they all are. */
  lemma {:induction false} OutsideIsDirect(rows: Rows, txns: Txns, log: seq<EventEntry>, offset: nat)
    ensures DirectFrom(rows, txns, NULL_UUID, log, offset)
    decreases |log| - offset
  {
    hide Decided, Written;
    if offset < |log| && Decided(rows, txns, NULL_UUID, log[offset]).Some? {
      OutsideIsDirect(Written(rows, log[offset], Decided(rows, txns, NULL_UUID, log[offset]).value), txns, log, offset + 1);
    }
  }

  /** Reading and writing one event without an interruption. */
  lemma {:induction false} DispatchKeeps(s: State, id: nat, w: Writing)
    requires Base(s) && Enabled(s, ReadNext(id)) && DecidedNext(s, id) == Some(w)
    ensures var sync := s.syncs[id];
            var s' := s.(rows := Written(s.rows, s.log[sync.offset], w), reached := Max(s.reached, sync.offset + 1),
                         syncs := s.syncs[id := sync.(offset := sync.offset + 1)]);
            Base(s') && (Inv(s) && Direct(s, id) ==> Inv(s'))
  {
    hide Inv, Base, DecidedNext, Written, Direct, Guarded;
    var sync := s.syncs[id];
    var read := Apply(s, ReadNext(id));
    BaseAscends(s);
    BaseKeeps(s, ReadNext(id), read);
    var written := Apply(read, Write(id));
    BaseKeeps(read, Write(id), written);
    assert read.syncs[id := sync.(offset := sync.offset + 1)] == s.syncs[id := sync.(offset := sync.offset + 1)];
    if Inv(s) && Direct(s, id) {
      OnlyWritesAreGuarded(s, ReadNext(id));
      StepKeeps(s, ReadNext(id), read);
      AtomicIsGuarded(s, id, read);
      StepKeeps(read, Write(id), written);
    }
  }

  /** Cleaning up and storing the offset. */
  lemma {:induction false} EndKeeps(s: State, id: nat)
    requires Base(s) && Enabled(s, Clean(id))
    ensures var sync := s.syncs[id];
            var s' := s.(rows := if sync.initial < sync.offset then Cleaned(s.rows, s.txns, sync.initial) else s.rows,
                         stored := Max(s.stored, sync.offset), syncs := s.syncs - {id});
            Base(s') && (Inv(s) ==> Inv(s'))
  {
    hide Inv, Base, Cleaned, Guarded;
    BaseAscends(s);
    var cleaned := Apply(s, Clean(id));
    var ended := Apply(cleaned, Store(id));
    BaseKeeps(s, Clean(id), cleaned);
    BaseKeeps(cleaned, Store(id), ended);
    assert cleaned.syncs - {id} == s.syncs - {id};
    if Inv(s) {
      OnlyWritesAreGuarded(s, Clean(id));
      OnlyWritesAreGuarded(cleaned, Store(id));
      StepKeeps(s, Clean(id), cleaned);
      StepKeeps(cleaned, Store(id), ended);
    }
  }

  lemma {:induction false} BaseAscends(s: State)
    requires Base(s)
    ensures Ascending(s.log) && NULL_UUID !in s.txns
  {
  }

  lemma {:induction false} EndIsTidy(s: State)
    requires Base(s) && s.stored == |s.log|
    ensures s.syncs == map[] ==> NoOlderEnds(s.rows, s.txns, |s.log|)
  {
    hide Ascending;
    forall e: Uuid, t: Uuid | s.syncs == map[] && (e, t) in s.rows && t in s.txns && s.txns[t].final
      ensures s.txns[t].offset == |s.log| + 1
    {
      assert Excused(s, t);
    }
  }

  lemma {:induction false} InvAscends(s: State)
    requires Inv(s)
    ensures Base(s) && Ascending(s.log) && NULL_UUID !in s.txns && s.stored <= s.reached <= |s.log|
  {
    hide Refines, RowsClean, PendingShows;
  }

  lemma {:induction false} EndShows(s: State)
    requires Inv(s) && s.stored == |s.log|
    ensures forall e: Uuid :: Found(s.rows, e) == Rebuild(GlobalEvents(s.log, e))
  {
    hide Ascending, RowShows, Rebuild;
    InvShows(s);
    assert s.log[..s.reached] == s.log;
  }
}
