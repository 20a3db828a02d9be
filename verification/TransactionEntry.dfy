/**
  The in-memory repositories and the transaction handle, as the code has them: objects that change
  their fields. Each method is tied to the step it performs in `TransactionProtocol`.
 */
module TransactionEntries {
  import opened Wrappers
  import opened TransactionProtocol
  import opened TransactionSafety
  import opened TransactionTheorems

  /** How a call ends: normally, or with one of the exceptions the source raises. */
  datatype Outcome = Done | InvalidStatus | TransactionConflict | EventConflict

  /** The keyword arguments of `select`. */
  datatype Filter = Filter(uuid: Option<Uuid>, uuidNe: Option<Uuid>, uuidIn: Option<set<Uuid>>, dest: Option<Uuid>,
                           status: Option<Status>, statusIn: Option<set<Status>>)
  {
    predicate Accepts(u: Uuid, txn: Txn) {
      (uuid.Some? ==> u == uuid.value) && (uuidNe.Some? ==> u != uuidNe.value) && (uuidIn.Some? ==> u in uuidIn.value) &&
      (dest.Some? ==> txn.dest == dest.value) && (status.Some? ==> txn.status == status.value) &&
      (statusIn.Some? ==> txn.status in statusIn.value)
    }
  }

  const AnyOf := Filter(None, None, None, None, None, None)

  class TransactionRepository {
    var storage: map<Uuid, Txn>

    constructor ()
      ensures storage == map[]
    {
      storage := map[];
    }

    method Submit(uuid: Uuid, txn: Txn) returns (ok: bool)
      modifies this
      ensures ok == MaySave(old(storage), uuid, txn.status)
      ensures storage == if ok then old(storage)[uuid := txn] else old(storage)
    {
      ok := true;
      if uuid in storage {
        ok := MayMove(storage[uuid].status, txn.status);
      }
      if ok {
        storage := storage[uuid := txn];
      }
    }

    /** `select`, by everything but offsets and dates; a filter that is not given lets every transaction pass. */
    method Select(filter: Filter) returns (uuids: set<Uuid>)
      ensures forall u :: u in uuids <==> u in storage && filter.Accepts(u, storage[u])
    {
      uuids := {};
      var rest := storage.Keys;
      while rest != {}
        invariant rest <= storage.Keys
        invariant forall u :: u in uuids <==> u !in rest && u in storage && filter.Accepts(u, storage[u])
        decreases rest
      {
        var u :| u in rest;
        var txn := storage[u];
        if !(filter.uuid.Some? && filter.uuid.value != u) && !(filter.uuidNe.Some? && filter.uuidNe.value == u) &&
           !(filter.uuidIn.Some? && u !in filter.uuidIn.value) && !(filter.dest.Some? && filter.dest.value != txn.dest) &&
           !(filter.status.Some? && filter.status.value != txn.status) &&
           !(filter.statusIn.Some? && txn.status !in filter.statusIn.value) {
          uuids := uuids + {u};
        }
        rest := rest - {u};
      }
    }
  }

  class EventRepository {
    var storage: seq<EventEntry>
    var nextVersions: map<(Uuid, Uuid), nat>
    ghost var source: seq<int>
    const transactions: TransactionRepository

    constructor (transactions: TransactionRepository)
      ensures this.transactions == transactions && storage == [] && nextVersions == map[] && source == []
    {
      this.transactions := transactions;
      storage, nextVersions, source := [], map[], [];
    }

    /** The protocol state these two repositories hold. */
    ghost function View(running: Option<Copying>): State
      reads this, transactions
    {
      State(storage, source, transactions.storage, nextVersions, running)
    }

    method Validate(entry: EventEntry, skip: Option<Uuid>) returns (ok: bool)
      ensures ok <==> Submittable(View(None), entry, skip)
    {
      var holders := transactions.Select(
        AnyOf.(dest := Some(entry.txn), uuidNe := skip, statusIn := Some({Reserving, Reserved, Committing})));
      ok := true;
      var i := 0;
      while i < |storage| && ok
        invariant 0 <= i <= |storage|
        invariant ok ==> forall k :: 0 <= k < i ==> !(storage[k].entity == entry.entity && storage[k].txn in holders)
        invariant !ok ==> 0 < i && storage[i - 1].entity == entry.entity && storage[i - 1].txn in holders
      {
        ok := !(storage[i].entity == entry.entity && storage[i].txn in holders);
        i := i + 1;
      }
      if ok {
        forall c | c in transactions.storage && Some(c) != skip && ActiveChild(transactions.storage, entry.txn, c)
          ensures !Touches(storage, c, entry.entity)
        {
          assert c in holders;
        }
      } else {
        assert Touches(storage, storage[i - 1].txn, entry.entity);
        assert ActiveChild(transactions.storage, entry.txn, storage[i - 1].txn);
      }
    }

    method Submit(entry: EventEntry, version: Option<nat>, skip: Option<Uuid>, ghost from: int) returns (ok: bool)
      modifies this
      ensures forall running :: View(running) == TransactionProtocol.Submit(old(View(running)), entry, version, skip, from).0
      ensures ok == TransactionProtocol.Submit(old(View(None)), entry, version, skip, from).1
    {
      ghost var before := View(None);
      ok := Validate(entry, skip);
      assert forall running :: Submittable(View(running), entry, skip) == Submittable(before, entry, skip);
      if !ok {
        return;
      }
      var key := (entry.entity, entry.txn);
      var next := 1 + if key in nextVersions then nextVersions[key] else 0;
      nextVersions := nextVersions[key := next];
      var v := if version.None? then next else version.value;
      if v < next {
        return false;
      }
      storage := storage + [entry.(version := v)];
      source := source + [from];
    }
  }

  /** `TransactionEntry`: what it remembers of its status may be out of date. */
  class TransactionEntry {
    const uuid: Uuid
    const destination: Uuid
    var status: Status
    var eventOffset: nat
    const events: EventRepository

    constructor (uuid: Uuid, destination: Uuid, status: Status, eventOffset: nat, events: EventRepository)
      ensures this.uuid == uuid && this.destination == destination && this.status == status
      ensures this.eventOffset == eventOffset && this.events == events
    {
      this.uuid, this.destination, this.status, this.eventOffset, this.events := uuid, destination, status, eventOffset, events;
    }

    /** If it is stored, it has that destination, and a handle that has seen it reserved has seen its offset too. */
    ghost predicate Known()
      reads this, events.transactions
    {
      destination != uuid &&
      (uuid in events.transactions.storage ==>
         var txn := events.transactions.storage[uuid];
         txn.dest == destination && (status == Reserved && txn.status == Reserved ==> eventOffset == txn.eventOffset))
    }

    /** The transaction has been entered. */
    ghost predicate Stored()
      reads this, events.transactions
    {
      Known() && uuid in events.transactions.storage
    }

    /** The protocol state, with a transaction that is not stored yet taken as just entered. */
    ghost function Entered(): State
      reads this, events, events.transactions
    {
      var s := events.View(None);
      if uuid in s.table then s else s.(table := s.table[uuid := Txn(Pending, destination, 0)])
    }

    /** The protocol state, with a transaction that is not stored taken as reserved with what the handle remembers. */
    ghost function Remembered(): State
      reads this, events, events.transactions
    {
      var s := events.View(None);
      if uuid in s.table then s else s.(table := s.table[uuid := Txn(Reserved, destination, eventOffset)])
    }

    /** Sets the remembered status and offset first, then submits them. */
    method Save(status: Status, offset: nat) returns (ok: bool)
      modifies this, events.transactions
      ensures this.status == status && eventOffset == offset
      ensures ok == MaySave(old(events.transactions.storage), uuid, status)
      ensures events.transactions.storage ==
              if ok then old(events.transactions.storage)[uuid := Txn(status, destination, offset)] else old(events.transactions.storage)
    {
      this.status, eventOffset := status, offset;
      ok := events.transactions.Submit(uuid, Txn(status, destination, offset));
    }

    /** The highest version this transaction holds of each of its entities. */
    method HighestVersions() returns (entries: map<Uuid, nat>)
      ensures HighestOf(events.storage, uuid, entries)
    {
      entries := map[];
      var i := 0;
      while i < |events.storage|
        invariant 0 <= i <= |events.storage|
        invariant HighestOf(events.storage[..i], uuid, entries)
      {
        var entry := events.storage[i];
        ghost var seen := events.storage[..i];
        assert events.storage[..i + 1] == seen + [entry];
        HighestExtends(seen, entry, uuid, entries);
        if entry.txn == uuid && !(entry.entity in entries && entry.version < entries[entry.entity]) {
          entries := entries[entry.entity := entry.version];
        }
        i := i + 1;
      }
      assert events.storage[..i] == events.storage;
    }

    /** The transactions that hold an event at one of the given versions; `clash` if the destination is among them. */
    method Rivals(entries: map<Uuid, nat>) returns (rivals: set<Uuid>, clash: bool)
      ensures clash <==> Meets(events.storage, entries, destination)
      ensures !clash ==> forall u :: u in rivals <==> u != uuid && Meets(events.storage, entries, u)
    {
      rivals, clash := {}, false;
      var j := 0;
      while j < |events.storage| && !clash
        invariant 0 <= j <= |events.storage|
        invariant clash <==> Meets(events.storage[..j], entries, destination)
        invariant !clash ==> forall u :: u in rivals <==> u != uuid && Meets(events.storage[..j], entries, u)
      {
        var entry := events.storage[j];
        assert events.storage[..j + 1] == events.storage[..j] + [entry];
        MeetsExtends(events.storage[..j], entry, entries);
        if AtVersion(entry, entries) {
          if entry.txn == destination {
            clash := true;
          } else if entry.txn != uuid {
            rivals := rivals + {entry.txn};
          }
        }
        j := j + 1;
      }
      if clash {
        MeetsGrows(events.storage, j, entries, destination);
      } else {
        assert events.storage[..j] == events.storage;
      }
    }

    method Validate() returns (ok: bool)
      requires Stored()
      ensures ok <==> Committable(events.View(None), uuid)
    {
      var closed := events.transactions.Select(
        AnyOf.(uuid := Some(destination), statusIn := Some({Reserving, Reserved, Committing, Committed, Rejected})));
      if closed != {} {
        assert forall u :: u in closed ==> u == destination;
        return false;
      }
      assert destination !in closed;
      var entries := HighestVersions();
      var rivals, clash := Rivals(entries);
      var holders := events.transactions.Select(
        AnyOf.(dest := Some(destination), uuidIn := Some(rivals), statusIn := Some({Reserving, Reserved, Committing, Committed})));
      ok := !clash && holders == {};
      MeetingDecides(events.View(None), uuid, entries);
      assert !clash ==> forall u :: u in holders <==> Rival(events.transactions.storage, uuid, u) && u != destination && u in rivals;
      assert holders == {} <==> forall u :: u !in holders;
    }

    method Reserve() returns (result: Outcome)
      requires Known()
      modifies this, events.transactions
      ensures Known() && (old(status) == Pending ==> Stored())
      ensures events.View(None) == if old(status) == Pending then ReserveEffect(old(Entered()), uuid) else old(events.View(None))
      ensures result == Done <==>
              old(status) == Pending && HasStatus(old(Entered().table), uuid, {Pending}) && Committable(old(Entered()), uuid)
      ensures result == Done ==> status == Reserved && HasStatus(events.transactions.storage, uuid, {Reserved})
    {
      if status != Pending {
        return InvalidStatus;
      }
      ghost var before := Entered();
      var ok := Save(Reserving, eventOffset);
      if !ok {
        return TransactionConflict;
      }
      OwnStatusIsIgnored(before, events.View(None), uuid);
      var committable := Validate();
      var offset := 1 + |events.storage|;
      ok := Save(if committable then Reserved else Rejected, offset);
      result := if committable then Done else EventConflict;
    }

    method Reject() returns (result: Outcome)
      requires Known()
      modifies this, events.transactions
      ensures Known()
      ensures events.View(None) ==
              if old(status) in {Pending, Reserved} then
                (if old(MaySave(events.transactions.storage, uuid, Rejected)) then Apply(old(Entered()), TransactionProtocol.Reject(uuid))
                 else old(events.View(None)))
              else old(events.View(None))
      ensures result == Done <==> old(status) in {Pending, Reserved} && MaySave(old(events.transactions.storage), uuid, Rejected)
    {
      if status !in {Pending, Reserved} {
        return InvalidStatus;
      }
      var ok := Save(Rejected, 1 + |events.storage|);
      result := if ok then Done else TransactionConflict;
    }

    /** Copies this transaction's events into the destination, scanning the log while it grows. */
    method CopyAll(ghost start: State) returns (ok: bool)
      requires Stored() && start == events.View(Some(Copying(uuid, 0)))
      modifies events
      ensures Stored() && events.transactions.storage == old(events.transactions.storage)
      ensures ok ==> FinishCommit(start) == Apply(events.View(Some(Copying(uuid, |Positions(events.storage, uuid)|))), EndCommit)
      ensures !ok ==> FinishCommit(start) == events.View(None)
    {
      hide FinishCommit, TransactionProtocol.Submit, Apply, Positions;
      var i := 0;
      PositionsOfNone(events.storage, uuid);
      ghost var copied := 0;
      while i < |events.storage|
        invariant 0 <= i <= |events.storage| && Stored() && events.transactions.storage == old(events.transactions.storage)
        invariant copied == |Positions(events.storage[..i], uuid)| &&
                  Positions(events.storage[..i], uuid) <= Positions(events.storage, uuid)
        invariant FinishCommit(start) == FinishCommit(events.View(Some(Copying(uuid, copied))))
        decreases |Positions(events.storage, uuid)| - copied, |events.storage| - i
      {
        var entry := events.storage[i];
        PositionsOfPrefix(events.storage, uuid, i);
        if entry.txn == uuid {
          ghost var before := events.View(Some(Copying(uuid, copied)));
          ok := events.Submit(entry.(txn := destination), Some(entry.version), Some(uuid), i);
          RoundIsStep(before, i, events.View(Some(Copying(uuid, copied))), ok);
          if !ok {
            return;
          }
          copied := copied + 1;
        }
        i := i + 1;
      }
      assert events.storage[..i] == events.storage;
      FinishAtEnd(events.View(Some(Copying(uuid, copied))));
      ok := true;
    }

    /** The part of `commit` that runs under the transaction lock. */
    method CommitReserved() returns (result: Outcome)
      requires Known() && status == Reserved
      modifies this, events, events.transactions
      ensures Stored() && result != InvalidStatus
      ensures result == TransactionConflict <==> !HasStatus(old(Remembered().table), uuid, {Reserved})
      ensures events.View(None) ==
              if result == TransactionConflict then old(events.View(None))
              else FinishCommit(Apply(old(Remembered()), BeginCommit(uuid)))
      ensures result != TransactionConflict ==> (result == Done <==> HasStatus(events.transactions.storage, uuid, {Committed}))
    {
      hide FinishCommit, Positions;
      var ok := Save(Committing, eventOffset);
      if !ok {
        return TransactionConflict;
      }
      ghost var start := events.View(Some(Copying(uuid, 0)));
      assert start == Apply(old(Remembered()), BeginCommit(uuid));
      ok := CopyAll(start);
      if !ok {
        return EventConflict;
      }
      ok := Save(Committed, 1 + |events.storage|);
      result := Done;
    }

    /** What the handle remembers is true, and a reservation that is still to be made succeeds. */
    ghost predicate MayCommit()
      reads this, events, events.transactions
    {
      if status == Pending then HasStatus(Entered().table, uuid, {Pending}) && Committable(Entered(), uuid)
      else status == Reserved && HasStatus(Remembered().table, uuid, {Reserved})
    }

    method Commit() returns (result: Outcome)
      requires Known()
      modifies this, events, events.transactions
      ensures Known()
      ensures result == Done ==> HasStatus(events.transactions.storage, uuid, {Committed})
      ensures
        var reserved := if old(status) == Pending then ReserveEffect(old(Entered()), uuid) else old(Remembered());
        var mayCommit := old(MayCommit());
        events.View(None) == (if mayCommit then FinishCommit(Apply(reserved, BeginCommit(uuid)))
                              else if old(status) == Pending then reserved else old(events.View(None))) &&
        (mayCommit ==> (result == Done <==> HasStatus(events.transactions.storage, uuid, {Committed}))) && (!mayCommit ==> result != Done)
      ensures old(status) !in {Pending, Reserved} ==> result == InvalidStatus
    {
      hide FinishCommit, Positions, Apply, ReserveEffect;
      if status == Pending {
        result := Reserve();
        if result != Done {
          return;
        }
      }
      if status != Reserved {
        return InvalidStatus;
      }
      result := CommitReserved();
    }
  }

  ghost predicate HasVersion(log: Log, t: Uuid, e: Uuid, v: nat) {
    exists i :: 0 <= i < |log| && log[i].txn == t && log[i].entity == e && log[i].version == v
  }

  ghost predicate HighestOf(log: Log, t: Uuid, entries: map<Uuid, nat>) {
    (forall i :: 0 <= i < |log| && log[i].txn == t ==> log[i].entity in entries && log[i].version <= entries[log[i].entity]) &&
    (forall e :: e in entries ==> HasVersion(log, t, e, entries[e]))
  }

  predicate AtVersion(entry: EventEntry, entries: map<Uuid, nat>) {
    entry.entity in entries && entries[entry.entity] == entry.version
  }

  /** `u` holds an event at one of the given versions. */
  ghost predicate Meets(log: Log, entries: map<Uuid, nat>, u: Uuid) {
    exists j :: 0 <= j < |log| && log[j].txn == u && AtVersion(log[j], entries)
  }

  lemma {:induction false} HighestExtends(log: Log, entry: EventEntry, t: Uuid, entries: map<Uuid, nat>)
    requires HighestOf(log, t, entries)
    ensures HighestOf(log + [entry], t,
                      if entry.txn == t && !(entry.entity in entries && entry.version < entries[entry.entity])
                      then entries[entry.entity := entry.version] else entries)
  {
    forall e | e in entries ensures HasVersion(log + [entry], t, e, entries[e]) {
      var i :| 0 <= i < |log| && log[i].txn == t && log[i].entity == e && log[i].version == entries[e];
      assert (log + [entry])[i] == log[i];
    }
    assert (log + [entry])[|log|] == entry;
  }

  lemma {:induction false} MeetsExtends(log: Log, entry: EventEntry, entries: map<Uuid, nat>)
    ensures forall u :: Meets(log + [entry], entries, u) <==> Meets(log, entries, u) || (entry.txn == u && AtVersion(entry, entries))
  {
    assert (log + [entry])[|log|] == entry;
    forall u | Meets(log, entries, u) ensures Meets(log + [entry], entries, u) {
      var j :| 0 <= j < |log| && log[j].txn == u && AtVersion(log[j], entries);
      assert (log + [entry])[j] == log[j];
    }
  }

  lemma {:induction false} MeetsGrows(log: Log, n: nat, entries: map<Uuid, nat>, u: Uuid)
    requires n <= |log| && Meets(log[..n], entries, u)
    ensures Meets(log, entries, u)
  {
  }

  lemma {:induction false} HighestIsAtVersion(log: Log, t: Uuid, entries: map<Uuid, nat>, i: nat)
    requires HighestOf(log, t, entries) && i < |log|
    ensures HighestWrite(log, t, i) <==> log[i].txn == t && AtVersion(log[i], entries)
  {
  }

  lemma {:induction false} AtVersionHasHighest(log: Log, t: Uuid, entries: map<Uuid, nat>, j: nat) returns (i: nat)
    requires HighestOf(log, t, entries) && j < |log| && AtVersion(log[j], entries)
    ensures i < |log| && HighestWrite(log, t, i) && log[i].entity == log[j].entity && log[i].version == log[j].version
  {
    assert HasVersion(log, t, log[j].entity, entries[log[j].entity]);
    i :| 0 <= i < |log| && log[i].txn == t && log[i].entity == log[j].entity && log[i].version == entries[log[j].entity];
    HighestIsAtVersion(log, t, entries, i);
  }

  predicate Rival(table: Table, t: Uuid, u: Uuid)
    requires t in table
  {
    u == table[t].dest ||
    (u != t && HasStatus(table, u, {Reserving, Reserved, Committing, Committed}) && table[u].dest == table[t].dest)
  }

  /** The dictionary of highest versions and the two scans decide exactly what `Committable` asks. */
  lemma {:induction false} MeetingDecides(s: State, t: Uuid, entries: map<Uuid, nat>)
    requires t in s.table && HighestOf(s.log, t, entries)
    requires !HasStatus(s.table, s.table[t].dest, {Reserving, Reserved, Committing, Committed, Rejected})
    ensures Committable(s, t) <==> forall u :: Rival(s.table, t, u) ==> !Meets(s.log, entries, u)
  {
    hide HighestOf, HighestWrite;
    if Committable(s, t) {
      forall u, j | Rival(s.table, t, u) && 0 <= j < |s.log| && AtVersion(s.log[j], entries) ensures s.log[j].txn != u {
        var i := AtVersionHasHighest(s.log, t, entries, j);
        assert !Clashes(s, t, i, j);
      }
    } else {
      var i, j :| 0 <= i < |s.log| && 0 <= j < |s.log| && HighestWrite(s.log, t, i) && Clashes(s, t, i, j);
      HighestIsAtVersion(s.log, t, entries, i);
      assert Rival(s.table, t, s.log[j].txn) && Meets(s.log, entries, s.log[j].txn);
    }
  }

  lemma {:induction false} SubmitIgnoresRunning(s: State, s': State, entry: EventEntry, version: Option<nat>, skip: Option<Uuid>, from: int)
    requires s' == s.(running := s'.running)
    ensures Submit(s', entry, version, skip, from).1 == Submit(s, entry, version, skip, from).1
  {
  }

  /** One round of the commit loop is one step of the commit. */
  lemma {:induction false} CopyRound(s: State, i: nat)
    requires s.running.Some? && s.running.value.txn in s.table && s.table[s.running.value.txn].dest != s.running.value.txn
    requires s.running.value.copied < |Positions(s.log, s.running.value.txn)| &&
             i == Positions(s.log, s.running.value.txn)[s.running.value.copied]
    ensures
      var t, c := s.running.value.txn, s.running.value.copied;
      var (s', ok) := Submit(s, s.log[i].(txn := s.table[t].dest), Some(s.log[i].version), Some(t), i);
      if ok then
        FinishCommit(s) == FinishCommit(s'.(running := Some(Copying(t, c + 1)))) && s.log <= s'.log &&
        Positions(s'.log, t) == Positions(s.log, t)
      else FinishCommit(s) == s'.(running := None)
  {
    hide Submittable, Positions, FinishCommit;
    var t := s.running.value.txn;
    FinishUnfolds(s);
    PositionsAppend(s.log, s.log[i].(txn := s.table[t].dest), t);
  }

  /** The same, for what a submission that returned `ok` has made of the repositories. */
  lemma {:induction false} RoundIsStep(s: State, i: nat, after: State, ok: bool)
    requires s.running.Some? && s.running.value.txn in s.table && s.table[s.running.value.txn].dest != s.running.value.txn
    requires s.running.value.copied < |Positions(s.log, s.running.value.txn)| &&
             i == Positions(s.log, s.running.value.txn)[s.running.value.copied]
    requires
      var t := s.running.value.txn;
      var entry := s.log[i].(txn := s.table[t].dest);
      after == Submit(s, entry, Some(entry.version), Some(t), i).0 &&
      ok == Submit(s.(running := None), entry, Some(entry.version), Some(t), i).1
    ensures
      var t, c := s.running.value.txn, s.running.value.copied;
      if ok then
        FinishCommit(s) == FinishCommit(after.(running := Some(Copying(t, c + 1)))) && i < |s.log| <= |after.log| &&
        after.log[..i + 1] == s.log[..i + 1] && Positions(after.log, t) == Positions(s.log, t)
      else FinishCommit(s) == after.(running := None)
  {
    hide Submit, Positions, FinishCommit;
    var t := s.running.value.txn;
    CopyRound(s, i);
    SubmitIgnoresRunning(s, s.(running := None), s.log[i].(txn := s.table[t].dest), Some(s.log[i].version), Some(t), i);
  }

  lemma {:induction false} PositionsOfNone(log: Log, t: Uuid)
    ensures Positions(log[..0], t) == []
  {
  }

  lemma {:induction false} FinishAtEnd(s: State)
    requires s.running.Some? && s.running.value.copied == |Positions(s.log, s.running.value.txn)|
    ensures FinishCommit(s) == Apply(s, EndCommit)
  {
  }

  /** `reserve` stores RESERVING before it validates; that status does not sway its own validation. */
  lemma {:induction false} OwnStatusIsIgnored(s: State, s': State, t: Uuid)
    requires t in s.table && s.table[t].dest != t && s'.log == s.log && t in s'.table && s'.table[t].dest == s.table[t].dest
    requires forall u :: u != t ==> (u in s.table <==> u in s'.table) && (u in s.table ==> s.table[u] == s'.table[u])
    ensures Committable(s', t) == Committable(s, t)
  {
    assert forall i: nat, j: nat :: i < |s.log| && j < |s.log| ==> Clashes(s', t, i, j) == Clashes(s, t, i, j);
  }

  lemma {:induction false} PositionsOfPrefix(log: Log, t: Uuid, i: nat)
    requires i < |log|
    ensures Positions(log[..i + 1], t) == Positions(log[..i], t) + if log[i].txn == t then [i] else []
    ensures Positions(log[..i], t) <= Positions(log[..i + 1], t) <= Positions(log, t)
    decreases |log| - i
  {
    assert log[..i + 1] == log[..i] + [log[i]];
    PositionsAppend(log[..i], log[i], t);
    if i + 1 < |log| {
      PositionsOfPrefix(log, t, i + 1);
    } else {
      assert log[..i + 1] == log;
    }
  }
}
