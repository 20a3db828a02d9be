/**
  The aggregate transaction protocol as a step system: an event log, a table of stored transactions,
  the in-memory version counters, and the one commit that may hold the transaction lock.

  A step is what one lock-holding section of the code does. `Apply` is the code, with its failing
  branches; `Permitted` is what the run is assumed to respect. Operations are tried by any handle at
  any moment, whatever status that handle remembers: the stored status alone decides.
 */
module TransactionProtocol {
  import opened Wrappers

  type Uuid = nat
  const NULL_UUID: Uuid := 0

  datatype Status = Pending | Reserving | Reserved | Committing | Committed | Rejected

  datatype Action = Create | Update | Delete

  datatype EventEntry = EventEntry(entity: Uuid, version: nat, txn: Uuid, action: Action, data: int)

  datatype Txn = Txn(status: Status, dest: Uuid, eventOffset: nat)

  /** The commit that holds the transaction lock, and how many of its events it has copied. */
  datatype Copying = Copying(txn: Uuid, copied: nat)

  type Log = seq<EventEntry>
  type Table = map<Uuid, Txn>

  /**
    `source[i]` records, for the event at position i, the position it was copied from, or -1. It is
    history only: no operation reads it.
   */
  datatype State = State(log: Log, source: seq<int>, table: Table, counters: map<(Uuid, Uuid), nat>,
                         running: Option<Copying>)

  datatype Step =
    | Begin(txn: Uuid, dest: Uuid)
    | Write(entry: EventEntry, version: Option<nat>)
    | Reserve(txn: Uuid)
    | BeginCommit(txn: Uuid)
    | CopyNext
    | EndCommit
    | Reject(txn: Uuid)

  const EmptyState := State([], [], map[], map[], None)

  // ---------------------------------------------------------------- queries on the log and the table

  /** Number of events of `entity` that belong to `txn`. */
  function Own(log: Log, txn: Uuid, entity: Uuid): nat {
    if log == [] then 0
    else
      var last := log[|log| - 1];
      Own(log[..|log| - 1], txn, entity) + if last.txn == txn && last.entity == entity then 1 else 0
  }

  /** Positions of the events of `txn`, in log order. */
  function Positions(log: Log, txn: Uuid): (r: seq<nat>)
    ensures forall k :: 0 <= k < |r| ==> r[k] < |log| && log[r[k]].txn == txn
    ensures forall j, k :: 0 <= j < k < |r| ==> r[j] < r[k]
  {
    if log == [] then []
    else
      var n := |log| - 1;
      Positions(log[..n], txn) + if log[n].txn == txn then [n] else []
  }

  predicate Touches(log: Log, txn: Uuid, entity: Uuid) {
    exists i :: 0 <= i < |log| && log[i].txn == txn && log[i].entity == entity
  }

  predicate HasStatus(table: Table, txn: Uuid, statuses: set<Status>) {
    txn in table && table[txn].status in statuses
  }

  /** A transaction that holds its entities: reserved, or on its way to be committed. */
  predicate Active(table: Table, txn: Uuid) {
    HasStatus(table, txn, {Reserving, Reserved, Committing})
  }

  predicate ActiveChild(table: Table, parent: Uuid, txn: Uuid) {
    Active(table, txn) && table[txn].dest == parent
  }

  /** The event with the highest version that `txn` has written for its entity. */
  predicate HighestWrite(log: Log, txn: Uuid, i: nat)
    requires i < |log|
  {
    log[i].txn == txn &&
    forall k :: 0 <= k < |log| && log[k].txn == txn && log[k].entity == log[i].entity ==> log[k].version <= log[i].version
  }

  /** The event at j makes the event at i of `txn` impossible to commit. */
  predicate Clashes(s: State, txn: Uuid, i: nat, j: nat)
    requires txn in s.table && i < |s.log| && j < |s.log|
  {
    var other := s.log[j].txn;
    s.log[j].entity == s.log[i].entity && s.log[j].version == s.log[i].version &&
    (other == s.table[txn].dest ||
     (other != txn && HasStatus(s.table, other, {Reserving, Reserved, Committing, Committed}) &&
      s.table[other].dest == s.table[txn].dest))
  }

  /** `TransactionEntry.validate`: the destination is open and no highest write clashes. */
  predicate Committable(s: State, txn: Uuid)
    requires txn in s.table
  {
    !HasStatus(s.table, s.table[txn].dest, {Reserving, Reserved, Committing, Committed, Rejected}) &&
    forall i, j :: 0 <= i < |s.log| && 0 <= j < |s.log| && HighestWrite(s.log, txn, i) ==> !Clashes(s, txn, i, j)
  }

  /** `EventRepository.validate`: no active child of the entry's transaction, but `skip`, has touched its entity. */
  predicate Submittable(s: State, entry: EventEntry, skip: Option<Uuid>) {
    forall c :: c in s.table && Some(c) != skip && ActiveChild(s.table, entry.txn, c) ==> !Touches(s.log, c, entry.entity)
  }

  // ---------------------------------------------------------------- what the code does

  function Counter(s: State, txn: Uuid, entity: Uuid): nat {
    if (entity, txn) in s.counters then s.counters[(entity, txn)] else 0
  }

  /** `InMemoryTransactionRepository._submit`: the moves a stored status may make. */
  predicate MayMove(from: Status, to: Status) {
    match from
    case Pending => to in {Pending, Reserving, Rejected}
    case Reserving => to in {Reserved, Rejected}
    case Reserved => to in {Committing, Rejected}
    case Committing => to == Committed
    case Committed => false
    case Rejected => false
  }

  predicate MaySave(table: Table, txn: Uuid, to: Status) {
    txn in table ==> MayMove(table[txn].status, to)
  }

  /** `EventRepository.submit`: the new state, and whether the entry was stored. The counter moves even on a collision. */
  function Submit(s: State, entry: EventEntry, version: Option<nat>, skip: Option<Uuid>, source: int): (State, bool) {
    if !Submittable(s, entry, skip) then (s, false)
    else
      var next := Counter(s, entry.txn, entry.entity) + 1;
      var counted := s.(counters := s.counters[(entry.entity, entry.txn) := next]);
      var v := if version.None? then next else version.value;
      if v < next then (counted, false)
      else (counted.(log := s.log + [entry.(version := v)], source := s.source + [source]), true)
  }

  function SetStatus(s: State, txn: Uuid, status: Status, offset: nat): State
    requires txn in s.table
  {
    s.(table := s.table[txn := s.table[txn].(status := status, eventOffset := offset)])
  }

  /** `TransactionEntry.reserve`, under both locks. */
  function ReserveEffect(s: State, txn: Uuid): State {
    if txn !in s.table || !MaySave(s.table, txn, Reserving) then s
    else SetStatus(s, txn, if Committable(s, txn) then Reserved else Rejected, 1 + |s.log|)
  }

  /** One round of the loop of `TransactionEntry._commit`; a refused entry abandons the commit and its lock. */
  function CopyEffect(s: State, commit: Copying): State {
    var todo := Positions(s.log, commit.txn);
    if commit.copied >= |todo| || commit.txn !in s.table then s
    else
      var entry := s.log[todo[commit.copied]];
      var (s', ok) := Submit(s, entry.(txn := s.table[commit.txn].dest), Some(entry.version), Some(commit.txn), todo[commit.copied]);
      s'.(running := if ok then Some(commit.(copied := commit.copied + 1)) else None)
  }

  function Apply(s: State, step: Step): State {
    match step
    case Begin(t, dest) =>
      if MaySave(s.table, t, Pending) then s.(table := s.table[t := Txn(Pending, dest, 0)]) else s
    case Write(entry, version) => Submit(s, entry, version, None, -1).0
    case Reserve(t) => if s.running.Some? then s else ReserveEffect(s, t)
    case BeginCommit(t) =>
      if s.running.Some? || t !in s.table || !MaySave(s.table, t, Committing) then s
      else SetStatus(s, t, Committing, s.table[t].eventOffset).(running := Some(Copying(t, 0)))
    case CopyNext => if s.running.None? then s else CopyEffect(s, s.running.value)
    case EndCommit =>
      if s.running.None? || s.running.value.txn !in s.table then s
      else
        var t := s.running.value.txn;
        if s.running.value.copied < |Positions(s.log, t)| || !MaySave(s.table, t, Committed) then s
        else SetStatus(s, t, Committed, 1 + |s.log|).(running := None)
    case Reject(t) =>
      if s.running.Some? || t !in s.table || !MaySave(s.table, t, Rejected) then s
      else SetStatus(s, t, Rejected, 1 + |s.log|)
  }

  // ---------------------------------------------------------------- what a run respects

  /**
    `base(t, e)` is the version of e that t inherits from its ancestors; the outermost log inherits
    nothing. A nested transaction's view of e is assumed not to shift under it while it is open.
   */
  type Base = (Uuid, Uuid) -> nat

  ghost predicate RootedBase(base: Base) {
    forall e: Uuid :: base(NULL_UUID, e) == 0
  }

  function Latest(base: Base, log: Log, txn: Uuid, entity: Uuid): nat {
    base(txn, entity) + Own(log, txn, entity)
  }

  /** On every level above `txn`, the inherited version lies within what the level above holds. */
  ghost predicate Anchored(base: Base, s: State, txn: Uuid, entity: Uuid)
    decreases txn
  {
    txn == NULL_UUID ||
    (txn in s.table && s.table[txn].dest < txn &&
     base(s.table[txn].dest, entity) <= base(txn, entity) <= Latest(base, s.log, s.table[txn].dest, entity) &&
     Anchored(base, s, s.table[txn].dest, entity))
  }

  ghost predicate OncePerEntity(log: Log, txn: Uuid) {
    forall i, j :: 0 <= i < |log| && 0 <= j < |log| && log[i].txn == txn && log[j].txn == txn && i != j ==> log[i].entity != log[j].entity
  }

  /** An in-transaction write happens while the transaction is pending, at one plus the latest version its chain shows. */
  ghost predicate PermittedWrite(base: Base, s: State, entry: EventEntry, version: Option<nat>) {
    if entry.txn == NULL_UUID then version.None?
    else
      HasStatus(s.table, entry.txn, {Pending}) &&
      version == Some(Latest(base, s.log, entry.txn, entry.entity) + 1) &&
      (Own(s.log, entry.txn, entry.entity) == 0 ==>
         base(entry.txn, entry.entity) == Latest(base, s.log, s.table[entry.txn].dest, entry.entity) &&
         Anchored(base, s, s.table[entry.txn].dest, entry.entity))
  }

  ghost predicate Permitted(base: Base, s: State, step: Step) {
    match step
    case Begin(t, dest) =>
      dest < t && (dest == NULL_UUID || dest in s.table) && (t in s.table ==> s.table[t].dest == dest)
    case Write(entry, version) => PermittedWrite(base, s, entry, version)
    case Reserve(t) => OncePerEntity(s.log, t) && forall c :: c in s.table ==> !ActiveChild(s.table, t, c)
    case _ => true
  }

  ghost predicate Next(base: Base, s: State, step: Step, s': State) {
    Permitted(base, s, step) && s' == Apply(s, step)
  }

  // ---------------------------------------------------------------- the invariant

  ghost predicate Shape(s: State) {
    |s.source| == |s.log| && NULL_UUID !in s.table &&
    (forall t :: t in s.table ==> s.table[t].dest < t && (s.table[t].dest == NULL_UUID || s.table[t].dest in s.table)) &&
    (forall t :: t in s.table ==> s.table[t].status != Reserving)
  }

  /** Versions of each entity, within each transaction, count up from the inherited one with no gap and no repetition. */
  ghost predicate Contiguous(base: Base, log: Log) {
    forall i :: 0 <= i < |log| ==> log[i].version == Latest(base, log[..i], log[i].txn, log[i].entity) + 1
  }

  ghost predicate CountersExact(s: State) {
    forall t: Uuid, e: Uuid :: Counter(s, t, e) == Own(s.log, t, e)
  }

  ghost predicate EventsAnchored(base: Base, s: State) {
    forall i :: 0 <= i < |s.log| ==> Anchored(base, s, s.log[i].txn, s.log[i].entity)
  }

  ghost predicate Copied(s: State, i: nat) {
    exists j :: 0 <= j < |s.source| && s.source[j] == i
  }

  /** An active transaction's events, as long as they are not copied, are exactly the next ones of its destination. */
  ghost predicate Ready(base: Base, s: State, t: Uuid)
    requires t in s.table
  {
    OncePerEntity(s.log, t) && !HasStatus(s.table, s.table[t].dest, {Reserving, Reserved, Committing, Committed}) &&
    forall i :: 0 <= i < |s.log| && s.log[i].txn == t && !Copied(s, i) ==>
      s.log[i].version == Latest(base, s.log, s.table[t].dest, s.log[i].entity) + 1
  }

  ghost predicate AllReady(base: Base, s: State) {
    forall t :: t in s.table && Active(s.table, t) ==> Ready(base, s, t)
  }

  predicate ActiveSiblings(table: Table, t: Uuid, u: Uuid) {
    t != u && Active(table, t) && Active(table, u) && table[t].dest == table[u].dest
  }

  /** No two active siblings have touched the same entity. */
  ghost predicate Exclusive(s: State) {
    forall i, j :: 0 <= i < |s.log| && 0 <= j < |s.log| && ActiveSiblings(s.table, s.log[i].txn, s.log[j].txn) ==>
      s.log[i].entity != s.log[j].entity
  }

  ghost predicate RunningExact(s: State) {
    (forall t :: t in s.table && s.table[t].status == Committing ==> s.running.Some? && s.running.value.txn == t) &&
    (s.running.Some? ==>
       var todo := Positions(s.log, s.running.value.txn);
       HasStatus(s.table, s.running.value.txn, {Committing}) && s.running.value.copied <= |todo| &&
       forall k :: 0 <= k < |todo| ==> (Copied(s, todo[k]) <==> k < s.running.value.copied))
  }

  /** Every copy comes from a committing or committed transaction, is that event in the destination, and is its only copy. */
  ghost predicate SourcesExact(s: State)
    requires |s.source| == |s.log|
  {
    (forall i :: 0 <= i < |s.log| && s.source[i] != -1 ==>
       0 <= s.source[i] < i &&
       HasStatus(s.table, s.log[s.source[i]].txn, {Committing, Committed}) &&
       s.log[i] == s.log[s.source[i]].(txn := s.table[s.log[s.source[i]].txn].dest)) &&
    (forall i, j :: 0 <= i < |s.log| && 0 <= j < |s.log| && i != j && s.source[i] != -1 ==> s.source[i] != s.source[j]) &&
    (forall i :: 0 <= i < |s.log| && HasStatus(s.table, s.log[i].txn, {Committed}) ==> Copied(s, i))
  }

  ghost predicate Inv(base: Base, s: State) {
    Shape(s) && Contiguous(base, s.log) && CountersExact(s) && EventsAnchored(base, s) &&
    AllReady(base, s) && Exclusive(s) && RunningExact(s) && SourcesExact(s)
  }
}
