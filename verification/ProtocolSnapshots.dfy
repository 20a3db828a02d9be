/** What the snapshot table assumes of the log and the transactions is what the transaction protocol does. */
module ProtocolSnapshots {
  import opened Wrappers
  import TP = TransactionProtocol
  import TransactionSafety
  import TransactionTheorems
  import CommitVisibility
  import EventSourcing
  import opened SnapshotTable

  type Meaning = TP.EventEntry -> EventSourcing.Event

  /** Whatever an entry means as an event, it keeps its version. */
  ghost predicate KeepsVersions(meaning: Meaning) {
    forall x :: meaning(x).version == x.version
  }

  function EntryOf(meaning: Meaning, x: TP.EventEntry): EventEntry { EventEntry(x.entity, x.txn, meaning(x)) }

  function LogOf(meaning: Meaning, log: TP.Log): (r: seq<EventEntry>)
    ensures |r| == |log| && forall i :: 0 <= i < |log| ==> r[i] == EntryOf(meaning, log[i])
  {
    seq(|log|, i requires 0 <= i < |log| => EntryOf(meaning, log[i]))
  }

  function TxnOf(txn: TP.Txn): Txn {
    Txn(txn.dest, txn.status == TP.Committed || txn.status == TP.Rejected, txn.eventOffset)
  }

  function TxnsOf(table: TP.Table): Txns { map t | t in table :: TxnOf(table[t]) }

  /** In every run of the protocol the global versions of an entity go up along the log. */
  lemma {:induction false} ProtocolLogAscends(base: TP.Base, states: seq<TP.State>, steps: seq<TP.Step>, k: nat, meaning: Meaning)
    requires TP.RootedBase(base) && TransactionTheorems.Run(base, states, steps) && k < |states| && KeepsVersions(meaning)
    ensures Ascending(LogOf(meaning, states[k].log))
  {
    TransactionTheorems.RunKeeps(base, states, steps, k);
    LogAscends(base, states[k], meaning);
  }

  lemma {:induction false} LogAscends(base: TP.Base, s: TP.State, meaning: Meaning)
    requires TP.Inv(base, s) && KeepsVersions(meaning)
    ensures Ascending(LogOf(meaning, s.log))
  {
    var log := LogOf(meaning, s.log);
    forall i, j | 0 <= i < j < |log| && Global(log[i], log[i].entity) && Global(log[j], log[i].entity)
      ensures log[i].event.version < log[j].event.version
    {
      CommitVisibility.VersionsAscend(base, s.log, i, j);
    }
  }

  /** The table's view of the protocol: its log and its transactions. */
  ghost predicate Follows(meaning: Meaning, w: State, s: TP.State) {
    w.log == LogOf(meaning, s.log) && w.txns == TxnsOf(s.table)
  }

  /** The transaction that a step saves. */
  function Saved(s: TP.State, step: TP.Step): Option<Uuid> {
    match step
    case Write(_, _) => None
    case CopyNext => None
    case EndCommit => if s.running.Some? then Some(s.running.value.txn) else None
    case _ => Some(step.txn)
  }

  /** The step of the table that a step of the protocol is, if it changes the log or the stored transactions. */
  function StepOf(meaning: Meaning, s: TP.State, step: TP.Step, s': TP.State): Option<Step> {
    if |s.log| < |s'.log| then Some(Append(EntryOf(meaning, s'.log[|s.log|])))
    else if s'.table == s.table || Saved(s, step).None? || Saved(s, step).value !in s'.table then None
    else
      var t := Saved(s, step).value;
      var txn := TxnOf(s'.table[t]);
      if txn.final then Some(SaveFinal(t)) else Some(SaveOpen(t, txn.dest, txn.offset))
  }

  predicate Ended(table: TP.Table, t: Uuid) { TP.HasStatus(table, t, {TP.Committed, TP.Rejected}) }

  /** A save of an open transaction, final ones with the length of the log plus one. */
  predicate SavesOne(s: TP.State, t: Uuid, s': TP.State) {
    t != NULL_UUID && t in s'.table && s'.table == s.table[t := s'.table[t]] && !Ended(s.table, t) &&
    (Ended(s'.table, t) ==> t in s.table && s'.table[t].dest == s.table[t].dest && s'.table[t].eventOffset == |s.log| + 1)
  }

  /** A commit copies into a destination that has not been rejected in the meantime. */
  predicate OpenDestination(s: TP.State, step: TP.Step) {
    step.CopyNext? && s.running.Some? && s.running.value.txn in s.table ==>
      !TP.HasStatus(s.table, s.table[s.running.value.txn].dest, {TP.Rejected})
  }

  lemma {:induction false} SavesAreSaves(base: TP.Base, s: TP.State, step: TP.Step, s': TP.State)
    requires TP.Inv(base, s) && TP.Next(base, s, step, s') && !step.Write? && !step.CopyNext?
    ensures s'.log == s.log && (s'.table == s.table || (Saved(s, step).Some? && SavesOne(s, Saved(s, step).value, s')))
  {
    hide TP.Committable, TP.Contiguous, TP.CountersExact, TP.EventsAnchored, TP.AllReady, TP.Exclusive, TP.SourcesExact, TP.Positions;
    if step.EndCommit? && s.running.Some? { assert TP.HasStatus(s.table, s.running.value.txn, {TP.Committing}); }
  }

  /** An event is stored outside transactions, or in one that has not ended, but for a copy into a rejected destination. */
  lemma {:induction false} AppendsAreOpen(base: TP.Base, s: TP.State, step: TP.Step, s': TP.State)
    requires TP.Inv(base, s) && TP.Next(base, s, step, s') && (step.Write? || step.CopyNext?)
    ensures s'.table == s.table && (s'.log == s.log || (|s'.log| == |s.log| + 1 && s'.log[..|s.log|] == s.log))
    ensures |s.log| < |s'.log| ==>
              var x := s'.log[|s.log|];
              OpenDestination(s, step) <==> (x.txn == NULL_UUID || (x.txn in s.table && !Ended(s.table, x.txn)))
  {
    hide TP.Submittable, TP.Contiguous, TP.CountersExact, TP.EventsAnchored, TP.Exclusive, TP.SourcesExact, TP.Anchored, TP.Positions;
    if step.CopyNext? && s.running.Some? && s.running.value.txn in s.table {
      assert TP.Active(s.table, s.running.value.txn);
      assert TP.Ready(base, s, s.running.value.txn);
    }
  }

  /**
    Every step of the protocol is at most one step of the table's world. It is one that the rules of that
    world allow exactly if it is not a copy into a destination that was rejected in the meantime.
   */
  lemma {:induction false} ProtocolStepIsTableStep(base: TP.Base, s: TP.State, step: TP.Step, s': TP.State, meaning: Meaning, w: State)
    requires TP.RootedBase(base) && TP.Inv(base, s) && TP.Next(base, s, step, s')
    requires KeepsVersions(meaning) && Follows(meaning, w, s)
    ensures match StepOf(meaning, s, step, s')
            case None => Follows(meaning, w, s')
            case Some(x) =>
              (Enabled(w, x) <==> OpenDestination(s, step)) &&
              (Enabled(w, x) ==> Next(w, x, Apply(w, x)) && Follows(meaning, Apply(w, x), s'))
  {
    hide TP.Inv, TP.Next;
    TransactionSafety.StepKeeps(base, s, step, s');
    LogAscends(base, s', meaning);
    LogAscends(base, s, meaning);
    hide Ascending;
    if step.Write? || step.CopyNext? {
      AppendsAreOpen(base, s, step, s');
      if |s.log| < |s'.log| { assert LogOf(meaning, s'.log) == LogOf(meaning, s.log) + [EntryOf(meaning, s'.log[|s.log|])]; }
    } else {
      SavesAreSaves(base, s, step, s');
      if s'.table != s.table { SaveFollows(s, Saved(s, step).value, s'); }
    }
  }

  lemma {:induction false} SaveFollows(s: TP.State, t: Uuid, s': TP.State)
    requires SavesOne(s, t, s')
    ensures TxnsOf(s'.table) == TxnsOf(s.table)[t := TxnOf(s'.table[t])]
  {
  }
}
