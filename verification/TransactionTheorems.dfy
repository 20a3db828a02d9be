/** What every run of the transaction protocol guarantees, and where the guarantees stop. */
module TransactionTheorems {
  import opened Wrappers
  import opened TransactionProtocol
  import opened TransactionSafety

  /** A run from the empty repositories: arbitrary steps, arbitrarily interleaved. */
  ghost predicate Run(base: Base, states: seq<State>, steps: seq<Step>) {
    |states| == |steps| + 1 && states[0] == EmptyState &&
    forall k :: 0 <= k < |steps| ==> Next(base, states[k], steps[k], states[k + 1])
  }

  lemma {:induction false} RunKeeps(base: Base, states: seq<State>, steps: seq<Step>, k: nat)
    requires RootedBase(base) && Run(base, states, steps) && k < |states|
    ensures Inv(base, states[k])
  {
    if k > 0 {
      RunKeeps(base, states, steps, k - 1);
      StepKeeps(base, states[k - 1], steps[k - 1], states[k]);
    }
  }

  /** Reservation exclusion: at no point of a run do two active siblings hold the same entity. */
  lemma {:induction false} ReservationExclusion(base: Base, states: seq<State>, steps: seq<Step>, k: nat, t: Uuid, u: Uuid, e: Uuid)
    requires RootedBase(base) && Run(base, states, steps) && k < |states| && ActiveSiblings(states[k].table, t, u)
    ensures !(Touches(states[k].log, t, e) && Touches(states[k].log, u, e))
  {
    RunKeeps(base, states, steps, k);
    assert Exclusive(states[k]);
  }

  /** The versions of `entity` within `txn`, in log order. */
  function VersionsOf(log: Log, txn: Uuid, entity: Uuid): seq<nat> {
    if log == [] then []
    else
      var last := log[|log| - 1];
      VersionsOf(log[..|log| - 1], txn, entity) + if last.txn == txn && last.entity == entity then [last.version] else []
  }

  ghost predicate CountsUpFrom(versions: seq<nat>, first: nat, count: nat) {
    |versions| == count && forall i :: 0 <= i < count ==> versions[i] == first + i
  }

  lemma {:induction false} VersionsCountUp(base: Base, log: Log, t: Uuid, e: Uuid)
    requires Contiguous(base, log)
    ensures CountsUpFrom(VersionsOf(log, t, e), base(t, e) + 1, Own(log, t, e))
  {
    if log != [] {
      var n := |log| - 1;
      assert forall i :: 0 <= i < n ==> log[..n][i] == log[i] && log[..n][..i] == log[..i];
      VersionsCountUp(base, log[..n], t, e);
    }
  }

  /** In every run the outermost versions of an entity are 1, 2, ..., n, and a transaction's continue the inherited one. */
  lemma {:induction false} VersionsHaveNoGap(base: Base, states: seq<State>, steps: seq<Step>, k: nat, t: Uuid, e: Uuid)
    requires RootedBase(base) && Run(base, states, steps) && k < |states|
    ensures CountsUpFrom(VersionsOf(states[k].log, t, e), base(t, e) + 1, Own(states[k].log, t, e))
    ensures CountsUpFrom(VersionsOf(states[k].log, NULL_UUID, e), 1, Own(states[k].log, NULL_UUID, e))
  {
    RunKeeps(base, states, steps, k);
    VersionsCountUp(base, states[k].log, t, e);
    VersionsCountUp(base, states[k].log, NULL_UUID, e);
  }

  // ---------------------------------------------------------------- a reserved transaction can always commit

  /** The copies a commit still has to store, in order. */
  function PendingCopies(s: State, t: Uuid, copied: nat): (r: seq<EventEntry>)
    requires t in s.table && copied <= |Positions(s.log, t)|
    ensures |r| == |Positions(s.log, t)| - copied
  {
    seq(|Positions(s.log, t)| - copied, i requires 0 <= i < |Positions(s.log, t)| - copied =>
      s.log[Positions(s.log, t)[copied + i]].(txn := s.table[t].dest))
  }

  lemma {:induction false} CopyStores(base: Base, s: State)
    requires Inv(base, s) && s.running.Some? && s.running.value.copied < |Positions(s.log, s.running.value.txn)|
    ensures
      var t, c := s.running.value.txn, s.running.value.copied;
      var s' := Apply(s, CopyNext);
      s'.running == Some(Copying(t, c + 1)) && s'.table == s.table && s'.log == s.log + [PendingCopies(s, t, c)[0]] &&
      s.table[t].dest != t
  {
    hide Contiguous, CountersExact, EventsAnchored, AllReady, Exclusive, SourcesExact, Anchored, Submittable;
    CopyIsAccepted(base, s);
  }

  /** One round of the commit loop stores exactly the next pending copy, whatever happened in between. */
  lemma {:induction false} CopyAdvances(base: Base, s: State)
    requires RootedBase(base) && Inv(base, s) && s.running.Some?
    requires s.running.value.copied < |Positions(s.log, s.running.value.txn)|
    ensures
      var t, c := s.running.value.txn, s.running.value.copied;
      var s' := Apply(s, CopyNext);
      Inv(base, s') && s'.running == Some(Copying(t, c + 1)) && s'.table == s.table &&
      s'.log == s.log + [PendingCopies(s, t, c)[0]] && Positions(s'.log, t) == Positions(s.log, t) &&
      PendingCopies(s', t, c + 1) == PendingCopies(s, t, c)[1..]
  {
    hide Contiguous, CountersExact, EventsAnchored, AllReady, Exclusive, SourcesExact, Anchored, Apply, Shape;
    var t, c := s.running.value.txn, s.running.value.copied;
    CopyStores(base, s);
    StepKeeps(base, s, CopyNext, Apply(s, CopyNext));
    PositionsAppend(s.log, PendingCopies(s, t, c)[0], t);
  }

  /** The rest of the commit, run to its end. */
  function FinishCommit(s: State): State
    decreases if s.running.None? then 0 else |Positions(s.log, s.running.value.txn)| - s.running.value.copied
  {
    if s.running.None? || s.running.value.copied >= |Positions(s.log, s.running.value.txn)| then Apply(s, EndCommit)
    else
      var s' := Apply(s, CopyNext);
      if s'.running == Some(s.running.value.(copied := s.running.value.copied + 1)) &&
         |Positions(s'.log, s.running.value.txn)| == |Positions(s.log, s.running.value.txn)|
      then FinishCommit(s') else s'
  }

  lemma {:induction false} FinishUnfolds(s: State)
    requires s.running.Some?
    ensures
      var todo := Positions(s.log, s.running.value.txn);
      var s' := Apply(s, CopyNext);
      FinishCommit(s) ==
      if s.running.value.copied >= |todo| then Apply(s, EndCommit)
      else if s'.running == Some(s.running.value.(copied := s.running.value.copied + 1)) &&
           |Positions(s'.log, s.running.value.txn)| == |todo|
      then FinishCommit(s') else s'
  {
    hide Apply, Positions;
  }

  lemma {:induction false} CommitEnds(base: Base, s: State)
    requires RootedBase(base) && Inv(base, s) && s.running.Some?
    requires s.running.value.copied == |Positions(s.log, s.running.value.txn)|
    ensures
      var s' := Apply(s, EndCommit);
      Inv(base, s') && s'.running.None? && HasStatus(s'.table, s.running.value.txn, {Committed}) &&
      s'.log == s.log && s'.table[s.running.value.txn].eventOffset == 1 + |s'.log|
  {
    hide Contiguous, CountersExact, EventsAnchored, Exclusive, SourcesExact, AllReady;
    StepKeeps(base, s, EndCommit, Apply(s, EndCommit));
  }

  /** Commit guarantee: from any point of a commit it runs to COMMITTED and appends exactly the pending copies. */
  lemma {:induction false} CommitFinishes(base: Base, s: State)
    requires RootedBase(base) && Inv(base, s) && s.running.Some?
    ensures
      var t, c := s.running.value.txn, s.running.value.copied;
      var s' := FinishCommit(s);
      Inv(base, s') && s'.running.None? && HasStatus(s'.table, t, {Committed}) &&
      s'.log == s.log + PendingCopies(s, t, c) && s'.table[t].eventOffset == 1 + |s'.log|
    decreases |Positions(s.log, s.running.value.txn)| - s.running.value.copied
  {
    hide Contiguous, CountersExact, EventsAnchored, Exclusive, SourcesExact, AllReady, Shape, Apply, Positions, FinishCommit, PendingCopies;
    if s.running.value.copied < |Positions(s.log, s.running.value.txn)| {
      CopyAdvances(base, s);
      FinishUnfolds(s);
      CommitFinishes(base, Apply(s, CopyNext));
    } else {
      CommitEnds(base, s);
      FinishUnfolds(s);
    }
  }

  /** A participant that answered "reserved" can always commit: its events land after the log, one for one. */
  lemma {:induction false} ReservedCommits(base: Base, states: seq<State>, steps: seq<Step>, k: nat, t: Uuid)
    requires RootedBase(base) && Run(base, states, steps) && k < |states|
    requires HasStatus(states[k].table, t, {Reserved}) && states[k].running.None?
    ensures
      var s' := FinishCommit(Apply(states[k], BeginCommit(t)));
      HasStatus(s'.table, t, {Committed}) && s'.running.None? && s'.log == states[k].log + PendingCopies(states[k], t, 0)
  {
    RunKeeps(base, states, steps, k);
    var s1 := Apply(states[k], BeginCommit(t));
    StepKeeps(base, states[k], BeginCommit(t), s1);
    CommitFinishes(base, s1);
    assert PendingCopies(s1, t, 0) == PendingCopies(states[k], t, 0);
  }

  // ---------------------------------------------------------------- stale handles

  lemma {:induction false} FinalStatusStays(base: Base, s: State, step: Step, s': State, t: Uuid)
    requires Next(base, s, step, s') && HasStatus(s.table, t, {Committed, Rejected})
    ensures t in s'.table && s'.table[t].status == s.table[t].status
  {
  }

  /** Along a run a transaction is never both COMMITTED and REJECTED, whatever handles were used on it. */
  lemma {:induction false} OneOutcome(base: Base, states: seq<State>, steps: seq<Step>, j: nat, k: nat, t: Uuid)
    requires Run(base, states, steps) && j <= k < |states| && HasStatus(states[j].table, t, {Committed, Rejected})
    ensures t in states[k].table && states[k].table[t].status == states[j].table[t].status
    decreases k
  {
    if j < k {
      OneOutcome(base, states, steps, j, k - 1, t);
      FinalStatusStays(base, states[k - 1], steps[k - 1], states[k], t);
    }
  }

  /**
    Stale handles are harmless: every copied event has one copy at most, its transaction is committing
    or committed and never rejected, and a committed transaction has every event copied.
   */
  lemma {:induction false} CopiesAreExact(base: Base, states: seq<State>, steps: seq<Step>, k: nat, i: nat, j: nat)
    requires RootedBase(base) && Run(base, states, steps) && k < |states| && i < |states[k].log| && j < |states[k].log|
    ensures
      var s := states[k];
      |s.source| == |s.log| && (s.source[j] != -1 ==>
         (i != j ==> s.source[i] != s.source[j]) && 0 <= s.source[j] < j &&
         HasStatus(s.table, s.log[s.source[j]].txn, {Committing, Committed}) &&
         s.log[j] == s.log[s.source[j]].(txn := s.table[s.log[s.source[j]].txn].dest))
    ensures HasStatus(states[k].table, states[k].log[i].txn, {Committed}) ==> Copied(states[k], i)
  {
    RunKeeps(base, states, steps, k);
  }

  // ---------------------------------------------------------------- where the guarantees stop

  /**
    `validate` compares the highest version only. Any pending transaction that has written an entity
    twice is still accepted after a direct write of that entity, and its first event can then never
    be copied: writing each entity once is necessary for the commit guarantee, not only sufficient.
   */
  lemma {:induction false} TwoWritesBreakCommit(base: Base, s: State, t: Uuid, e: Uuid, direct: EventEntry) returns (i: nat)
    requires RootedBase(base) && Inv(base, s) && s.running.None? && HasStatus(s.table, t, {Pending})
    requires s.table[t].dest == NULL_UUID && Committable(s, t)
    requires Own(s.log, t, e) >= 2 && base(t, e) == Own(s.log, NULL_UUID, e)
    requires direct.txn == NULL_UUID && direct.entity == e && Submittable(s, direct, None)
    ensures
      var s1 := Apply(s, Write(direct, None));
      var s2 := Apply(s1, Reserve(t));
      HasStatus(s2.table, t, {Reserved}) && i < |s2.log| && s2.log[i].txn == t && s2.log[i].entity == e &&
      !Submit(s2, s2.log[i].(txn := NULL_UUID), Some(s2.log[i].version), Some(t), i).1
  {
    var s1 := Apply(s, Write(direct, None));
    var x := direct.(version := Latest(base, s.log, NULL_UUID, e) + 1);
    hide AllReady, Exclusive, RunningExact, SourcesExact, Anchored, EventsAnchored;
    WriteAppends(base, s, direct, None, s1);
    i := VersionPresent(base, s.log, t, e, base(t, e) + 1);
    assert s1.log[i] == s.log[i];
    TwoWritesStayCommittable(base, s, t, e, x, s1);
    assert Counter(s, NULL_UUID, e) == Own(s.log, NULL_UUID, e);
  }

  lemma {:induction false} TwoWritesStayCommittable(base: Base, s: State, t: Uuid, e: Uuid, x: EventEntry, s1: State)
    requires Contiguous(base, s.log) && Shape(s) && t in s.table && s.table[t].dest == NULL_UUID && Committable(s, t)
    requires Own(s.log, t, e) >= 2 && base(t, e) == Own(s.log, NULL_UUID, e) && base(NULL_UUID, e) == 0
    requires x.txn == NULL_UUID && x.entity == e && x.version == Own(s.log, NULL_UUID, e) + 1 && Appended(s, x, -1, s1)
    ensures Committable(s1, t)
  {
    var top := VersionPresent(base, s.log, t, e, base(t, e) + Own(s.log, t, e));
    forall i, j | 0 <= i < |s1.log| && 0 <= j < |s1.log| && HighestWrite(s1.log, t, i)
      ensures !Clashes(s1, t, i, j)
    {
      assert s1.log[i] == s.log[i] && s1.log[top] == s.log[top];
      assert HighestWrite(s.log, t, i) by {
        assert forall k :: 0 <= k < |s.log| ==> s1.log[k] == s.log[k];
      }
      if j < |s.log| { assert s1.log[j] == s.log[j] && !Clashes(s, t, i, j); }
    }
  }

  /**
    Below the outermost level `validate` looks for the very version in the destination and its other
    children only. Two siblings that wrote one entity at different versions, because an ancestor moved
    on in between, both pass it, and then block each other: the first copy is refused and the commit
    is abandoned in COMMITTING. Hence the assumption that a nested view does not shift.
   */
  lemma {:induction false} ShiftedSiblingsBlockEachOther(s: State, t: Uuid, u: Uuid, i: nat, j: nat)
    requires Shifted(s, t, u, i, j)
    ensures
      var both := Apply(Apply(s, Reserve(t)), Reserve(u));
      ActiveSiblings(both.table, t, u) && Touches(both.log, t, s.log[i].entity) && Touches(both.log, u, s.log[i].entity)
    ensures
      var both := Apply(Apply(s, Reserve(t)), Reserve(u));
      var stuck := Apply(Apply(both, BeginCommit(t)), CopyNext);
      stuck.running.None? && HasStatus(stuck.table, t, {Committing}) && stuck.log == s.log
  {
    ShiftedSiblingsReserve(s, t, u, i, j);
    var both := Apply(Apply(s, Reserve(t)), Reserve(u));
    var begun := Apply(both, BeginCommit(t));
    assert ActiveChild(begun.table, s.table[t].dest, u) && Touches(begun.log, u, s.log[i].entity);
  }

  /** Pending siblings on an open destination whose only events, of one entity, carry different versions. */
  ghost predicate Shifted(s: State, t: Uuid, u: Uuid, i: nat, j: nat) {
    s.running.None? && t != u && HasStatus(s.table, t, {Pending}) && HasStatus(s.table, u, {Pending}) &&
    s.table[t].dest == s.table[u].dest && s.table[t].dest !in {t, u} &&
    !HasStatus(s.table, s.table[t].dest, {Reserving, Reserved, Committing, Committed, Rejected}) &&
    i < |s.log| && j < |s.log| && s.log[i].txn == t && s.log[j].txn == u && s.log[i].entity == s.log[j].entity &&
    Positions(s.log, t) == [i] && Positions(s.log, u) == [j] && s.log[i].version != s.log[j].version &&
    forall k :: 0 <= k < |s.log| && s.log[k].entity == s.log[i].entity ==>
      s.log[k].txn != s.table[t].dest && !HasStatus(s.table, s.log[k].txn, {Reserving, Reserved, Committing, Committed})
  }

  lemma {:induction false} ShiftedSiblingsReserve(s: State, t: Uuid, u: Uuid, i: nat, j: nat)
    requires Shifted(s, t, u, i, j)
    ensures
      var both := Apply(Apply(s, Reserve(t)), Reserve(u));
      both.log == s.log && both.running.None? && both.table.Keys == s.table.Keys &&
      HasStatus(both.table, t, {Reserved}) && HasStatus(both.table, u, {Reserved}) &&
      both.table[t].dest == s.table[t].dest && both.table[u].dest == s.table[u].dest
  {
    OnlyPosition(s.log, t, i);
    OnlyPosition(s.log, u, j);
    assert Committable(s, t);
    assert Committable(Apply(s, Reserve(t)), u);
  }

  lemma {:induction false} OnlyPosition(log: Log, t: Uuid, i: nat)
    requires Positions(log, t) == [i]
    ensures forall k :: 0 <= k < |log| && log[k].txn == t ==> k == i
  {
    forall k | 0 <= k < |log| && log[k].txn == t ensures k == i { PositionsComplete(log, t, k); }
  }

  /** Transactions 2 and 3 run on top of 1, and the entity is written directly between their writes. */
  function ShiftedRun(e2: EventEntry, e0: EventEntry, e3: EventEntry): State {
    var s0 := Apply(Apply(Apply(EmptyState, Begin(1, 0)), Begin(2, 1)), Begin(3, 1));
    Apply(Apply(Apply(s0, Write(e2, Some(1))), Write(e0, None)), Write(e3, Some(2)))
  }

  lemma {:induction false} ShiftedRunState(e2: EventEntry, e0: EventEntry, e3: EventEntry)
    requires e2.txn == 2 && e0.txn == NULL_UUID && e3.txn == 3 && e2.entity == e0.entity == e3.entity
    ensures ShiftedRun(e2, e0, e3).log == [e2.(version := 1)] + [e0.(version := 1)] + [e3.(version := 2)]
    ensures ShiftedRun(e2, e0, e3).table == map[1 := Txn(Pending, 0, 0), 2 := Txn(Pending, 1, 0), 3 := Txn(Pending, 1, 0)]
    ensures ShiftedRun(e2, e0, e3).running.None?
  {
    var s0 := Apply(Apply(Apply(EmptyState, Begin(1, 0)), Begin(2, 1)), Begin(3, 1));
    var a := Apply(s0, Write(e2, Some(1)));
    assert a.log == [e2.(version := 1)];
    var b := Apply(a, Write(e0, None));
    assert b.log == a.log + [e0.(version := 1)];
  }

  /** The premise on nested views cannot be dropped: exclusion fails in this run, and a commit is left unfinished. */
  lemma {:induction false} NestedExclusionFails(e2: EventEntry, e0: EventEntry, e3: EventEntry)
    requires e2.txn == 2 && e0.txn == NULL_UUID && e3.txn == 3 && e2.entity == e0.entity == e3.entity
    ensures
      var both := Apply(Apply(ShiftedRun(e2, e0, e3), Reserve(2)), Reserve(3));
      var stuck := Apply(Apply(both, BeginCommit(2)), CopyNext);
      ActiveSiblings(both.table, 2, 3) && Touches(both.log, 2, e2.entity) && Touches(both.log, 3, e2.entity) &&
      stuck.running.None? && HasStatus(stuck.table, 2, {Committing})
  {
    hide ShiftedRun, Apply;
    var s := ShiftedRun(e2, e0, e3);
    ShiftedRunState(e2, e0, e3);
    forall t | t in {2, 3}
      ensures Positions(s.log, t) == if t == 2 then [0] else [2]
    {
      PositionsAppend([], e2.(version := 1), t);
      PositionsAppend([e2.(version := 1)], e0.(version := 1), t);
      PositionsAppend([e2.(version := 1)] + [e0.(version := 1)], e3.(version := 2), t);
      assert [] + [e2.(version := 1)] == [e2.(version := 1)];
    }
    assert s.log[0] == e2.(version := 1) && s.log[2] == e3.(version := 2);
    ShiftedSiblingsBlockEachOther(s, 2, 3, 0, 2);
  }
}
