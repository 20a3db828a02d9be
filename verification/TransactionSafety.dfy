/** The invariant of the transaction protocol holds in every reachable state, and what follows from it. */
module TransactionSafety {
  import opened Wrappers
  import opened TransactionProtocol

  // ---------------------------------------------------------------- logs that grow by one event

  lemma {:induction false} OwnAppend(log: Log, x: EventEntry, t: Uuid, e: Uuid)
    ensures Own(log + [x], t, e) == Own(log, t, e) + if x.txn == t && x.entity == e then 1 else 0
  {
  }

  lemma {:induction false} PositionsAppend(log: Log, x: EventEntry, t: Uuid)
    ensures Positions(log + [x], t) == Positions(log, t) + if x.txn == t then [|log|] else []
  {
  }

  lemma {:induction false} OwnCounts(log: Log, t: Uuid, e: Uuid)
    ensures Own(log, t, e) > 0 <==> Touches(log, t, e)
  {
    if log != [] {
      var n := |log| - 1;
      OwnCounts(log[..n], t, e);
      if Touches(log[..n], t, e) {
        var i :| 0 <= i < n && log[..n][i].txn == t && log[..n][i].entity == e;
        assert log[i].txn == t && log[i].entity == e;
      }
      if Touches(log, t, e) && !(log[n].txn == t && log[n].entity == e) {
        var i :| 0 <= i < |log| && log[i].txn == t && log[i].entity == e;
        assert log[..n][i].txn == t;
      }
    }
  }

  lemma {:induction false} PositionsComplete(log: Log, t: Uuid, i: nat)
    requires i < |log| && log[i].txn == t
    ensures i in Positions(log, t)
  {
    var n := |log| - 1;
    if i < n {
      assert log[..n][i] == log[i];
      PositionsComplete(log[..n], t, i);
    }
  }

  /** Contiguity read the other way: every version between the inherited one and the latest is present. */
  lemma {:induction false} VersionPresent(base: Base, log: Log, t: Uuid, e: Uuid, v: nat) returns (i: nat)
    requires Contiguous(base, log) && base(t, e) < v <= Latest(base, log, t, e)
    ensures i < |log| && log[i].txn == t && log[i].entity == e && log[i].version == v
  {
    var n := |log| - 1;
    if log[n].txn == t && log[n].entity == e && v == Latest(base, log, t, e) {
      i := n;
    } else {
      assert forall k :: 0 <= k < n ==> log[..n][k] == log[k] && log[..n][..k] == log[..k];
      i := VersionPresent(base, log[..n], t, e, v);
    }
  }

  lemma {:induction false} AnchoredGrows(base: Base, s: State, s': State, t: Uuid, e: Uuid)
    requires Anchored(base, s, t, e)
    requires forall u: Uuid :: Own(s.log, u, e) <= Own(s'.log, u, e)
    requires forall u :: u in s.table ==> u in s'.table && s'.table[u].dest == s.table[u].dest
    ensures Anchored(base, s', t, e)
    decreases t
  {
    if t != NULL_UUID {
      AnchoredGrows(base, s, s', s.table[t].dest, e);
    }
  }

  /** `s'` is `s` with one stored event more. */
  ghost predicate Appended(s: State, x: EventEntry, source: int, s': State) {
    s'.log == s.log + [x] && s'.source == s.source + [source] && s'.table == s.table &&
    s'.counters == s.counters[(x.entity, x.txn) := Counter(s, x.txn, x.entity) + 1]
  }

  lemma {:induction false} AppendKeepsVersions(base: Base, s: State, x: EventEntry, source: int, s': State)
    requires Inv(base, s) && Appended(s, x, source, s')
    requires x.version == Latest(base, s.log, x.txn, x.entity) + 1 && Anchored(base, s, x.txn, x.entity)
    ensures Shape(s') && Contiguous(base, s'.log) && CountersExact(s') && EventsAnchored(base, s')
  {
    hide AllReady, Exclusive, RunningExact, SourcesExact, Anchored;
    forall i | 0 <= i < |s'.log|
      ensures s'.log[i].version == Latest(base, s'.log[..i], s'.log[i].txn, s'.log[i].entity) + 1
    {
      if i < |s.log| { assert s'.log[..i] == s.log[..i]; } else { assert s'.log[..i] == s.log; }
    }
    forall t: Uuid, e: Uuid ensures Counter(s', t, e) == Own(s'.log, t, e) {
      OwnAppend(s.log, x, t, e);
      assert Counter(s, t, e) == Own(s.log, t, e);
    }
    forall i | 0 <= i < |s'.log| ensures Anchored(base, s', s'.log[i].txn, s'.log[i].entity) {
      var e := s'.log[i].entity;
      forall u: Uuid ensures Own(s.log, u, e) <= Own(s'.log, u, e) { OwnAppend(s.log, x, u, e); }
      if i < |s.log| { assert s'.log[i] == s.log[i]; }
      AnchoredGrows(base, s, s', s'.log[i].txn, e);
    }
  }

  lemma {:induction false} CopiedAppend(s: State, x: EventEntry, source: int, s': State, i: nat)
    requires |s.source| == |s.log| && Appended(s, x, source, s')
    ensures Copied(s', i) <==> Copied(s, i) || source == i
  {
    if Copied(s, i) {
      var j :| 0 <= j < |s.source| && s.source[j] == i;
      assert s'.source[j] == i;
    }
    if source == i { assert s'.source[|s.source|] == i; }
  }

  /** An event stored where no active sibling holds its entity leaves every active transaction ready. */
  lemma {:induction false} AppendKeepsReady(base: Base, s: State, x: EventEntry, source: int, s': State, t: Uuid)
    requires Inv(base, s) && Appended(s, x, source, s') && t in s.table && Active(s.table, t) && x.txn != t
    requires s.table[t].dest == x.txn ==>
               forall i :: 0 <= i < |s.log| && s.log[i].txn == t && s.log[i].entity == x.entity ==> Copied(s', i)
    ensures Ready(base, s', t)
  {
    assert Ready(base, s, t);
    forall i | 0 <= i < |s'.log| && s'.log[i].txn == t && !Copied(s', i)
      ensures s'.log[i].version == Latest(base, s'.log, s.table[t].dest, s'.log[i].entity) + 1
    {
      assert s'.log[i] == s.log[i];
      CopiedAppend(s, x, source, s', i);
      OwnAppend(s.log, x, s.table[t].dest, s.log[i].entity);
    }
    forall i, j | 0 <= i < |s'.log| && 0 <= j < |s'.log| && s'.log[i].txn == t && s'.log[j].txn == t && i != j
      ensures s'.log[i].entity != s'.log[j].entity
    {
      assert s'.log[i] == s.log[i] && s'.log[j] == s.log[j];
    }
  }

  lemma {:induction false} AppendKeepsExclusion(s: State, x: EventEntry, source: int, s': State)
    requires Exclusive(s) && Appended(s, x, source, s') && !Active(s.table, x.txn)
    ensures Exclusive(s')
  {
  }

  /** A commit's record of progress stays exact when an event of another transaction is stored. */
  lemma {:induction false} AppendKeepsRunning(s: State, x: EventEntry, source: int, s': State)
    requires Shape(s) && RunningExact(s) && Appended(s, x, source, s')
    requires s.running.Some? ==> x.txn != s.running.value.txn
    requires source == -1 ==> s'.running == s.running
    requires source != -1 ==>
               s.running.Some? && s'.running == Some(s.running.value.(copied := s.running.value.copied + 1)) &&
               s.running.value.copied < |Positions(s.log, s.running.value.txn)| &&
               source == Positions(s.log, s.running.value.txn)[s.running.value.copied]
    ensures RunningExact(s')
  {
    if s.running.Some? {
      var t := s.running.value.txn;
      PositionsAppend(s.log, x, t);
      var todo := Positions(s.log, t);
      forall k | 0 <= k < |todo| ensures Copied(s', todo[k]) <==> k < s'.running.value.copied {
        CopiedAppend(s, x, source, s', todo[k]);
      }
    }
  }

  lemma {:induction false} AppendKeepsSources(s: State, x: EventEntry, source: int, s': State)
    requires Shape(s) && SourcesExact(s) && Appended(s, x, source, s') && !HasStatus(s.table, x.txn, {Committed})
    requires source == -1 ||
             (0 <= source < |s.log| && HasStatus(s.table, s.log[source].txn, {Committing}) && !Copied(s, source) &&
              x == s.log[source].(txn := s.table[s.log[source].txn].dest))
    ensures SourcesExact(s')
  {
    forall i | 0 <= i < |s'.log| && HasStatus(s'.table, s'.log[i].txn, {Committed}) ensures Copied(s', i) {
      assert Copied(s, i);
      CopiedAppend(s, x, source, s', i);
    }
  }

  // ---------------------------------------------------------------- tables that change, logs that do not

  ghost predicate Retabled(s: State, s': State) {
    s'.log == s.log && s'.source == s.source && s'.counters == s.counters &&
    forall u :: u in s.table ==> u in s'.table && s'.table[u].dest == s.table[u].dest
  }

  lemma {:induction false} RetabledKeepsVersions(base: Base, s: State, s': State)
    requires CountersExact(s) && EventsAnchored(base, s) && Retabled(s, s')
    ensures CountersExact(s') && EventsAnchored(base, s')
  {
    forall t: Uuid, e: Uuid ensures Counter(s', t, e) == Own(s'.log, t, e) { assert Counter(s, t, e) == Own(s.log, t, e); }
    forall i | 0 <= i < |s'.log| ensures Anchored(base, s', s'.log[i].txn, s'.log[i].entity) {
      AnchoredGrows(base, s, s', s.log[i].txn, s.log[i].entity);
    }
  }

  /** Releasing holds, or passing them on, keeps exclusion and readiness. */
  lemma {:induction false} RetabledKeepsHolds(base: Base, s: State, s': State)
    requires Shape(s) && AllReady(base, s) && Exclusive(s) && Retabled(s, s')
    requires forall u :: u in s'.table && Active(s'.table, u) ==> Active(s.table, u)
    requires forall u :: u in s'.table && HasStatus(s'.table, u, {Committed}) ==> HasStatus(s.table, u, {Committing, Committed})
    ensures AllReady(base, s') && Exclusive(s')
  {
  }

  lemma {:induction false} RetabledKeepsSources(s: State, s': State)
    requires Shape(s) && SourcesExact(s) && Retabled(s, s')
    requires forall u :: u in s.table && s.table[u].status in {Committing, Committed} ==> s'.table[u].status in {Committing, Committed}
    requires forall i :: 0 <= i < |s.log| && HasStatus(s'.table, s.log[i].txn, {Committed}) ==> Copied(s, i)
    ensures SourcesExact(s')
  {
    forall i | 0 <= i < |s'.log| && HasStatus(s'.table, s'.log[i].txn, {Committed}) ensures Copied(s', i) {
      assert Copied(s, i);
    }
    forall i | 0 <= i < |s'.log| && s'.source[i] != -1
      ensures 0 <= s'.source[i] < i && HasStatus(s'.table, s'.log[s'.source[i]].txn, {Committing, Committed})
      ensures s'.log[i] == s'.log[s'.source[i]].(txn := s'.table[s'.log[s'.source[i]].txn].dest)
    {
      assert HasStatus(s.table, s.log[s.source[i]].txn, {Committing, Committed});
    }
  }

  /** With no commit running, moving a pending or reserved transaction to a status without copies changes no history. */
  lemma {:induction false} IdleMoveKeepsHistory(s: State, t: Uuid, status: Status, offset: nat, s': State)
    requires Shape(s) && RunningExact(s) && SourcesExact(s) && s.running.None? && HasStatus(s.table, t, {Pending, Reserved})
    requires status in {Reserved, Rejected} && s' == SetStatus(s, t, status, offset)
    ensures Shape(s') && RunningExact(s') && SourcesExact(s')
  {
    RetabledKeepsSources(s, s');
  }

  lemma {:induction false} SameCopies(s: State, s': State)
    requires s'.source == s.source
    ensures forall i: nat :: Copied(s', i) <==> Copied(s, i)
  {
  }

  // ---------------------------------------------------------------- each step keeps the invariant

  lemma {:induction false} WriteKeeps(base: Base, s: State, entry: EventEntry, version: Option<nat>, s': State)
    requires RootedBase(base) && Inv(base, s) && Next(base, s, Write(entry, version), s')
    ensures Inv(base, s')
  {
    hide Contiguous, CountersExact, EventsAnchored, Exclusive, SourcesExact, Anchored;
    if Submittable(s, entry, None) {
      var x := entry.(version := Latest(base, s.log, entry.txn, entry.entity) + 1);
      WriteAppends(base, s, entry, version, s');
      WriteIsAnchored(base, s, entry, version);
      AppendKeepsVersions(base, s, x, -1, s');
      forall t | t in s'.table && Active(s'.table, t) ensures Ready(base, s', t) {
        assert s.table[t].dest == x.txn ==> !Touches(s.log, t, x.entity);
        AppendKeepsReady(base, s, x, -1, s', t);
      }
      AppendKeepsExclusion(s, x, -1, s');
      AppendKeepsRunning(s, x, -1, s');
      AppendKeepsSources(s, x, -1, s');
    }
  }

  lemma {:induction false} WriteAppends(base: Base, s: State, entry: EventEntry, version: Option<nat>, s': State)
    requires RootedBase(base) && CountersExact(s) && Next(base, s, Write(entry, version), s') && Submittable(s, entry, None)
    ensures Appended(s, entry.(version := Latest(base, s.log, entry.txn, entry.entity) + 1), -1, s') && s'.running == s.running
  {
  }

  lemma {:induction false} WriteIsAnchored(base: Base, s: State, entry: EventEntry, version: Option<nat>)
    requires Shape(s) && EventsAnchored(base, s) && PermittedWrite(base, s, entry, version)
    ensures Anchored(base, s, entry.txn, entry.entity)
  {
    if entry.txn != NULL_UUID && Own(s.log, entry.txn, entry.entity) > 0 {
      OwnCounts(s.log, entry.txn, entry.entity);
      var i :| 0 <= i < |s.log| && s.log[i].txn == entry.txn && s.log[i].entity == entry.entity;
      assert Anchored(base, s, s.log[i].txn, s.log[i].entity);
    }
  }

  lemma {:induction false} FirstVersion(base: Base, log: Log, t: Uuid, i: nat)
    requires Contiguous(base, log) && OncePerEntity(log, t) && i < |log| && log[i].txn == t
    ensures log[i].version == base(t, log[i].entity) + 1
  {
    OwnCounts(log[..i], t, log[i].entity);
    assert !Touches(log[..i], t, log[i].entity) by {
      assert forall k :: 0 <= k < i ==> log[..i][k] == log[k];
    }
  }

  /** A committable transaction that writes each entity once holds exactly the next events of its destination. */
  lemma {:induction false} CommittableIsNext(base: Base, s: State, t: Uuid, i: nat)
    requires Contiguous(base, s.log) && EventsAnchored(base, s) && t != NULL_UUID && t in s.table && Committable(s, t)
    requires OncePerEntity(s.log, t) && i < |s.log| && s.log[i].txn == t
    ensures s.log[i].version == Latest(base, s.log, s.table[t].dest, s.log[i].entity) + 1
  {
    var e, d := s.log[i].entity, s.table[t].dest;
    assert HighestWrite(s.log, t, i);
    FirstVersion(base, s.log, t, i);
    assert Anchored(base, s, t, e);
    if s.log[i].version <= Latest(base, s.log, d, e) {
      var j := VersionPresent(base, s.log, d, e, s.log[i].version);
      assert Clashes(s, t, i, j);
    }
  }

  lemma {:induction false} UncopiedWhileReserved(s: State, i: nat)
    requires Shape(s) && SourcesExact(s) && i < |s.log| && HasStatus(s.table, s.log[i].txn, {Reserved})
    ensures !Copied(s, i)
  {
  }

  /** The heart of exclusion: a sibling that already holds one of t's entities makes `validate` refuse t. */
  lemma {:induction false} ReservedSiblingClashes(base: Base, s: State, t: Uuid, i: nat, j: nat)
    requires Inv(base, s) && s.running.None? && t in s.table && OncePerEntity(s.log, t)
    requires i < |s.log| && j < |s.log| && s.log[i].txn == t && s.log[j].txn != t && s.log[i].entity == s.log[j].entity
    requires Active(s.table, s.log[j].txn) && s.table[s.log[j].txn].dest == s.table[t].dest
    ensures !Committable(s, t)
  {
    if Committable(s, t) {
      CommittableIsNext(base, s, t, i);
      assert Ready(base, s, s.log[j].txn);
      UncopiedWhileReserved(s, j);
      assert HighestWrite(s.log, t, i);
      assert Clashes(s, t, i, j);
    }
  }

  lemma {:induction false} ReserveKeeps(base: Base, s: State, t: Uuid, s': State)
    requires Inv(base, s) && Next(base, s, Reserve(t), s')
    ensures Inv(base, s')
  {
    hide Contiguous, CountersExact, EventsAnchored, AllReady, Exclusive, RunningExact, SourcesExact;
    if s.running.None? && HasStatus(s.table, t, {Pending}) {
      RetabledKeepsVersions(base, s, s');
      IdleMoveKeepsHistory(s, t, s'.table[t].status, 1 + |s.log|, s');
      if Committable(s, t) {
        ReserveReadies(base, s, t, s');
        ReserveExcludes(base, s, t, s');
      } else {
        RejectionReleases(base, s, t, s');
      }
    }
  }

  lemma {:induction false} ReserveReadies(base: Base, s: State, t: Uuid, s': State)
    requires Inv(base, s) && Permitted(base, s, Reserve(t)) && HasStatus(s.table, t, {Pending}) && Committable(s, t)
    requires s' == ReserveEffect(s, t)
    ensures AllReady(base, s')
  {
    forall u | u in s'.table && Active(s'.table, u) ensures Ready(base, s', u) {
      if u == t {
        forall i | 0 <= i < |s.log| && s.log[i].txn == t
          ensures s.log[i].version == Latest(base, s.log, s.table[t].dest, s.log[i].entity) + 1
        {
          CommittableIsNext(base, s, t, i);
        }
      } else {
        assert Ready(base, s, u);
        assert !ActiveChild(s.table, t, u);
        forall i: nat | i < |s.log| && s.log[i].txn == u && !Copied(s', i) ensures !Copied(s, i) {}
      }
    }
  }

  lemma {:induction false} ReserveExcludes(base: Base, s: State, t: Uuid, s': State)
    requires Inv(base, s) && s.running.None? && HasStatus(s.table, t, {Pending}) && OncePerEntity(s.log, t)
    requires Committable(s, t) && s' == ReserveEffect(s, t)
    ensures Exclusive(s')
  {
    forall i, j | 0 <= i < |s'.log| && 0 <= j < |s'.log| && ActiveSiblings(s'.table, s'.log[i].txn, s'.log[j].txn)
      ensures s'.log[i].entity != s'.log[j].entity
    {
      if s.log[i].entity == s.log[j].entity {
        if s.log[i].txn == t {
          ReservedSiblingClashes(base, s, t, i, j);
        } else if s.log[j].txn == t {
          ReservedSiblingClashes(base, s, t, j, i);
        } else {
          assert ActiveSiblings(s.table, s.log[i].txn, s.log[j].txn);
        }
      }
    }
  }

  lemma {:induction false} BeginKeeps(base: Base, s: State, t: Uuid, dest: Uuid, s': State)
    requires Inv(base, s) && Next(base, s, Begin(t, dest), s')
    ensures Inv(base, s')
  {
    hide Contiguous, CountersExact, EventsAnchored, AllReady, Exclusive, RunningExact, SourcesExact;
    if MaySave(s.table, t, Pending) {
      RetabledKeepsVersions(base, s, s');
      RetabledKeepsHolds(base, s, s');
      SameCopies(s, s');
      BeginKeepsHistory(s, t, dest, s');
    }
  }

  lemma {:induction false} BeginKeepsHistory(s: State, t: Uuid, dest: Uuid, s': State)
    requires Shape(s) && RunningExact(s) && SourcesExact(s) && t != NULL_UUID && MaySave(s.table, t, Pending)
    requires s' == Apply(s, Begin(t, dest)) && (t in s.table ==> s.table[t].dest == dest)
    ensures RunningExact(s') && SourcesExact(s')
  {
    hide SourcesExact;
    BeginKeepsSources(s, t, dest, s');
    SameCopies(s, s');
  }

  lemma {:induction false} BeginKeepsSources(s: State, t: Uuid, dest: Uuid, s': State)
    requires Shape(s) && SourcesExact(s) && t != NULL_UUID && MaySave(s.table, t, Pending)
    requires s' == Apply(s, Begin(t, dest)) && (t in s.table ==> s.table[t].dest == dest)
    ensures SourcesExact(s')
  {
    assert Retabled(s, s');
    assert forall u :: HasStatus(s'.table, u, {Committed}) ==> HasStatus(s.table, u, {Committed});
    RetabledKeepsSources(s, s');
  }

  lemma {:induction false} BeginCommitKeeps(base: Base, s: State, t: Uuid, s': State)
    requires Inv(base, s) && Next(base, s, BeginCommit(t), s')
    ensures Inv(base, s')
  {
    hide Contiguous, CountersExact, EventsAnchored, AllReady, Exclusive, RunningExact, SourcesExact;
    if s.running.None? && HasStatus(s.table, t, {Reserved}) {
      RetabledKeepsVersions(base, s, s');
      RetabledKeepsHolds(base, s, s');
      BeginCommitStartsExact(s, t, s');
    }
  }

  lemma {:induction false} BeginCommitStartsExact(s: State, t: Uuid, s': State)
    requires Shape(s) && SourcesExact(s) && RunningExact(s) && s.running.None? && HasStatus(s.table, t, {Reserved})
    requires s' == Apply(s, BeginCommit(t))
    ensures Shape(s') && RunningExact(s') && SourcesExact(s')
  {
    hide SourcesExact, Positions, RunningExact, Apply;
    BeginCommitIs(s, t, s');
    BeginCommitKeepsSources(s, t, s');
    BeginCommitRunsExact(s, t, s');
  }

  lemma {:induction false} BeginCommitIs(s: State, t: Uuid, s': State)
    requires s.running.None? && HasStatus(s.table, t, {Reserved}) && s' == Apply(s, BeginCommit(t))
    ensures s' == SetStatus(s, t, Committing, s.table[t].eventOffset).(running := Some(Copying(t, 0)))
  {
  }

  lemma {:induction false} BeginCommitKeepsSources(s: State, t: Uuid, s': State)
    requires Shape(s) && SourcesExact(s) && HasStatus(s.table, t, {Reserved})
    requires s' == SetStatus(s, t, Committing, s.table[t].eventOffset).(running := Some(Copying(t, 0)))
    ensures SourcesExact(s')
  {
    RetabledKeepsSources(s, s');
  }

  lemma {:induction false} BeginCommitRunsExact(s: State, t: Uuid, s': State)
    requires Shape(s) && SourcesExact(s) && RunningExact(s) && s.running.None? && HasStatus(s.table, t, {Reserved})
    requires s' == SetStatus(s, t, Committing, s.table[t].eventOffset).(running := Some(Copying(t, 0)))
    ensures RunningExact(s')
  {
    hide SourcesExact, Positions;
    forall k | 0 <= k < |Positions(s.log, t)| ensures !Copied(s', Positions(s.log, t)[k]) {
      UncopiedWhileReserved(s, Positions(s.log, t)[k]);
    }
  }

  lemma {:induction false} EndCommitKeeps(base: Base, s: State, s': State)
    requires Inv(base, s) && Next(base, s, EndCommit, s')
    ensures Inv(base, s')
  {
    hide Contiguous, CountersExact, EventsAnchored, AllReady, Exclusive, SourcesExact, RunningExact;
    if s.running.Some? && s.running.value.copied >= |Positions(s.log, s.running.value.txn)| {
      EndCommitMoves(s, s');
      RetabledKeepsVersions(base, s, s');
      RetabledKeepsHolds(base, s, s');
      EndCommitKeepsSources(s, s');
    }
  }

  lemma {:induction false} EndCommitMoves(s: State, s': State)
    requires Shape(s) && RunningExact(s) && s.running.Some?
    requires s.running.value.copied >= |Positions(s.log, s.running.value.txn)| && s' == Apply(s, EndCommit)
    ensures Shape(s') && RunningExact(s') && Retabled(s, s') && s'.log == s.log
    ensures s.running.value.copied == |Positions(s.log, s.running.value.txn)|
    ensures forall u :: u in s'.table && Active(s'.table, u) ==> Active(s.table, u)
    ensures forall u :: u in s'.table && HasStatus(s'.table, u, {Committed}) ==> HasStatus(s.table, u, {Committing, Committed})
  {
    EndCommitIs(s, s');
    hide RunningExact, Apply, Positions;
    var t := s.running.value.txn;
    assert s'.table == s.table[t := s.table[t].(status := Committed, eventOffset := 1 + |s.log|)];
    assert RunningExact(s') by { NothingRuns(s'); }
  }

  lemma {:induction false} EndCommitIs(s: State, s': State)
    requires RunningExact(s) && s.running.Some?
    requires s.running.value.copied >= |Positions(s.log, s.running.value.txn)| && s' == Apply(s, EndCommit)
    ensures HasStatus(s.table, s.running.value.txn, {Committing})
    ensures s' == SetStatus(s, s.running.value.txn, Committed, 1 + |s.log|).(running := None)
    ensures s.running.value.copied == |Positions(s.log, s.running.value.txn)|
    ensures forall t :: t in s'.table ==> s'.table[t].status != Committing
  {
    hide Positions, Copied;
  }

  lemma {:induction false} NothingRuns(s: State)
    requires s.running.None? && forall t :: t in s.table ==> s.table[t].status != Committing
    ensures RunningExact(s)
  {
  }

  lemma {:induction false} EndCommitKeepsSources(s: State, s': State)
    requires Shape(s) && SourcesExact(s) && RunningExact(s) && s.running.Some?
    requires s.running.value.copied == |Positions(s.log, s.running.value.txn)| && s' == Apply(s, EndCommit)
    ensures SourcesExact(s')
  {
    hide SourcesExact;
    forall i | 0 <= i < |s.log| && HasStatus(s'.table, s.log[i].txn, {Committed}) ensures Copied(s, i) {
      EndCommitHasCopied(s, i);
    }
    RetabledKeepsSources(s, s');
  }

  lemma {:induction false} EndCommitHasCopied(s: State, i: nat)
    requires Shape(s) && SourcesExact(s) && RunningExact(s) && s.running.Some? && i < |s.log|
    requires s.running.value.copied == |Positions(s.log, s.running.value.txn)|
    requires s.log[i].txn == s.running.value.txn || HasStatus(s.table, s.log[i].txn, {Committed})
    ensures Copied(s, i)
  {
    if s.log[i].txn == s.running.value.txn { PositionsComplete(s.log, s.running.value.txn, i); }
  }

  lemma {:induction false} RejectionReleases(base: Base, s: State, t: Uuid, s': State)
    requires Shape(s) && AllReady(base, s) && Exclusive(s) && HasStatus(s.table, t, {Pending, Reserved})
    requires s' == SetStatus(s, t, Rejected, 1 + |s.log|)
    ensures AllReady(base, s') && Exclusive(s')
  {
    RetabledKeepsHolds(base, s, s');
  }

  lemma {:induction false} RejectKeeps(base: Base, s: State, t: Uuid, s': State)
    requires Inv(base, s) && Next(base, s, Reject(t), s')
    ensures Inv(base, s')
  {
    hide Contiguous, CountersExact, EventsAnchored, AllReady, Exclusive, RunningExact, SourcesExact;
    if s.running.None? && HasStatus(s.table, t, {Pending, Reserved}) {
      assert s' == SetStatus(s, t, Rejected, 1 + |s.log|);
      RetabledKeepsVersions(base, s, s');
      RejectionReleases(base, s, t, s');
      IdleMoveKeepsHistory(s, t, Rejected, 1 + |s.log|, s');
    } else {
      assert s' == s;
    }
  }

  /** The commit guarantee: whatever has happened since the reservation, the next copy is accepted at the version it has. */
  lemma {:induction false} CopyIsAccepted(base: Base, s: State)
    requires Inv(base, s) && s.running.Some?
    requires s.running.value.copied < |Positions(s.log, s.running.value.txn)|
    ensures
      var t, i := s.running.value.txn, Positions(s.log, s.running.value.txn)[s.running.value.copied];
      var copy := s.log[i].(txn := s.table[t].dest);
      !Copied(s, i) && Submittable(s, copy, Some(t)) && copy.version == Latest(base, s.log, copy.txn, copy.entity) + 1 &&
      Anchored(base, s, copy.txn, copy.entity) && copy.version >= Counter(s, copy.txn, copy.entity) + 1
  {
  }

  lemma {:induction false} CopyKeeps(base: Base, s: State, s': State)
    requires Inv(base, s) && Next(base, s, CopyNext, s')
    ensures Inv(base, s')
  {
    hide Contiguous, CountersExact, EventsAnchored, Exclusive, SourcesExact, Anchored;
    if s.running.Some? && s.running.value.copied < |Positions(s.log, s.running.value.txn)| {
      var t, i := s.running.value.txn, Positions(s.log, s.running.value.txn)[s.running.value.copied];
      var x := s.log[i].(txn := s.table[t].dest);
      CopyIsAccepted(base, s);
      assert Appended(s, x, i, s');
      AppendKeepsVersions(base, s, x, i, s');
      assert Ready(base, s, t);
      forall u | u in s'.table && Active(s'.table, u) ensures Ready(base, s', u) {
        CopyKeepsReady(base, s, x, i, s', u);
      }
      AppendKeepsExclusion(s, x, i, s');
      AppendKeepsRunning(s, x, i, s');
      AppendKeepsSources(s, x, i, s');
    }
  }

  lemma {:induction false} CopyKeepsReady(base: Base, s: State, x: EventEntry, i: nat, s': State, u: Uuid)
    requires Inv(base, s) && s.running.Some? && i < |s.log| && s.log[i].txn == s.running.value.txn
    requires x == s.log[i].(txn := s.table[s.running.value.txn].dest) && Submittable(s, x, Some(s.running.value.txn))
    requires Appended(s, x, i, s') && u in s.table && Active(s.table, u)
    ensures Ready(base, s', u)
  {
    assert Ready(base, s, s.running.value.txn);
    CopiedAppend(s, x, i, s', i);
    if u != s.running.value.txn && s.table[u].dest == x.txn { assert !Touches(s.log, u, x.entity); }
    AppendKeepsReady(base, s, x, i, s', u);
  }

  lemma {:induction false} StepKeeps(base: Base, s: State, step: Step, s': State)
    requires RootedBase(base) && Inv(base, s) && Next(base, s, step, s')
    ensures Inv(base, s')
  {
    match step
    case Begin(t, dest) => BeginKeeps(base, s, t, dest, s');
    case Write(entry, version) => WriteKeeps(base, s, entry, version, s');
    case Reserve(t) => ReserveKeeps(base, s, t, s');
    case BeginCommit(t) => BeginCommitKeeps(base, s, t, s');
    case CopyNext => CopyKeeps(base, s, s');
    case EndCommit => EndCommitKeeps(base, s, s');
    case Reject(t) => RejectKeeps(base, s, t, s');
  }
}
