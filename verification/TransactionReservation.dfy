/** When a reservation is granted: exactly when nothing holds or has overtaken what the transaction wrote. */
module TransactionReservation {
  import opened Wrappers
  import opened TransactionProtocol
  import opened TransactionSafety
  import opened TransactionTheorems

  /** The destination shows of the entity what t has inherited: nothing was added to it since t wrote on top of it. */
  ghost predicate Unmoved(base: Base, s: State, t: Uuid, e: Uuid)
    requires t in s.table
  {
    Latest(base, s.log, s.table[t].dest, e) == base(t, e)
  }

  /** No other transaction that is on its way into the same destination has written the entity. */
  ghost predicate Uncontested(s: State, t: Uuid, e: Uuid)
    requires t in s.table
  {
    forall u :: u in s.table && u != t && s.table[u].status in {Reserving, Reserved, Committing} && s.table[u].dest == s.table[t].dest ==>
      !Touches(s.log, u, e)
  }

  ghost predicate Grantable(base: Base, s: State, t: Uuid)
    requires t in s.table
  {
    forall e :: Touches(s.log, t, e) ==> Unmoved(base, s, t, e) && Uncontested(s, t, e)
  }

  /** A pending transaction that may ask for its reservation, while nothing runs and the destination is open. */
  ghost predicate Asking(base: Base, s: State, t: Uuid) {
    Inv(base, s) && s.running.None? && HasStatus(s.table, t, {Pending}) && OncePerEntity(s.log, t) &&
    (s.table[t].dest in s.table ==> s.table[s.table[t].dest].status == Pending)
  }

  lemma {:induction false} WrittenOnce(base: Base, s: State, t: Uuid, i: nat)
    requires Contiguous(base, s.log) && EventsAnchored(base, s) && OncePerEntity(s.log, t) && i < |s.log| && s.log[i].txn == t
    requires t != NULL_UUID && t in s.table
    ensures s.log[i].version == base(t, s.log[i].entity) + 1 && HighestWrite(s.log, t, i)
    ensures base(s.table[t].dest, s.log[i].entity) <= base(t, s.log[i].entity) <= Latest(base, s.log, s.table[t].dest, s.log[i].entity)
  {
    FirstVersion(base, s.log, t, i);
    assert Anchored(base, s, s.log[i].txn, s.log[i].entity);
  }

  /** A destination that has moved on stands in the way. */
  lemma {:induction false} MovedClashes(base: Base, s: State, t: Uuid, e: Uuid)
    requires Asking(base, s, t) && Touches(s.log, t, e) && !Unmoved(base, s, t, e)
    ensures !Committable(s, t)
  {
    hide Contiguous, CountersExact, EventsAnchored, AllReady, Exclusive, RunningExact, SourcesExact, OncePerEntity, HighestWrite;
    var i :| 0 <= i < |s.log| && s.log[i].txn == t && s.log[i].entity == e;
    WrittenOnce(base, s, t, i);
    var j := VersionPresent(base, s.log, s.table[t].dest, e, base(t, e) + 1);
    assert Clashes(s, t, i, j);
  }

  /** So does a sibling that holds the entity. */
  lemma {:induction false} ContestedClashes(base: Base, s: State, t: Uuid, e: Uuid)
    requires Asking(base, s, t) && Touches(s.log, t, e) && !Uncontested(s, t, e)
    ensures !Committable(s, t)
  {
    hide Inv, OncePerEntity, Committable;
    var i :| 0 <= i < |s.log| && s.log[i].txn == t && s.log[i].entity == e;
    var u :| u in s.table && u != t && s.table[u].status in {Reserving, Reserved, Committing} && s.table[u].dest == s.table[t].dest &&
             Touches(s.log, u, e);
    var j :| 0 <= j < |s.log| && s.log[j].txn == u && s.log[j].entity == e;
    ReservedSiblingClashes(base, s, t, i, j);
  }

  /** What a committed transaction wrote is in its destination. */
  lemma {:induction false} CommittedIsInside(s: State, j: nat) returns (c: nat)
    requires Shape(s) && SourcesExact(s) && j < |s.log| && HasStatus(s.table, s.log[j].txn, {Committed})
    ensures c < |s.log| && s.log[c] == s.log[j].(txn := s.table[s.log[j].txn].dest)
  {
    assert Copied(s, j);
    c :| 0 <= c < |s.source| && s.source[c] == j;
  }

  lemma {:induction false} DestinationIsBelow(base: Base, s: State, j: nat)
    requires Contiguous(base, s.log) && j < |s.log|
    ensures s.log[j].version <= Latest(base, s.log, s.log[j].txn, s.log[j].entity)
  {
    OwnGrows(s.log, j + 1, s.log[j].txn, s.log[j].entity);
    assert s.log[..j + 1] == s.log[..j] + [s.log[j]];
    OwnAppend(s.log[..j], s.log[j], s.log[j].txn, s.log[j].entity);
  }

  lemma {:induction false} OwnGrows(log: Log, n: nat, t: Uuid, e: Uuid)
    requires n <= |log|
    ensures Own(log[..n], t, e) <= Own(log, t, e)
    decreases |log|
  {
    if n == |log| {
      assert log[..n] == log;
    } else {
      assert log[..|log| - 1][..n] == log[..n];
      OwnGrows(log[..|log| - 1], n, t, e);
    }
  }

  /** Nothing else stands in the way: a committed sibling has left its event in the destination. */
  lemma {:induction false} GrantableFits(base: Base, s: State, t: Uuid, i: nat, j: nat)
    requires Asking(base, s, t) && Grantable(base, s, t) && i < |s.log| && j < |s.log| && s.log[i].txn == t
    ensures !Clashes(s, t, i, j)
  {
    hide Contiguous, CountersExact, EventsAnchored, AllReady, Exclusive, RunningExact, SourcesExact, OncePerEntity, HighestWrite;
    var e, d := s.log[i].entity, s.table[t].dest;
    if Clashes(s, t, i, j) {
      WrittenOnce(base, s, t, i);
      assert Touches(s.log, t, e);
      ItTouches(s.log, j);
      hide Touches;
      assert Unmoved(base, s, t, e) && Uncontested(s, t, e);
      if s.log[j].txn == d {
        DestinationIsBelow(base, s, j);
      } else if !Active(s.table, s.log[j].txn) {
        var c := CommittedIsInside(s, j);
        DestinationIsBelow(base, s, c);
      }
    }
  }

  lemma {:induction false} ItTouches(log: Log, j: nat)
    requires j < |log|
    ensures Touches(log, log[j].txn, log[j].entity)
  {
  }

  lemma {:induction false} ReserveDecides(s: State, t: Uuid)
    requires s.running.None? && HasStatus(s.table, t, {Pending})
    ensures HasStatus(Apply(s, Reserve(t)).table, t, {if Committable(s, t) then Reserved else Rejected})
  {
    hide Committable;
  }

  lemma {:induction false} GrantableIsCommittable(base: Base, s: State, t: Uuid)
    requires Asking(base, s, t)
    ensures Committable(s, t) <==> Grantable(base, s, t)
  {
    hide Inv, OncePerEntity, Clashes, Touches, Unmoved, Uncontested;
    if Grantable(base, s, t) {
      forall i, j | 0 <= i < |s.log| && 0 <= j < |s.log| && HighestWrite(s.log, t, i) ensures !Clashes(s, t, i, j) {
        GrantableFits(base, s, t, i, j);
      }
    } else {
      var e :| Touches(s.log, t, e) && !(Unmoved(base, s, t, e) && Uncontested(s, t, e));
      if Unmoved(base, s, t, e) { ContestedClashes(base, s, t, e); } else { MovedClashes(base, s, t, e); }
    }
  }

  /**
    Reservations, exactly: a pending transaction is reserved if and only if the destination still shows what it has
    inherited of every entity it wrote, and no transaction on its way into the same destination has written one of them.
   */
  lemma {:induction false} ReservationIsExact(base: Base, s: State, t: Uuid)
    requires Asking(base, s, t)
    ensures HasStatus(Apply(s, Reserve(t)).table, t, {Reserved}) <==> Grantable(base, s, t)
    ensures HasStatus(Apply(s, Reserve(t)).table, t, {Rejected}) <==> !Grantable(base, s, t)
  {
    hide Committable, Grantable, Inv, Apply, OncePerEntity;
    GrantableIsCommittable(base, s, t);
    ReserveDecides(s, t);
  }

  /** A transaction whose destination is not open is refused, whatever it wrote. */
  lemma {:induction false} ClosedIsRefused(base: Base, s: State, t: Uuid)
    requires Inv(base, s) && s.running.None? && HasStatus(s.table, t, {Pending})
    requires s.table[t].dest in s.table && s.table[s.table[t].dest].status != Pending
    ensures HasStatus(Apply(s, Reserve(t)).table, t, {Rejected})
  {
    hide Contiguous, CountersExact, EventsAnchored, AllReady, Exclusive, RunningExact, SourcesExact;
  }

  /**
    A committed child does not stand in the way of its parent: its events are the parent's own, and the parent is
    reserved by the same condition, on the parent's destination only.
   */
  lemma {:induction false} ParentIsReserved(base: Base, s: State, t: Uuid, child: Uuid)
    requires Asking(base, s, t) && Grantable(base, s, t) && HasStatus(s.table, child, {Committed}) && s.table[child].dest == t
    ensures HasStatus(Apply(s, Reserve(t)).table, t, {Reserved})
    ensures forall e :: Touches(s.log, child, e) ==> Touches(s.log, t, e) && Unmoved(base, s, t, e)
  {
    forall e | Touches(s.log, child, e) ensures Touches(s.log, t, e) {
      var j :| 0 <= j < |s.log| && s.log[j].txn == child && s.log[j].entity == e;
      var c := CommittedIsInside(s, j);
    }
    ReservationIsExact(base, s, t);
  }

  /** Transaction 2 runs on top of 1, writes one entity and is committed. */
  function NestedRun(x: EventEntry): State {
    var s0 := Apply(Apply(EmptyState, Begin(1, 0)), Begin(2, 1));
    var s1 := Apply(Apply(s0, Write(x.(txn := 2), Some(1))), Reserve(2));
    Apply(Apply(Apply(s1, BeginCommit(2)), CopyNext), EndCommit)
  }

  lemma {:induction false} NestedRunState(x: EventEntry)
    ensures NestedRun(x).log == [x.(txn := 2, version := 1)] + [x.(txn := 1, version := 1)] && NestedRun(x).running.None?
    ensures NestedRun(x).table == map[1 := Txn(Pending, 0, 0), 2 := Txn(Committed, 1, 3)]
  {
    var y, z := x.(txn := 2, version := 1), x.(txn := 1, version := 1);
    hide Apply;
    var a := ChildWrites(x);
    var b := ChildReserves(a, y);
    var c := ChildBegins(b);
    var d := ChildCopies(c, y, z);
    ChildEnds(d);
  }

  lemma {:induction false} ChildWrites(x: EventEntry) returns (s: State)
    ensures s == Apply(Apply(Apply(EmptyState, Begin(1, 0)), Begin(2, 1)), Write(x.(txn := 2), Some(1)))
    ensures s.log == [x.(txn := 2, version := 1)] && s.table == map[1 := Txn(Pending, 0, 0), 2 := Txn(Pending, 1, 0)]
    ensures s.running.None? && s.counters == map[(x.entity, 2) := 1]
  {
    s := Apply(Apply(Apply(EmptyState, Begin(1, 0)), Begin(2, 1)), Write(x.(txn := 2), Some(1)));
  }

  lemma {:induction false} ChildReserves(s: State, y: EventEntry) returns (s': State)
    requires s.running.None? && s.log == [y] && y.txn == 2 && s.table == map[1 := Txn(Pending, 0, 0), 2 := Txn(Pending, 1, 0)]
    ensures s' == Apply(s, Reserve(2)) && s' == s.(table := map[1 := Txn(Pending, 0, 0), 2 := Txn(Reserved, 1, 2)])
  {
    assert Committable(s, 2);
    s' := Apply(s, Reserve(2));
    assert s'.table == map[1 := Txn(Pending, 0, 0), 2 := Txn(Reserved, 1, 2)];
  }

  lemma {:induction false} ChildBegins(s: State) returns (s': State)
    requires s.running.None? && s.table == map[1 := Txn(Pending, 0, 0), 2 := Txn(Reserved, 1, 2)]
    ensures s' == Apply(s, BeginCommit(2))
    ensures s' == s.(table := map[1 := Txn(Pending, 0, 0), 2 := Txn(Committing, 1, 2)], running := Some(Copying(2, 0)))
  {
    s' := Apply(s, BeginCommit(2));
    assert s'.table == map[1 := Txn(Pending, 0, 0), 2 := Txn(Committing, 1, 2)];
  }

  lemma {:induction false} OnePosition(y: EventEntry, z: EventEntry)
    requires y.txn == 2 && z.txn == 1
    ensures Positions([y], 2) == [0] && Positions([y] + [z], 2) == [0]
  {
    assert [] + [y] == [y];
    PositionsAppend([], y, 2);
    PositionsAppend([y], z, 2);
  }

  lemma {:induction false} ChildCopies(s: State, y: EventEntry, z: EventEntry) returns (s': State)
    requires s.log == [y] && y.txn == 2 && z == y.(txn := 1) && y.version == 1 && s.running == Some(Copying(2, 0))
    requires s.table == map[1 := Txn(Pending, 0, 0), 2 := Txn(Committing, 1, 2)] && s.counters == map[(y.entity, 2) := 1]
    ensures s' == Apply(s, CopyNext) && s'.log == [y] + [z] && s'.running == Some(Copying(2, 1)) && s'.table == s.table
    ensures Positions(s'.log, 2) == [0]
  {
    OnePosition(y, z);
    hide Positions, Submittable;
    assert Submittable(s, z, Some(2)) by { OnlyChild(s, z); }
    assert Counter(s, 1, y.entity) == 0;
    s' := Apply(s, CopyNext);
  }

  lemma {:induction false} OnlyChild(s: State, z: EventEntry)
    requires z.txn == 1 && s.table == map[1 := Txn(Pending, 0, 0), 2 := Txn(Committing, 1, 2)]
    ensures Submittable(s, z, Some(2))
  {
  }

  lemma {:induction false} ChildEnds(s: State)
    requires s.running == Some(Copying(2, 1)) && Positions(s.log, 2) == [0] && |s.log| == 2
    requires s.table == map[1 := Txn(Pending, 0, 0), 2 := Txn(Committing, 1, 2)]
    ensures var s' := Apply(s, EndCommit);
            s'.log == s.log && s'.running.None? && s'.table == map[1 := Txn(Pending, 0, 0), 2 := Txn(Committed, 1, 3)]
  {
    hide Positions;
  }

  /** Then the outer transaction is reserved. */
  lemma {:induction false} NestedThenOuter(x: EventEntry)
    ensures HasStatus(NestedRun(x).table, 2, {Committed})
    ensures Touches(NestedRun(x).log, 2, x.entity) && Touches(NestedRun(x).log, 1, x.entity)
    ensures HasStatus(Apply(NestedRun(x), Reserve(1)).table, 1, {Reserved})
  {
    hide NestedRun;
    var s := NestedRun(x);
    NestedRunState(x);
    assert s.log[0].txn == 2 && s.log[1].txn == 1;
    assert Committable(s, 1);
  }
}
