/**
  Transactions that write an entity more than once. `validate` compares highest versions only, so a
  reservation promises them nothing; what decides is the state in which the commit begins.
 */
module RepeatedWrites {
  import opened Wrappers
  import opened TransactionProtocol
  import opened TransactionSafety
  import opened TransactionTheorems

  /**
    The event at i can be copied: no other active child of the destination has touched its entity, and
    its version is past the destination's counter, which every earlier event of the entity moves by one.
   */
  ghost predicate Copyable(s: State, t: Uuid, i: nat)
    requires t in s.table && i < |s.log|
  {
    var copy := s.log[i].(txn := s.table[t].dest);
    Submittable(s, copy, Some(t)) && copy.version > Counter(s, copy.txn, copy.entity) + Own(s.log[..i], t, copy.entity)
  }

  ghost predicate Clear(s: State, t: Uuid)
    requires t in s.table
  {
    forall i :: 0 <= i < |s.log| && s.log[i].txn == t ==> Copyable(s, t, i)
  }

  // ---------------------------------------------------------------- the commit loop

  /** How many of the events c, c + 1, ..., k - 1 of a transaction are of `entity`. */
  function Between(log: Log, todo: seq<nat>, c: nat, k: nat, entity: Uuid): nat
    requires c <= k <= |todo| && forall m :: 0 <= m < |todo| ==> todo[m] < |log|
    decreases k - c
  {
    if c == k then 0 else Between(log, todo, c + 1, k, entity) + if log[todo[c]].entity == entity then 1 else 0
  }

  /** The k-th event can be copied once the events from c up to k are. */
  ghost predicate CopyableFrom(s: State, t: Uuid, c: nat, k: nat)
    requires t in s.table && c <= k < |Positions(s.log, t)|
  {
    var todo := Positions(s.log, t);
    var copy := s.log[todo[k]].(txn := s.table[t].dest);
    Submittable(s, copy, Some(t)) && copy.version > Counter(s, copy.txn, copy.entity) + Between(s.log, todo, c, k, copy.entity)
  }

  ghost predicate ClearFrom(s: State, t: Uuid, c: nat)
    requires t in s.table && c <= |Positions(s.log, t)|
  {
    forall k :: c <= k < |Positions(s.log, t)| ==> CopyableFrom(s, t, c, k)
  }

  ghost predicate UnderWay(s: State) {
    s.running.Some? && Shape(s) && HasStatus(s.table, s.running.value.txn, {Committing}) &&
    s.running.value.copied <= |Positions(s.log, s.running.value.txn)|
  }

  lemma {:induction false} SubmittableStays(s: State, x: EventEntry, source: int, s': State, entry: EventEntry, skip: Option<Uuid>)
    requires Shape(s) && s'.log == s.log + [x] && s'.table == s.table && x.txn == entry.txn
    ensures Submittable(s', entry, skip) <==> Submittable(s, entry, skip)
  {
    forall c | c in s.table && ActiveChild(s.table, entry.txn, c)
      ensures Touches(s'.log, c, entry.entity) <==> Touches(s.log, c, entry.entity)
    {
      OwnAppend(s.log, x, c, entry.entity);
      OwnCounts(s.log, c, entry.entity);
      OwnCounts(s'.log, c, entry.entity);
    }
  }

  lemma {:induction false} BetweenStays(log: Log, x: EventEntry, todo: seq<nat>, c: nat, k: nat, entity: Uuid)
    requires c <= k <= |todo| && forall m :: 0 <= m < |todo| ==> todo[m] < |log|
    ensures Between(log + [x], todo, c, k, entity) == Between(log, todo, c, k, entity)
    decreases k - c
  {
    if c < k { BetweenStays(log, x, todo, c + 1, k, entity); }
  }

  /** A copy that is accepted leaves the later ones exactly as possible as they were. */
  lemma {:induction false} CopyKeepsClear(s: State, s': State, k: nat)
    requires UnderWay(s) && s' == Apply(s, CopyNext) && s.running.value.copied < k < |Positions(s.log, s.running.value.txn)|
    requires CopyableFrom(s, s.running.value.txn, s.running.value.copied, s.running.value.copied)
    ensures
      var t, c := s.running.value.txn, s.running.value.copied;
      UnderWay(s') && s'.running == Some(Copying(t, c + 1)) && s'.table == s.table && Positions(s'.log, t) == Positions(s.log, t) &&
      (CopyableFrom(s', t, c + 1, k) <==> CopyableFrom(s, t, c, k))
  {
    var t, c := s.running.value.txn, s.running.value.copied;
    CopyAppends(s, s');
    hide Apply, Submittable, Positions;
    var todo := Positions(s.log, t);
    var x := s.log[todo[c]].(txn := s.table[t].dest);
    SubmittableStays(s, x, todo[c], s', s.log[todo[k]].(txn := s.table[t].dest), Some(t));
    BetweenStays(s.log, x, todo, c + 1, k, s.log[todo[k]].entity);
  }

  lemma {:induction false} CopyAppends(s: State, s': State)
    requires UnderWay(s) && s' == Apply(s, CopyNext) && s.running.value.copied < |Positions(s.log, s.running.value.txn)|
    requires CopyableFrom(s, s.running.value.txn, s.running.value.copied, s.running.value.copied)
    ensures
      var t, c := s.running.value.txn, s.running.value.copied;
      var x := s.log[Positions(s.log, t)[c]].(txn := s.table[t].dest);
      UnderWay(s') && s'.running == Some(Copying(t, c + 1)) && s'.table == s.table && s'.log == s.log + [x] &&
      s'.counters == s.counters[(x.entity, x.txn) := Counter(s, x.txn, x.entity) + 1] && Positions(s'.log, t) == Positions(s.log, t)
  {
    var t, c := s.running.value.txn, s.running.value.copied;
    hide Submittable, Positions;
    PositionsAppend(s.log, s.log[Positions(s.log, t)[c]].(txn := s.table[t].dest), t);
  }

  lemma {:induction false} PendingShrinks(s: State, s': State)
    requires UnderWay(s) && s.running.value.copied < |Positions(s.log, s.running.value.txn)| && s'.table == s.table
    requires Positions(s'.log, s.running.value.txn) == Positions(s.log, s.running.value.txn)
    requires s'.log == s.log + [PendingCopies(s, s.running.value.txn, s.running.value.copied)[0]]
    ensures
      var t, c := s.running.value.txn, s.running.value.copied;
      PendingCopies(s', t, c + 1) == PendingCopies(s, t, c)[1..]
  {
    hide Positions;
  }

  lemma {:induction false} RefusedCopyStops(s: State, s': State)
    requires UnderWay(s) && s' == Apply(s, CopyNext) && s.running.value.copied < |Positions(s.log, s.running.value.txn)|
    requires !CopyableFrom(s, s.running.value.txn, s.running.value.copied, s.running.value.copied)
    ensures s'.running.None? && s'.table == s.table
  {
    hide Submittable, Positions;
  }

  /** The commit that is under way in s has ended in s', as the events it had left decide. */
  ghost predicate EndsAsDue(s: State, s': State)
    requires UnderWay(s)
  {
    var t, c := s.running.value.txn, s.running.value.copied;
    s'.running.None? && HasStatus(s'.table, t, if ClearFrom(s, t, c) then {Committed} else {Committing}) &&
    (ClearFrom(s, t, c) ==> s'.log == s.log + PendingCopies(s, t, c))
  }

  lemma {:induction false} NothingLeft(s: State)
    requires UnderWay(s) && s.running.value.copied == |Positions(s.log, s.running.value.txn)|
    ensures EndsAsDue(s, Apply(s, EndCommit))
  {
    hide Positions;
    assert PendingCopies(s, s.running.value.txn, s.running.value.copied) == [];
  }

  lemma {:induction false} RefusedEnds(s: State, s': State)
    requires UnderWay(s) && s' == Apply(s, CopyNext) && s.running.value.copied < |Positions(s.log, s.running.value.txn)|
    requires !CopyableFrom(s, s.running.value.txn, s.running.value.copied, s.running.value.copied)
    ensures EndsAsDue(s, s')
  {
    RefusedCopyStops(s, s');
    hide Apply, Positions, CopyableFrom, PendingCopies;
  }

  lemma {:induction false} ClearTurns(s: State, s': State, t: Uuid, c: nat, n: nat)
    requires t in s.table && t in s'.table && c < n && |Positions(s.log, t)| == n && |Positions(s'.log, t)| == n
    requires CopyableFrom(s, t, c, c)
    requires forall k :: c < k < n ==> (CopyableFrom(s', t, c + 1, k) <==> CopyableFrom(s, t, c, k))
    ensures ClearFrom(s', t, c + 1) <==> ClearFrom(s, t, c)
  {
    hide Positions, CopyableFrom;
    if ClearFrom(s, t, c) {
      var d := c + 1;
      forall k | d <= k < n ensures CopyableFrom(s', t, d, k) { assert CopyableFrom(s, t, c, k); }
    }
    if ClearFrom(s', t, c + 1) {
      forall k | c <= k < n ensures CopyableFrom(s, t, c, k) {
        if k > c { assert CopyableFrom(s', t, c + 1, k); }
      }
    }
  }

  lemma {:induction false} ClearGoesOn(s: State, s': State)
    requires UnderWay(s) && s' == Apply(s, CopyNext) && s.running.value.copied < |Positions(s.log, s.running.value.txn)|
    requires CopyableFrom(s, s.running.value.txn, s.running.value.copied, s.running.value.copied)
    requires UnderWay(s') && s'.running == Some(Copying(s.running.value.txn, s.running.value.copied + 1))
    requires |Positions(s'.log, s.running.value.txn)| == |Positions(s.log, s.running.value.txn)|
    ensures
      var t, c := s.running.value.txn, s.running.value.copied;
      t in s.table && t in s'.table && (ClearFrom(s', t, c + 1) <==> ClearFrom(s, t, c))
  {
    var t, c, n := s.running.value.txn, s.running.value.copied, |Positions(s.log, s.running.value.txn)|;
    assert t in s.table && t in s'.table;
    hide Apply, Positions, CopyableFrom, UnderWay, ClearFrom;
    forall k | c < k < n ensures CopyableFrom(s', t, c + 1, k) <==> CopyableFrom(s, t, c, k) {
      CopyKeepsClear(s, s', k);
    }
    ClearTurns(s, s', t, c, n);
  }

  /** Of a commit under way in s, one more copy has been accepted in s'. */
  ghost predicate Goes(s: State, s': State) {
    UnderWay(s) && UnderWay(s') && s.running.value.copied < |Positions(s.log, s.running.value.txn)| &&
    var t, c := s.running.value.txn, s.running.value.copied;
    s'.running == Some(Copying(t, c + 1)) && (ClearFrom(s', t, c + 1) <==> ClearFrom(s, t, c)) &&
    s'.log == s.log + [PendingCopies(s, t, c)[0]] && PendingCopies(s', t, c + 1) == PendingCopies(s, t, c)[1..]
  }

  lemma {:induction false} AcceptedGoes(s: State, s': State)
    requires UnderWay(s) && s' == Apply(s, CopyNext) && s.running.value.copied < |Positions(s.log, s.running.value.txn)|
    requires CopyableFrom(s, s.running.value.txn, s.running.value.copied, s.running.value.copied)
    ensures Goes(s, s')
  {
    hide Apply, Positions, CopyableFrom, ClearFrom, Shape;
    CopyAppends(s, s');
    ClearGoesOn(s, s');
    PendingShrinks(s, s');
  }

  lemma {:induction false} GoneEnds(s: State, s': State, end: State)
    requires Goes(s, s') && EndsAsDue(s', end)
    ensures EndsAsDue(s, end)
  {
    hide Positions, ClearFrom, Shape, PendingCopies;
    var t, c := s.running.value.txn, s.running.value.copied;
    var now := PendingCopies(s, t, c);
    assert ClearFrom(s, t, c) ==> end.log == s.log + ([now[0]] + now[1..]);
  }

  /** From any point of a commit: it ends COMMITTED exactly if every event left can be copied. */
  lemma {:induction false} RestCommitsExactly(s: State)
    requires UnderWay(s)
    ensures EndsAsDue(s, FinishCommit(s))
    decreases |Positions(s.log, s.running.value.txn)| - s.running.value.copied
  {
    var t, c := s.running.value.txn, s.running.value.copied;
    hide Apply, FinishCommit, Positions, CopyableFrom, EndsAsDue, Shape;
    FinishUnfolds(s);
    if c == |Positions(s.log, t)| {
      NothingLeft(s);
    } else if CopyableFrom(s, t, c, c) {
      AcceptedGoes(s, Apply(s, CopyNext));
      CopyAppends(s, Apply(s, CopyNext));
      RestCommitsExactly(Apply(s, CopyNext));
      GoneEnds(s, Apply(s, CopyNext), FinishCommit(Apply(s, CopyNext)));
    } else {
      RefusedCopyStops(s, Apply(s, CopyNext));
      RefusedEnds(s, Apply(s, CopyNext));
    }
  }

  // ---------------------------------------------------------------- positions and counts

  lemma {:induction false} BetweenLast(log: Log, todo: seq<nat>, c: nat, k: nat, entity: Uuid)
    requires c <= k < |todo| && forall m :: 0 <= m < |todo| ==> todo[m] < |log|
    ensures Between(log, todo, c, k + 1, entity) == Between(log, todo, c, k, entity) + if log[todo[k]].entity == entity then 1 else 0
    decreases k - c
  {
    if c < k { BetweenLast(log, todo, c + 1, k, entity); }
  }

  lemma {:induction false} BetweenPrefix(log: Log, more: Log, todo: seq<nat>, rest: seq<nat>, c: nat, k: nat, entity: Uuid)
    requires c <= k <= |todo| && (forall m :: 0 <= m < |todo| ==> todo[m] < |log|) && forall m :: 0 <= m < |rest| ==> rest[m] < |log + more|
    ensures Between(log + more, todo + rest, c, k, entity) == Between(log, todo, c, k, entity)
    decreases k - c
  {
    if c < k { BetweenPrefix(log, more, todo, rest, c + 1, k, entity); }
  }

  lemma {:induction false} BetweenIsOwn(log: Log, t: Uuid, entity: Uuid)
    ensures Between(log, Positions(log, t), 0, |Positions(log, t)|, entity) == Own(log, t, entity)
  {
    if log != [] {
      var n := |log| - 1;
      var todo, rest := Positions(log[..n], t), if log[n].txn == t then [n] else [];
      BetweenIsOwn(log[..n], t, entity);
      assert log == log[..n] + [log[n]] && Positions(log, t) == todo + rest;
      BetweenPrefix(log[..n], [log[n]], todo, rest, 0, |todo|, entity);
      if log[n].txn == t { BetweenLast(log, todo + rest, 0, |todo|, entity); }
    }
  }

  lemma {:induction false} EarlierAreOwn(log: Log, t: Uuid, k: nat, entity: Uuid)
    requires k < |Positions(log, t)|
    ensures Between(log, Positions(log, t), 0, k, entity) == Own(log[..Positions(log, t)[k]], t, entity)
  {
    var n := |log| - 1;
    var todo, rest := Positions(log[..n], t), if log[n].txn == t then [n] else [];
    assert log == log[..n] + [log[n]] && Positions(log, t) == todo + rest;
    BetweenPrefix(log[..n], [log[n]], todo, rest, 0, k, entity);
    if k < |todo| {
      EarlierAreOwn(log[..n], t, k, entity);
      assert log[..n][..todo[k]] == log[..todo[k]];
    } else {
      BetweenIsOwn(log[..n], t, entity);
    }
  }

  lemma {:induction false} ClearIsClearFrom(s: State, t: Uuid)
    requires t in s.table
    ensures Clear(s, t) <==> ClearFrom(s, t, 0)
  {
    hide Positions, Submittable, Between;
    var todo := Positions(s.log, t);
    forall k | 0 <= k < |todo| ensures CopyableFrom(s, t, 0, k) <==> Copyable(s, t, todo[k]) {
      EarlierAreOwn(s.log, t, k, s.log[todo[k]].entity);
    }
    hide Copyable, CopyableFrom;
    if ClearFrom(s, t, 0) {
      forall i | 0 <= i < |s.log| && s.log[i].txn == t ensures Copyable(s, t, i) {
        var k := PositionOf(s.log, t, i);
        assert CopyableFrom(s, t, 0, k);
      }
    }
  }

  lemma {:induction false} PositionOf(log: Log, t: Uuid, i: nat) returns (k: nat)
    requires i < |log| && log[i].txn == t
    ensures k < |Positions(log, t)| && Positions(log, t)[k] == i
  {
    PositionsComplete(log, t, i);
    k :| 0 <= k < |Positions(log, t)| && Positions(log, t)[k] == i;
  }

  /**
    Whatever a transaction has written and whatever else is stored: its commit ends COMMITTED, with all its
    copies after the log, exactly if it is clear when the commit begins. Otherwise it stays COMMITTING.
   */
  lemma {:induction false} CommitsExactly(s: State, t: Uuid)
    requires Shape(s) && s.running.None? && HasStatus(s.table, t, {Reserved})
    ensures
      var s' := FinishCommit(Apply(s, BeginCommit(t)));
      s'.running.None? && HasStatus(s'.table, t, if Clear(s, t) then {Committed} else {Committing}) &&
      (Clear(s, t) ==> s'.log == s.log + PendingCopies(s, t, 0))
  {
    var s1 := Apply(s, BeginCommit(t));
    hide Positions, FinishCommit;
    assert Shape(s1) && UnderWay(s1);
    RestCommitsExactly(s1);
    ClearIsClearFrom(s1, t);
    assert PendingCopies(s1, t, 0) == PendingCopies(s, t, 0);
    BeginKeepsClear(s, t, s1);
  }

  lemma {:induction false} BeginKeepsClear(s: State, t: Uuid, s1: State)
    requires s.running.None? && HasStatus(s.table, t, {Reserved}) && s1 == Apply(s, BeginCommit(t))
    ensures Clear(s1, t) <==> Clear(s, t)
  {
    forall i: nat | i < |s.log| && s.log[i].txn == t ensures Copyable(s1, t, i) <==> Copyable(s, t, i) {
      assert forall c :: c in s.table ==> (ActiveChild(s1.table, s.table[t].dest, c) <==> ActiveChild(s.table, s.table[t].dest, c));
    }
  }

  // ---------------------------------------------------------------- the first version decides

  /** The versions that t has written count up from the inherited one. */
  ghost predicate OwnContiguous(base: Base, log: Log, t: Uuid) {
    forall i :: 0 <= i < |log| && log[i].txn == t ==> log[i].version == base(t, log[i].entity) + Own(log[..i], t, log[i].entity) + 1
  }

  /** An active sibling of t has touched the entity. */
  ghost predicate Held(s: State, t: Uuid, entity: Uuid)
    requires t in s.table
  {
    exists c :: c in s.table && c != t && ActiveChild(s.table, s.table[t].dest, c) && Touches(s.log, c, entity)
  }

  /** At any depth: what decides is the first version of each entity, and no sibling that holds it. */
  lemma {:induction false} FirstVersionDecides(base: Base, s: State, t: Uuid)
    requires t in s.table && OwnContiguous(base, s.log, t)
    ensures Clear(s, t) <==>
            (forall e :: Touches(s.log, t, e) ==> base(t, e) + 1 > Counter(s, s.table[t].dest, e) && !Held(s, t, e))
  {
    forall i | 0 <= i < |s.log| && s.log[i].txn == t
      ensures var e := s.log[i].entity; Copyable(s, t, i) <==> base(t, e) + 1 > Counter(s, s.table[t].dest, e) && !Held(s, t, e)
    {
    }
    hide Copyable, Held;
    if Clear(s, t) {
      forall e | Touches(s.log, t, e) ensures base(t, e) + 1 > Counter(s, s.table[t].dest, e) && !Held(s, t, e) {
        var i :| 0 <= i < |s.log| && s.log[i].txn == t && s.log[i].entity == e;
        assert Copyable(s, t, i);
      }
    } else {
      var i :| 0 <= i < |s.log| && s.log[i].txn == t && !Copyable(s, t, i);
      assert Touches(s.log, t, s.log[i].entity);
    }
  }

  // ---------------------------------------------------------------- runs in which entities are written again and again

  function Highest(log: Log, txn: Uuid, entity: Uuid): nat {
    if log == [] then 0
    else
      var last, rest := log[|log| - 1], Highest(log[..|log| - 1], txn, entity);
      if last.txn == txn && last.entity == entity && last.version > rest then last.version else rest
  }

  /**
    Transactions on the outermost level only, that write each entity as often as they like, from the
    version they found at their first write of it.
   */
  ghost predicate Allowed(base: Base, s: State, step: Step) {
    match step
    case Begin(t, dest) => t != NULL_UUID && dest == NULL_UUID
    case Write(entry, version) =>
      if entry.txn == NULL_UUID then version.None?
      else
        HasStatus(s.table, entry.txn, {Pending}) &&
        version == Some(base(entry.txn, entry.entity) + Own(s.log, entry.txn, entry.entity) + 1) &&
        (Own(s.log, entry.txn, entry.entity) == 0 ==> base(entry.txn, entry.entity) == Highest(s.log, NULL_UUID, entry.entity))
    case _ => true
  }

  ghost predicate RepeatedRun(base: Base, states: seq<State>, steps: seq<Step>) {
    |states| == |steps| + 1 && states[0] == EmptyState &&
    forall k :: 0 <= k < |steps| ==> Allowed(base, states[k], steps[k]) && states[k + 1] == Apply(states[k], steps[k])
  }

  ghost predicate Flat(s: State) {
    Shape(s) && forall t :: t in s.table ==> s.table[t].dest == NULL_UUID
  }

  ghost predicate EventFits(base: Base, s: State, i: nat)
    requires i < |s.log|
  {
    var x := s.log[i];
    if x.txn == NULL_UUID then x.version <= Counter(s, NULL_UUID, x.entity)
    else
      x.txn in s.table && x.version == base(x.txn, x.entity) + Own(s.log[..i], x.txn, x.entity) + 1 &&
      base(x.txn, x.entity) <= Counter(s, NULL_UUID, x.entity)
  }

  ghost predicate EventsFit(base: Base, s: State) {
    forall i :: 0 <= i < |s.log| ==> EventFits(base, s, i)
  }

  ghost predicate Moved(base: Base, s: State, t: Uuid, c: nat, e: Uuid) {
    c <= |Positions(s.log, t)| && Counter(s, NULL_UUID, e) >= base(t, e) + Between(s.log, Positions(s.log, t), 0, c, e)
  }

  /** The commit under way has moved the counters of the outermost level by at least what it has copied. */
  ghost predicate RunningFits(base: Base, s: State) {
    s.running.Some? ==>
      var t, c := s.running.value.txn, s.running.value.copied;
      t != NULL_UUID && HasStatus(s.table, t, {Committing}) && c <= |Positions(s.log, t)| &&
      forall e :: Touches(s.log, t, e) ==> Moved(base, s, t, c, e)
  }

  ghost predicate Fits(base: Base, s: State) {
    Flat(s) && EventsFit(base, s) && RunningFits(base, s)
  }

  lemma {:induction false} HighestIsCounted(base: Base, s: State, n: nat, e: Uuid)
    requires EventsFit(base, s) && n <= |s.log|
    ensures Highest(s.log[..n], NULL_UUID, e) <= Counter(s, NULL_UUID, e)
  {
    if n > 0 {
      assert s.log[..n][..n - 1] == s.log[..n - 1] && s.log[..n][n - 1] == s.log[n - 1];
      HighestIsCounted(base, s, n - 1, e);
      assert EventFits(base, s, n - 1);
    }
  }

  /** One more event that fits, while no counter of the outermost level falls. */
  lemma {:induction false} EventsStillFit(base: Base, s: State, s': State)
    requires EventsFit(base, s) && s.log <= s'.log && s.table.Keys <= s'.table.Keys
    requires forall e :: Counter(s', NULL_UUID, e) >= Counter(s, NULL_UUID, e)
    requires forall i :: |s.log| <= i < |s'.log| ==> EventFits(base, s', i)
    ensures EventsFit(base, s')
  {
    forall i | 0 <= i < |s.log| ensures EventFits(base, s', i) {
      assert EventFits(base, s, i);
      assert s'.log[..i] == s.log[..i];
    }
  }

  lemma {:induction false} IdleStepIsIdle(base: Base, s: State, step: Step)
    requires Flat(s) && Allowed(base, s, step) && !step.Write? && !step.CopyNext?
    ensures
      var s' := Apply(s, step);
      Flat(s') && s'.log == s.log && s'.counters == s.counters && s.table.Keys <= s'.table.Keys &&
      (s'.running == s.running || s'.running.None? || (step.BeginCommit? && s'.running == Some(Copying(step.txn, 0)))) &&
      (forall t :: s'.running == Some(t) && HasStatus(s.table, t.txn, {Committing}) ==> HasStatus(s'.table, t.txn, {Committing})) &&
      (step.BeginCommit? && s'.running != s.running ==> HasStatus(s'.table, step.txn, {Committing}) && step.txn != NULL_UUID)
  {
    hide Positions, Committable;
  }

  lemma {:induction false} IdleStepFits(base: Base, s: State, step: Step)
    requires Fits(base, s) && Allowed(base, s, step) && !step.Write? && !step.CopyNext?
    ensures Fits(base, Apply(s, step))
  {
    hide Flat, Allowed, Apply, EventFits;
    var s' := Apply(s, step);
    IdleStepIsIdle(base, s, step);
    EventsStillFit(base, s, s') by { forall e ensures Counter(s', NULL_UUID, e) >= Counter(s, NULL_UUID, e) {} }
    if s'.running.Some? && s'.running != s.running {
      forall e | Touches(s.log, step.txn, e) ensures Moved(base, s', step.txn, 0, e) { TouchedIsCounted(base, s, step.txn, e); }
    }
  }

  lemma {:induction false} TouchedIsCounted(base: Base, s: State, t: Uuid, e: Uuid)
    requires EventsFit(base, s) && t != NULL_UUID && Touches(s.log, t, e)
    ensures Counter(s, NULL_UUID, e) >= base(t, e)
  {
    var i :| 0 <= i < |s.log| && s.log[i].txn == t && s.log[i].entity == e;
    assert EventFits(base, s, i);
  }

  /** What a submission of an outermost or a pending entry may do to the state. */
  ghost predicate Grown(s: State, s': State, x: EventEntry) {
    s'.table == s.table && (s'.log == s.log || s'.log == s.log + [x]) &&
    (forall e :: Counter(s', NULL_UUID, e) >= Counter(s, NULL_UUID, e)) &&
    (s'.log != s.log && x.txn == NULL_UUID ==> Counter(s', NULL_UUID, x.entity) == Counter(s, NULL_UUID, x.entity) + 1)
  }

  lemma {:induction false} SubmitGrows(s: State, entry: EventEntry, version: Option<nat>, skip: Option<Uuid>, source: int, x: EventEntry)
    requires x == entry.(version := if version.Some? then version.value else Counter(s, entry.txn, entry.entity) + 1)
    ensures Grown(s, Submit(s, entry, version, skip, source).0, x)
  {
  }

  lemma {:induction false} GrownKeepsRunning(base: Base, s: State, s': State, x: EventEntry)
    requires RunningFits(base, s) && Grown(s, s', x) && s'.running == s.running
    requires x.txn == NULL_UUID || HasStatus(s.table, x.txn, {Pending})
    ensures RunningFits(base, s')
  {
    if s.running.Some? {
      var t, c := s.running.value.txn, s.running.value.copied;
      hide Positions;
      if s'.log != s.log { PositionsAppend(s.log, x, t); }
      forall e | Touches(s'.log, t, e) ensures Moved(base, s', t, c, e) {
        if s'.log != s.log {
          BetweenStays(s.log, x, Positions(s.log, t), 0, c, e);
          TouchesAppend(s.log, x, t, e);
        }
        assert Moved(base, s, t, c, e);
        assert Positions(s'.log, t) == Positions(s.log, t);
        assert Counter(s', NULL_UUID, e) >= Counter(s, NULL_UUID, e);
        assert Between(s'.log, Positions(s.log, t), 0, c, e) == Between(s.log, Positions(s.log, t), 0, c, e);
      }
    }
  }

  lemma {:induction false} TouchesAppend(log: Log, x: EventEntry, t: Uuid, e: Uuid)
    requires x.txn != t
    ensures Touches(log + [x], t, e) <==> Touches(log, t, e)
  {
    OwnAppend(log, x, t, e);
    OwnCounts(log, t, e);
    OwnCounts(log + [x], t, e);
  }

  lemma {:induction false} WriteFits(base: Base, s: State, entry: EventEntry, version: Option<nat>)
    requires Fits(base, s) && Allowed(base, s, Write(entry, version))
    ensures Fits(base, Apply(s, Write(entry, version)))
  {
    var s' := Apply(s, Write(entry, version));
    var x := entry.(version := if version.Some? then version.value else Counter(s, entry.txn, entry.entity) + 1);
    SubmitGrows(s, entry, version, None, -1, x);
    assert s'.running == s.running by { hide EventsFit, RunningFits, Flat, Allowed; }
    hide Apply, RunningFits, Positions;
    GrownKeepsRunning(base, s, s', x);
    if s'.log != s.log { WrittenFits(base, s, entry, version, x, s'); }
    EventsStillFit(base, s, s');
  }

  lemma {:induction false} WrittenFits(base: Base, s: State, entry: EventEntry, version: Option<nat>, x: EventEntry, s': State)
    requires EventsFit(base, s) && Allowed(base, s, Write(entry, version)) && Grown(s, s', x) && s'.log == s.log + [x]
    requires x == entry.(version := if version.Some? then version.value else Counter(s, entry.txn, entry.entity) + 1)
    ensures EventFits(base, s', |s.log|)
  {
    assert s'.log[..|s.log|] == s.log;
    if entry.txn != NULL_UUID {
      if Own(s.log, entry.txn, entry.entity) == 0 {
        HighestIsCounted(base, s, |s.log|, entry.entity);
        assert s.log[..|s.log|] == s.log;
      } else {
        OwnCounts(s.log, entry.txn, entry.entity);
        TouchedIsCounted(base, s, entry.txn, entry.entity);
      }
    }
  }

  lemma {:induction false} CopyIs(base: Base, s: State, s': State)
    requires Flat(s) && RunningFits(base, s) && s.running.Some? && s' == Apply(s, CopyNext)
    requires s.running.value.copied < |Positions(s.log, s.running.value.txn)|
    ensures
      var t, c := s.running.value.txn, s.running.value.copied;
      Grown(s, s', s.log[Positions(s.log, t)[c]].(txn := NULL_UUID)) &&
      if s'.log == s.log then s'.running.None? else s'.running == Some(Copying(t, c + 1))
  {
    hide Positions, Submittable;
  }

  lemma {:induction false} CopyFits(base: Base, s: State)
    requires Fits(base, s)
    ensures Fits(base, Apply(s, CopyNext))
  {
    var s' := Apply(s, CopyNext);
    if s.running.Some? && s.running.value.copied < |Positions(s.log, s.running.value.txn)| {
      CopyIs(base, s, s');
      hide Apply, EventFits, Positions, Flat, RunningFits;
      if s'.log != s.log { CopiedFits(base, s, s'); }
      EventsStillFit(base, s, s');
      assert Flat(s') by { SameTableIsFlat(s, s'); }
      assert RunningFits(base, s') by { if s'.log == s.log { StoppedFits(base, s'); } }
    }
  }

  lemma {:induction false} SameTableIsFlat(s: State, s': State)
    requires Flat(s) && s'.table == s.table && |s'.source| == |s'.log|
    ensures Flat(s')
  {
  }

  lemma {:induction false} StoppedFits(base: Base, s: State)
    requires s.running.None?
    ensures RunningFits(base, s)
  {
  }

  /** The next copy of the commit under way has been stored. */
  ghost predicate CopyStored(s: State, s': State) {
    s.running.Some? && s.running.value.copied < |Positions(s.log, s.running.value.txn)| &&
    var t, c := s.running.value.txn, s.running.value.copied;
    var x := s.log[Positions(s.log, t)[c]].(txn := NULL_UUID);
    Grown(s, s', x) && s'.log == s.log + [x] && s'.running == Some(Copying(t, c + 1))
  }

  lemma {:induction false} CopiedFits(base: Base, s: State, s': State)
    requires EventsFit(base, s) && RunningFits(base, s) && CopyStored(s, s')
    ensures EventFits(base, s', |s.log|) && RunningFits(base, s')
  {
    var t, c := s.running.value.txn, s.running.value.copied;
    var x := s.log[Positions(s.log, t)[c]].(txn := NULL_UUID);
    hide Positions;
    PositionsAppend(s.log, x, t);
    CopiedEventFits(base, s, s');
    forall e | Touches(s'.log, t, e) ensures Moved(base, s', t, c + 1, e) { CopiedMoves(base, s, s', e); }
  }

  lemma {:induction false} CopiedEventFits(base: Base, s: State, s': State)
    requires EventsFit(base, s) && RunningFits(base, s) && CopyStored(s, s')
    ensures EventFits(base, s', |s.log|)
  {
    var t, c := s.running.value.txn, s.running.value.copied;
    hide Positions, Between;
    var i := Positions(s.log, t)[c];
    EarlierAreOwn(s.log, t, c, s.log[i].entity);
    assert EventFits(base, s, i);
    assert Touches(s.log, t, s.log[i].entity);
    assert Moved(base, s, t, c, s.log[i].entity);
  }

  lemma {:induction false} CopiedMoves(base: Base, s: State, s': State, e: Uuid)
    requires RunningFits(base, s) && CopyStored(s, s') && Touches(s'.log, s.running.value.txn, e)
    ensures Moved(base, s', s.running.value.txn, s.running.value.copied + 1, e)
  {
    var t, c := s.running.value.txn, s.running.value.copied;
    var todo := Positions(s.log, t);
    var x := s.log[todo[c]].(txn := NULL_UUID);
    hide Positions;
    PositionsAppend(s.log, x, t);
    TouchesAppend(s.log, x, t, e);
    BetweenStays(s.log, x, todo, 0, c + 1, e);
    BetweenLast(s.log, todo, 0, c, e);
    assert Moved(base, s, t, c, e);
    assert Positions(s'.log, t) == todo;
    assert Between(s'.log, todo, 0, c + 1, e) == Between(s.log, todo, 0, c, e) + if x.entity == e then 1 else 0;
    assert Counter(s', NULL_UUID, e) >= Counter(s, NULL_UUID, e) + if x.entity == e then 1 else 0;
  }

  lemma {:induction false} StepFits(base: Base, s: State, step: Step)
    requires Fits(base, s) && Allowed(base, s, step)
    ensures Fits(base, Apply(s, step))
  {
    hide Fits, Apply, Allowed;
    if step.Write? {
      WriteFits(base, s, step.entry, step.version);
    } else if step.CopyNext? {
      CopyFits(base, s);
    } else {
      IdleStepFits(base, s, step);
    }
  }

  lemma {:induction false} RunFits(base: Base, states: seq<State>, steps: seq<Step>, k: nat)
    requires RepeatedRun(base, states, steps) && k < |states|
    ensures Fits(base, states[k])
  {
    if k > 0 {
      RunFits(base, states, steps, k - 1);
      hide Fits, Apply, Allowed;
      assert Allowed(base, states[k - 1], steps[k - 1]) && states[k] == Apply(states[k - 1], steps[k - 1]);
      StepFits(base, states[k - 1], steps[k - 1]);
    }
  }

  /**
    However often they have written their entities, and whatever was refused before: in every run a reserved
    transaction's commit ends COMMITTED exactly if, as it begins, the first version of each of its entities is
    the next one of the outermost level and no other active transaction has touched the entity.
   */
  lemma {:induction false} RepeatedWritesCommit(base: Base, states: seq<State>, steps: seq<Step>, k: nat, t: Uuid)
    requires RepeatedRun(base, states, steps) && k < |states|
    requires states[k].running.None? && HasStatus(states[k].table, t, {Reserved})
    ensures
      var s := states[k];
      var s' := FinishCommit(Apply(s, BeginCommit(t)));
      HasStatus(s'.table, t, {Committed}) <==>
      (forall e :: Touches(s.log, t, e) ==> base(t, e) + 1 == Counter(s, NULL_UUID, e) + 1 && !Held(s, t, e))
  {
    var s := states[k];
    RunFits(base, states, steps, k);
    hide FinishCommit, Apply, Clear, Held;
    CommitsExactly(s, t);
    FitsIsContiguous(base, s, t);
    FirstVersionDecides(base, s, t);
    forall e | Touches(s.log, t, e) ensures Counter(s, NULL_UUID, e) >= base(t, e) { TouchedIsCounted(base, s, t, e); }
  }

  lemma {:induction false} FitsIsContiguous(base: Base, s: State, t: Uuid)
    requires EventsFit(base, s) && t != NULL_UUID
    ensures OwnContiguous(base, s.log, t)
  {
    forall i | 0 <= i < |s.log| && s.log[i].txn == t
      ensures s.log[i].version == base(t, s.log[i].entity) + Own(s.log[..i], t, s.log[i].entity) + 1
    {
      assert EventFits(base, s, i);
    }
  }

  /** A collision is remembered: it stores nothing, but the next event of the entity skips the version that was not given. */
  lemma {:induction false} CollisionLeavesGap(s: State, entry: EventEntry, version: nat, skip: Option<Uuid>, next: EventEntry)
    requires Submittable(s, entry, skip) && version <= Counter(s, entry.txn, entry.entity)
    requires next.txn == entry.txn && next.entity == entry.entity && Submittable(s, next, None)
    ensures var (s1, ok) := Submit(s, entry, Some(version), skip, -1);
            var s2 := Apply(s1, Write(next, None));
            !ok && s1.log == s.log && s2.log == s.log + [next.(version := Counter(s, entry.txn, entry.entity) + 2)]
  {
    var s1 := Submit(s, entry, Some(version), skip, -1).0;
    assert Submittable(s1, next, None) by { assert s1.table == s.table && s1.log == s.log; }
  }

  // ---------------------------------------------------------------- what a reservation is worth to such a transaction

  /** The step reserves another transaction that has touched an entity of t. */
  ghost predicate Rival(s: State, step: Step, t: Uuid)
    requires t in s.table
  {
    step.Reserve? && step.txn != t && s.running.None? && HasStatus(s.table, step.txn, {Pending}) && Committable(s, step.txn) &&
    exists e :: Touches(s.log, t, e) && Touches(s.log, step.txn, e)
  }

  /** As long as t is reserved nothing of its entities reaches the outermost level, and nothing is added to t. */
  lemma {:induction false} EntitiesStay(base: Base, s: State, step: Step, t: Uuid, e: Uuid)
    requires Flat(s) && RunningFits(base, s) && Allowed(base, s, step) && HasStatus(s.table, t, {Reserved})
    ensures Touches(Apply(s, step).log, t, e) <==> Touches(s.log, t, e)
    ensures Touches(s.log, t, e) ==> Counter(Apply(s, step), NULL_UUID, e) == Counter(s, NULL_UUID, e)
  {
    var s' := Apply(s, step);
    if step.Write? {
      assert Touches(s.log, t, e) && step.entry.txn == NULL_UUID && step.entry.entity == e ==> !Submittable(s, step.entry, None);
      if s'.log != s.log { TouchesAppend(s.log, s'.log[|s.log|], t, e); }
    } else if step.CopyNext? && s.running.Some? && s.running.value.copied < |Positions(s.log, s.running.value.txn)| {
      CopyIs(base, s, s');
      var x := s.log[Positions(s.log, s.running.value.txn)[s.running.value.copied]].(txn := NULL_UUID);
      if Touches(s.log, t, e) && x.entity == e { assert !Submittable(s, x, Some(s.running.value.txn)); }
      if s'.log != s.log { TouchesAppend(s.log, x, t, e); }
    } else if !step.CopyNext? {
      IdleStepIsIdle(base, s, step);
    }
  }

  /** Only a reservation makes a transaction active, and an active transaction writes no more. */
  lemma {:induction false} HoldersStay(base: Base, s: State, step: Step, c: Uuid, e: Uuid)
    requires Flat(s) && RunningFits(base, s) && Allowed(base, s, step) && c in Apply(s, step).table && Active(Apply(s, step).table, c)
    ensures c in s.table && Apply(s, step).table[c].dest == s.table[c].dest == NULL_UUID
    ensures Touches(Apply(s, step).log, c, e) <==> Touches(s.log, c, e)
    ensures Active(s.table, c) || (step == Reserve(c) && s.running.None? && HasStatus(s.table, c, {Pending}) && Committable(s, c))
  {
    var s' := Apply(s, step);
    if step.Write? {
      if s'.log != s.log { TouchesAppend(s.log, s'.log[|s.log|], c, e); }
    } else if step.CopyNext? && s.running.Some? && s.running.value.copied < |Positions(s.log, s.running.value.txn)| {
      CopyIs(base, s, s');
      if s'.log != s.log { TouchesAppend(s.log, s'.log[|s.log|], c, e); }
    } else if !step.CopyNext? {
      IdleStepIsIdle(base, s, step);
      hide Committable, Positions;
    }
  }

  lemma {:induction false} HeldExactly(base: Base, s: State, step: Step, t: Uuid, e: Uuid)
    requires Flat(s) && RunningFits(base, s) && Allowed(base, s, step) && HasStatus(s.table, t, {Reserved})
    requires HasStatus(Apply(s, step).table, t, {Reserved}) && Touches(s.log, t, e) && !Held(s, t, e)
    ensures Held(Apply(s, step), t, e) ==> Rival(s, step, t)
    ensures Rival(s, step, t) && Touches(s.log, step.txn, e) ==> Held(Apply(s, step), t, e)
  {
    var s' := Apply(s, step);
    if Held(s', t, e) {
      hide Apply, Committable, Positions, Touches;
      var c :| c in s'.table && c != t && ActiveChild(s'.table, s'.table[t].dest, c) && Touches(s'.log, c, e);
      HoldersStay(base, s, step, c, e);
      HoldersStay(base, s, step, t, e);
    }
    if Rival(s, step, t) && Touches(s.log, step.txn, e) {
      hide Committable, Positions, Touches;
      assert ActiveChild(s'.table, s'.table[t].dest, step.txn);
    }
  }

  /** A clear, reserved transaction stays clear in every step that leaves it reserved, except exactly one that reserves a rival. */
  lemma {:induction false} ClearStaysExactly(base: Base, s: State, step: Step, t: Uuid)
    requires Fits(base, s) && Allowed(base, s, step) && HasStatus(s.table, t, {Reserved}) && Clear(s, t)
    requires HasStatus(Apply(s, step).table, t, {Reserved})
    ensures Clear(Apply(s, step), t) <==> !Rival(s, step, t)
  {
    var s' := Apply(s, step);
    hide Apply, Clear, Held, Rival, Moved, EventFits;
    StepFits(base, s, step);
    FitsIsContiguous(base, s, t);
    FitsIsContiguous(base, s', t);
    FirstVersionDecides(base, s, t);
    FirstVersionDecides(base, s', t);
    assert s.table[t].dest == NULL_UUID && s'.table[t].dest == NULL_UUID;
    forall e ensures Touches(s'.log, t, e) <==> Touches(s.log, t, e) { EntitiesStay(base, s, step, t, e); }
    forall e | Touches(s.log, t, e)
      ensures Counter(s', NULL_UUID, e) == Counter(s, NULL_UUID, e) && !Held(s, t, e) &&
              (Held(s', t, e) ==> Rival(s, step, t)) &&
              (step.Reserve? && Rival(s, step, t) && Touches(s.log, step.txn, e) ==> Held(s', t, e))
    {
      EntitiesStay(base, s, step, t, e);
      HeldExactly(base, s, step, t, e);
    }
    if Rival(s, step, t) { RivalShares(s, step, t); }
  }

  lemma {:induction false} RivalShares(s: State, step: Step, t: Uuid)
    requires t in s.table && Rival(s, step, t)
    ensures step.Reserve? && exists e :: Touches(s.log, t, e) && Touches(s.log, step.txn, e)
  {
  }

  /** From a point where it is clear, a transaction that stays reserved can commit later, unless a rival is reserved in between. */
  lemma {:induction false} UnrivalledCommits(base: Base, states: seq<State>, steps: seq<Step>, j: nat, k: nat, t: Uuid)
    requires RepeatedRun(base, states, steps) && j <= k < |states| && states[k].running.None?
    requires forall m :: j <= m <= k ==> t in states[m].table && states[m].table[t].status == Reserved
    requires Clear(states[j], t) && forall m :: j <= m < k ==> !Rival(states[m], steps[m], t)
    ensures HasStatus(FinishCommit(Apply(states[k], BeginCommit(t))).table, t, {Committed})
  {
    hide Clear, Rival, FinishCommit, Apply;
    StaysClear(base, states, steps, j, k, t);
    RunFits(base, states, steps, k);
    CommitsExactly(states[k], t);
  }

  lemma {:induction false} StaysClear(base: Base, states: seq<State>, steps: seq<Step>, j: nat, k: nat, t: Uuid)
    requires RepeatedRun(base, states, steps) && j <= k < |states|
    requires forall m :: j <= m <= k ==> t in states[m].table && states[m].table[t].status == Reserved
    requires Clear(states[j], t) && forall m :: j <= m < k ==> !Rival(states[m], steps[m], t)
    ensures Clear(states[k], t)
    decreases k
  {
    hide Clear, Rival, Apply, Allowed;
    if j < k {
      StaysClear(base, states, steps, j, k - 1, t);
      RunFits(base, states, steps, k - 1);
      assert HasStatus(states[k].table, t, {Reserved}) && states[k] == Apply(states[k - 1], steps[k - 1]);
      assert Allowed(base, states[k - 1], steps[k - 1]) && !Rival(states[k - 1], steps[k - 1], t);
      ClearStaysExactly(base, states[k - 1], steps[k - 1], t);
    }
  }

  // ---------------------------------------------------------------- a run in which two rivals block each other

  lemma {:induction false} RunOn(base: Base, states: seq<State>, steps: seq<Step>, step: Step)
    returns (states': seq<State>, steps': seq<Step>)
    requires RepeatedRun(base, states, steps) && Allowed(base, states[|steps|], step)
    ensures RepeatedRun(base, states', steps') && steps' == steps + [step] && states' == states + [Apply(states[|steps|], step)]
  {
    hide Allowed, Apply;
    states', steps' := states + [Apply(states[|steps|], step)], steps + [step];
    forall k | 0 <= k < |steps'| ensures Allowed(base, states'[k], steps'[k]) && states'[k + 1] == Apply(states'[k], steps'[k]) {
      if k < |steps| { assert Allowed(base, states[k], steps[k]) && states[k + 1] == Apply(states[k], steps[k]); }
    }
  }

  const TwoPending: Table := map[1 := Txn(Pending, 0, 0), 2 := Txn(Pending, 0, 0)]

  ghost predicate Writing(s: State, log: Log) {
    s.table == TwoPending && s.log == log && s.running.None? && CountersExact(s) && forall e: Uuid :: Counter(s, NULL_UUID, e) == 0
  }

  lemma {:induction false} RunWrites(base: Base, states: seq<State>, steps: seq<Step>, x: EventEntry, t: Uuid)
    returns (states': seq<State>, steps': seq<Step>)
    requires RepeatedRun(base, states, steps) && Writing(states[|steps|], states[|steps|].log) && t in {1, 2} && base(t, x.entity) == 0
    ensures RepeatedRun(base, states', steps') && |steps'| == |steps| + 1
    ensures var log := states[|steps|].log; Writing(states'[|steps'|], log + [x.(txn := t, version := Own(log, t, x.entity) + 1)])
  {
    var s := states[|steps|];
    var entry, version := x.(txn := t), Some(Own(s.log, t, x.entity) + 1);
    RunFits(base, states, steps, |steps|);
    HighestIsCounted(base, s, |s.log|, x.entity);
    assert s.log[..|s.log|] == s.log;
    states', steps' := RunOn(base, states, steps, Write(entry, version));
    WriteStaysWriting(s, x, t);
  }

  lemma {:induction false} WriteStaysWriting(s: State, x: EventEntry, t: Uuid)
    requires Writing(s, s.log) && t in {1, 2}
    ensures var v := Own(s.log, t, x.entity) + 1;
            Writing(Apply(s, Write(x.(txn := t), Some(v))), s.log + [x.(txn := t, version := v)])
  {
    var v := Own(s.log, t, x.entity) + 1;
    WriteIs(s, x, t);
    hide Apply, Own;
    var s' := Apply(s, Write(x.(txn := t), Some(v)));
    forall u: Uuid, e: Uuid ensures Counter(s', u, e) == Own(s'.log, u, e) && (u == NULL_UUID ==> Counter(s', u, e) == 0) {
      OwnAppend(s.log, x.(txn := t, version := v), u, e);
      assert Counter(s, u, e) == Own(s.log, u, e);
      if u == NULL_UUID { assert Counter(s, NULL_UUID, e) == 0; }
    }
  }

  lemma {:induction false} WriteIs(s: State, x: EventEntry, t: Uuid)
    requires Writing(s, s.log) && t in {1, 2}
    ensures
      var v := Own(s.log, t, x.entity) + 1;
      var s' := Apply(s, Write(x.(txn := t), Some(v)));
      s'.table == s.table && s'.running == s.running && s'.log == s.log + [x.(txn := t, version := v)] &&
      s'.counters == s.counters[(x.entity, t) := v]
  {
    hide Own;
    assert Submittable(s, x.(txn := t), None) && Counter(s, t, x.entity) == Own(s.log, t, x.entity);
  }

  /** An entity written twice by transaction 1 and three times by transaction 2. */
  function LongerLog(x: EventEntry): Log {
    [x.(txn := 1, version := 1), x.(txn := 1, version := 2),
     x.(txn := 2, version := 1), x.(txn := 2, version := 2), x.(txn := 2, version := 3)]
  }

  lemma {:induction false} StartTwo(base: Base) returns (states: seq<State>, steps: seq<Step>)
    ensures RepeatedRun(base, states, steps) && |steps| == 2 && Writing(states[2], [])
  {
    states, steps := RunOn(base, [EmptyState], [], Begin(1, 0));
    states, steps := RunOn(base, states, steps, Begin(2, 0));
  }

  /** One more write by t, of which the log has `count` already. */
  lemma {:induction false} RunCounted(base: Base, states: seq<State>, steps: seq<Step>, x: EventEntry, t: Uuid, one: nat, two: nat)
    returns (states': seq<State>, steps': seq<Step>)
    requires RepeatedRun(base, states, steps) && Writing(states[|steps|], states[|steps|].log) && t in {1, 2} && base(t, x.entity) == 0
    requires Own(states[|steps|].log, 1, x.entity) == one && Own(states[|steps|].log, 2, x.entity) == two
    ensures RepeatedRun(base, states', steps') && |steps'| == |steps| + 1
    ensures var log := states[|steps|].log + [x.(txn := t, version := (if t == 1 then one else two) + 1)];
            Writing(states'[|steps'|], log) && Own(log, 1, x.entity) == one + (if t == 1 then 1 else 0) &&
            Own(log, 2, x.entity) == two + (if t == 2 then 1 else 0)
  {
    hide Own;
    var y := x.(txn := t, version := (if t == 1 then one else two) + 1);
    states', steps' := RunWrites(base, states, steps, x, t);
    OwnAppend(states[|steps|].log, y, 1, x.entity);
    OwnAppend(states[|steps|].log, y, 2, x.entity);
  }

  lemma {:induction false} LongerRun(base: Base, x: EventEntry) returns (states: seq<State>, steps: seq<Step>)
    requires base(1, x.entity) == 0 && base(2, x.entity) == 0
    ensures RepeatedRun(base, states, steps) && |steps| == 7 && Writing(states[7], LongerLog(x))
  {
    states, steps := StartTwo(base);
    assert states[2].log == [] && Own([], 1, x.entity) == 0 && Own([], 2, x.entity) == 0;
    hide Own;
    states, steps := RunCounted(base, states, steps, x, 1, 0, 0);
    states, steps := RunCounted(base, states, steps, x, 1, 1, 0);
    states, steps := RunCounted(base, states, steps, x, 2, 2, 0);
    states, steps := RunCounted(base, states, steps, x, 2, 2, 1);
    states, steps := RunCounted(base, states, steps, x, 2, 2, 2);
    assert states[7].log == LongerLog(x);
  }

  lemma {:induction false} LongerReserves(s: State, x: EventEntry)
    requires Writing(s, LongerLog(x))
    ensures
      var s1 := Apply(s, Reserve(1));
      s1.log == s.log && s1.running.None? && Committable(s1, 2) && (forall e: Uuid :: Counter(s1, NULL_UUID, e) == 0) &&
      s1.table == TwoPending[1 := Txn(Reserved, 0, 6)] &&
      var s2 := Apply(s1, Reserve(2));
      s2.log == s.log && s2.running.None? && s2.table == s1.table[2 := Txn(Reserved, 0, 6)]
  {
    assert Committable(s, 1);
    var s1 := SetStatus(s, 1, Reserved, 6);
    assert s1 == Apply(s, Reserve(1));
    forall e: Uuid ensures Counter(s1, NULL_UUID, e) == 0 { assert Counter(s, NULL_UUID, e) == 0; }
    forall i, j | 0 <= i < 5 && 0 <= j < 5 && HighestWrite(s1.log, 2, i) ensures !Clashes(s1, 2, i, j) {
      assert s1.log[4].txn == 2;
    }
    assert Committable(s1, 2);
  }

  lemma {:induction false} TouchesBoth(x: EventEntry)
    ensures forall e :: Touches(LongerLog(x), 1, e) <==> e == x.entity
    ensures forall e :: Touches(LongerLog(x), 2, e) <==> e == x.entity
  {
    var log := LongerLog(x);
    assert log[0].txn == 1 && log[0].entity == x.entity && log[2].txn == 2 && log[2].entity == x.entity;
  }

  /** A reserved transaction whose entity a sibling holds never ends its commit. */
  lemma {:induction false} HeldIsStuck(s: State, t: Uuid, c: Uuid, e: Uuid)
    requires Shape(s) && s.running.None? && HasStatus(s.table, t, {Reserved}) && HasStatus(s.table, c, {Reserved}) && c != t
    requires s.table[c].dest == s.table[t].dest && Touches(s.log, t, e) && Touches(s.log, c, e)
    ensures HasStatus(FinishCommit(Apply(s, BeginCommit(t))).table, t, {Committing})
  {
    hide FinishCommit, Apply;
    CommitsExactly(s, t);
    var i :| 0 <= i < |s.log| && s.log[i].txn == t && s.log[i].entity == e;
    assert ActiveChild(s.table, s.table[t].dest, c);
    assert !Copyable(s, t, i);
  }

  /**
    The rival is possible: two transactions write an entity twice and three times, both are reserved because
    `validate` compares the highest versions 2 and 3, and neither of them can commit any more.
   */
  lemma {:induction false} LongerRivalBlocks(base: Base, x: EventEntry) returns (states: seq<State>, steps: seq<Step>)
    requires base(1, x.entity) == 0 && base(2, x.entity) == 0
    ensures RepeatedRun(base, states, steps) && |steps| == 9 && steps[7] == Reserve(1) && steps[8] == Reserve(2)
    ensures HasStatus(states[8].table, 1, {Reserved}) && Clear(states[8], 1) && Rival(states[8], steps[8], 1)
    ensures var s := states[9];
            HasStatus(s.table, 1, {Reserved}) && HasStatus(s.table, 2, {Reserved}) &&
            HasStatus(FinishCommit(Apply(s, BeginCommit(1))).table, 1, {Committing}) &&
            HasStatus(FinishCommit(Apply(s, BeginCommit(2))).table, 2, {Committing})
  {
    hide FinishCommit, Apply, Committable, Fits, Clear, Rival, CountersExact;
    states, steps := LongerRun(base, x);
    states, steps := RunOn(base, states, steps, Reserve(1));
    states, steps := RunOn(base, states, steps, Reserve(2));
    LongerReserves(states[7], x);
    TouchesBoth(x);
    RunFits(base, states, steps, 8);
    LongerIsClear(base, states[8], x);
    RunFits(base, states, steps, 9);
    assert Shape(states[9]) by { FitsIsShaped(base, states[9]); }
    hide RepeatedRun;
    LongerIsStuck(states[9], x);
  }

  lemma {:induction false} FitsIsShaped(base: Base, s: State)
    requires Fits(base, s)
    ensures Shape(s)
  {
  }

  lemma {:induction false} LongerIsClear(base: Base, s: State, x: EventEntry)
    requires base(1, x.entity) == 0 && Fits(base, s) && s.log == LongerLog(x) && s.table == TwoPending[1 := Txn(Reserved, 0, 6)]
    requires s.running.None? && Committable(s, 2) && forall e: Uuid :: Counter(s, NULL_UUID, e) == 0
    ensures Clear(s, 1) && Rival(s, Reserve(2), 1)
  {
    hide Clear, Committable, Flat;
    TouchesBoth(x);
    FitsIsContiguous(base, s, 1);
    FirstVersionDecides(base, s, 1);
    assert Touches(s.log, 1, x.entity) && Touches(s.log, 2, x.entity);
  }

  lemma {:induction false} LongerIsStuck(s: State, x: EventEntry)
    requires Shape(s) && s.running.None? && s.log == LongerLog(x)
    requires s.table == TwoPending[1 := Txn(Reserved, 0, 6)][2 := Txn(Reserved, 0, 6)]
    ensures HasStatus(FinishCommit(Apply(s, BeginCommit(1))).table, 1, {Committing})
    ensures HasStatus(FinishCommit(Apply(s, BeginCommit(2))).table, 2, {Committing})
  {
    TouchesBoth(x);
    HeldIsStuck(s, 1, 2, x.entity);
    HeldIsStuck(s, 2, 1, x.entity);
  }
}
