/** Committing changes nothing for a reader: what the transaction saw before is what its destination shows after. */
module CommitVisibility {
  import opened Wrappers
  import opened TransactionProtocol
  import opened TransactionSafety
  import opened TransactionTheorems
  import opened Overlay

  // ---------------------------------------------------------------- replay

  datatype Content = Content(version: nat, action: Action, data: int)

  datatype Snapshot<S> = Missing | Deleted(version: nat) | Alive(instance: S)

  function ContentOf(x: EventEntry): Content { Content(x.version, x.action, x.data) }

  function ApplyAll<S>(apply: (S, Content) -> S, instance: S, entries: seq<EventEntry>): S {
    if entries == [] then instance else apply(ApplyAll(apply, instance, entries[..|entries| - 1]), ContentOf(entries[|entries| - 1]))
  }

  /** `_build_instance`, for any meaning of creating from and applying an event. */
  function Replay<S>(create: Content -> S, apply: (S, Content) -> S, entries: seq<EventEntry>): Snapshot<S> {
    if entries == [] then Missing
    else if entries[|entries| - 1].action == Delete then Deleted(entries[|entries| - 1].version)
    else Alive(ApplyAll(apply, create(ContentOf(entries[0])), entries[1..]))
  }

  predicate SameContents(r: seq<EventEntry>, q: seq<EventEntry>) {
    |r| == |q| && forall k :: 0 <= k < |r| ==> ContentOf(r[k]) == ContentOf(q[k])
  }

  lemma {:induction false} ApplyAllSame<S>(apply: (S, Content) -> S, instance: S, r: seq<EventEntry>, q: seq<EventEntry>)
    requires SameContents(r, q)
    ensures ApplyAll(apply, instance, r) == ApplyAll(apply, instance, q)
  {
    if r != [] {
      ApplyAllSame(apply, instance, r[..|r| - 1], q[..|q| - 1]);
      assert ContentOf(r[|r| - 1]) == ContentOf(q[|q| - 1]);
    }
  }

  lemma {:induction false} ReplaySame<S>(create: Content -> S, apply: (S, Content) -> S, r: seq<EventEntry>, q: seq<EventEntry>)
    requires SameContents(r, q)
    ensures Replay(create, apply, r) == Replay(create, apply, q)
  {
    if r != [] {
      assert ContentOf(r[0]) == ContentOf(q[0]) && ContentOf(r[|r| - 1]) == ContentOf(q[|q| - 1]);
      ApplyAllSame(apply, create(ContentOf(r[0])), r[1..], q[1..]);
    }
  }

  // ---------------------------------------------------------------- a held entity stays as it is

  function EventsOf(log: Log, t: Uuid, e: Uuid): (r: seq<EventEntry>)
    ensures forall x :: x in r <==> x in log && x.txn == t && x.entity == e
  {
    if log == [] then []
    else
      var n := |log| - 1;
      assert log == log[..n] + [log[n]];
      EventsOf(log[..n], t, e) + if log[n].txn == t && log[n].entity == e then [log[n]] else []
  }

  lemma {:induction false} EventsOfAppend(log: Log, x: EventEntry, t: Uuid, e: Uuid)
    ensures EventsOf(log + [x], t, e) == EventsOf(log, t, e) + if x.txn == t && x.entity == e then [x] else []
  {
  }

  function CopyOf(s: State, i: nat): EventEntry
    requires i < |s.log| && s.log[i].txn in s.table
  {
    s.log[i].(txn := s.table[s.log[i].txn].dest)
  }

  /** No step changes what the destination holds of a held entity, but the one that copies the holder's event. */
  lemma {:induction false} HeldEntityStays(base: Base, s: State, step: Step, s': State, i: nat)
    requires RootedBase(base) && Inv(base, s) && Next(base, s, step, s') && i < |s.log| && Active(s.table, s.log[i].txn)
    ensures i < |s'.log| && s'.log[i] == s.log[i] && s.log[i].txn in s'.table && s'.table[s.log[i].txn].dest == s.table[s.log[i].txn].dest
    ensures
      var d, e := s.table[s.log[i].txn].dest, s.log[i].entity;
      EventsOf(s'.log, d, e) == EventsOf(s.log, d, e) + if !Copied(s, i) && Copied(s', i) then [CopyOf(s, i)] else []
  {
    hide Inv, Apply, Anchored;
    if step.Write? && Submittable(s, step.entry, None) {
      WriteOfOthers(base, s, step.entry, step.version, s', i);
    } else if step.CopyNext? && s.running.Some? && s.running.value.copied < |Positions(s.log, s.running.value.txn)| {
      CopyOfHeldEntity(base, s, s', i);
    } else {
      SameLog(base, s, step, s');
    }
  }

  lemma {:induction false} WriteOfOthers(base: Base, s: State, entry: EventEntry, version: Option<nat>, s': State, i: nat)
    requires RootedBase(base) && Inv(base, s) && Next(base, s, Write(entry, version), s') && Submittable(s, entry, None)
    requires i < |s.log| && Active(s.table, s.log[i].txn)
    ensures |s.log| < |s'.log| && s'.log[i] == s.log[i] && s'.table == s.table && (Copied(s', i) <==> Copied(s, i))
    ensures EventsOf(s'.log, s.table[s.log[i].txn].dest, s.log[i].entity) == EventsOf(s.log, s.table[s.log[i].txn].dest, s.log[i].entity)
  {
    hide Contiguous, CountersExact, EventsAnchored, SourcesExact, AllReady, Exclusive, RunningExact, Anchored, Apply, PermittedWrite;
    var x := entry.(version := Latest(base, s.log, entry.txn, entry.entity) + 1);
    var t, d, e := s.log[i].txn, s.table[s.log[i].txn].dest, s.log[i].entity;
    WriteAppends(base, s, entry, version, s');
    EventsOfAppend(s.log, x, d, e);
    CopiedAppend(s, x, -1, s', i);
    assert Touches(s.log, t, e) && ActiveChild(s.table, d, t);
  }

  lemma {:induction false} SameLog(base: Base, s: State, step: Step, s': State)
    requires Next(base, s, step, s')
    requires step.Write? ==> !Submittable(s, step.entry, None)
    requires step.CopyNext? && s.running.Some? ==> s.running.value.copied >= |Positions(s.log, s.running.value.txn)|
    ensures s'.log == s.log && s'.source == s.source
    ensures forall u :: u in s.table ==> u in s'.table && s'.table[u].dest == s.table[u].dest
    ensures forall i: nat :: Copied(s', i) <==> Copied(s, i)
  {
    hide Committable, Submittable, PermittedWrite;
  }

  lemma {:induction false} CopyAppends(base: Base, s: State, s': State) returns (x: EventEntry)
    requires Inv(base, s) && s' == Apply(s, CopyNext)
    requires s.running.Some? && s.running.value.copied < |Positions(s.log, s.running.value.txn)|
    ensures
      var u, j := s.running.value.txn, Positions(s.log, s.running.value.txn)[s.running.value.copied];
      u in s.table && Active(s.table, u) && x == s.log[j].(txn := s.table[u].dest) && Appended(s, x, j, s')
  {
    hide Contiguous, CountersExact, EventsAnchored, SourcesExact, Anchored, Exclusive, AllReady;
    CopyIsAccepted(base, s);
    var u, j := s.running.value.txn, Positions(s.log, s.running.value.txn)[s.running.value.copied];
    x := s.log[j].(txn := s.table[u].dest);
  }

  lemma {:induction false} CopyOfHeldEntity(base: Base, s: State, s': State, i: nat)
    requires Inv(base, s) && s' == Apply(s, CopyNext) && i < |s.log| && Active(s.table, s.log[i].txn)
    requires s.running.Some? && s.running.value.copied < |Positions(s.log, s.running.value.txn)|
    ensures |s.log| < |s'.log| && s'.log[i] == s.log[i] && s'.table == s.table
    ensures
      var d, e := s.table[s.log[i].txn].dest, s.log[i].entity;
      EventsOf(s'.log, d, e) == EventsOf(s.log, d, e) + if !Copied(s, i) && Copied(s', i) then [CopyOf(s, i)] else []
  {
    hide Contiguous, CountersExact, EventsAnchored, SourcesExact, Anchored, Exclusive, EventsOf, Apply;
    var t, d, e := s.log[i].txn, s.table[s.log[i].txn].dest, s.log[i].entity;
    var u, j := s.running.value.txn, Positions(s.log, s.running.value.txn)[s.running.value.copied];
    CopyIsAccepted(base, s);
    var x := CopyAppends(base, s, s');
    EventsOfAppend(s.log, x, d, e);
    CopiedAppend(s, x, j, s', i);
    assert Touches(s.log, t, e) && ActiveChild(s.table, d, t);
    assert Ready(base, s, t);
  }

  /** From the reservation to the end of the commit, through any interleaving, the destination gains that one event only. */
  lemma {:induction false} HeldThroughCommit(base: Base, states: seq<State>, steps: seq<Step>, a: nat, k: nat, i: nat)
    requires RootedBase(base) && Run(base, states, steps) && a <= k < |states| && i < |states[a].log|
    requires HasStatus(states[a].table, states[a].log[i].txn, {Reserved})
    requires forall j :: a <= j < k ==> Active(states[j].table, states[a].log[i].txn)
    ensures
      var s, s' := states[a], states[k];
      var t, e := s.log[i].txn, s.log[i].entity;
      i < |s'.log| && s'.log[i] == s.log[i] && t in s'.table && s'.table[t].dest == s.table[t].dest &&
      EventsOf(s'.log, s.table[t].dest, e) == EventsOf(s.log, s.table[t].dest, e) + if Copied(s', i) then [CopyOf(s, i)] else []
    decreases k
  {
    hide Inv, Next, Apply, EventsOf;
    RunKeeps(base, states, steps, a);
    if k == a {
      assert !Copied(states[a], i) by { ReservedIsUncopied(base, states[a], i); }
    } else {
      HeldThroughCommit(base, states, steps, a, k - 1, i);
      RunKeeps(base, states, steps, k - 1);
      HeldEntityStays(base, states[k - 1], steps[k - 1], states[k], i);
      if Copied(states[k - 1], i) { CopiesStay(base, states[k - 1], steps[k - 1], states[k], i); }
    }
  }

  lemma {:induction false} ReservedIsUncopied(base: Base, s: State, i: nat)
    requires Inv(base, s) && i < |s.log| && HasStatus(s.table, s.log[i].txn, {Reserved})
    ensures !Copied(s, i)
  {
  }

  lemma {:induction false} CopiesStay(base: Base, s: State, step: Step, s': State, i: nat)
    requires Next(base, s, step, s') && Copied(s, i)
    ensures Copied(s', i)
  {
    var j :| 0 <= j < |s.source| && s.source[j] == i;
    assert s.source <= s'.source by { hide Committable, Submittable; }
    assert s'.source[j] == i;
  }

  // ---------------------------------------------------------------- the reader sees no difference

  lemma {:induction false} OwnGrows(log: Log, i: nat, j: nat, t: Uuid, e: Uuid)
    requires i <= j <= |log|
    ensures Own(log[..i], t, e) <= Own(log[..j], t, e)
    decreases j - i
  {
    if i < j {
      OwnGrows(log, i, j - 1, t, e);
      assert log[..j] == log[..j - 1] + [log[j - 1]];
      OwnAppend(log[..j - 1], log[j - 1], t, e);
    }
  }

  /** Along the log, the versions of an entity within one transaction go up. */
  lemma {:induction false} VersionsAscend(base: Base, log: Log, i: nat, j: nat)
    requires Contiguous(base, log) && i < j < |log| && log[i].entity == log[j].entity && log[i].txn == log[j].txn
    ensures log[i].version < log[j].version
  {
    assert log[..i + 1] == log[..i] + [log[i]];
    OwnAppend(log[..i], log[i], log[i].txn, log[i].entity);
    OwnGrows(log, i + 1, j, log[i].txn, log[i].entity);
  }

  lemma {:induction false} ContiguousIsUnique(base: Base, log: Log, e: Uuid)
    requires Contiguous(base, log)
    ensures Unique(log, e)
  {
    forall i, j | 0 <= i < j < |log| && log[i].entity == e && log[j].entity == e && log[i].txn == log[j].txn
      ensures log[i].version != log[j].version
    {
      VersionsAscend(base, log, i, j);
    }
  }

  /**
    `log'` has all that `log` has on the chain of d, and every event of e in t has been copied to d,
    which gained nothing else of e. What the ancestors of d gained is left open.
   */
  predicate CopiedInto(log: Log, log': Log, t: Uuid, d: Uuid, outer: seq<Uuid>, e: Uuid) {
    (forall x :: x in log && x.entity == e && x.txn in outer + [d] ==> x in log') &&
    (forall x :: x in log && x.entity == e && x.txn == t ==> x.(txn := d) in log') &&
    (forall x :: x in log' && x.entity == e && x.txn == d ==> x in log || x.(txn := t) in log)
  }

  /** An event of e that an ancestor of d has got in between. */
  predicate Gained(log: Log, log': Log, outer: seq<Uuid>, e: Uuid, x: EventEntry) {
    x in log' && Seen(x, e, outer) && x !in log
  }

  /** No event of the chain with the same version is further in. */
  predicate Innermost(log: Log, e: Uuid, chain: seq<Uuid>, x: EventEntry)
    requires x.txn in chain
  {
    forall y :: y in log && Seen(y, e, chain) && y.version == x.version ==> Index(chain, y.txn) <= Index(chain, x.txn)
  }

  predicate Repeats(view: seq<EventEntry>, x: EventEntry) {
    exists k :: 0 <= k < |view| && ContentOf(view[k]) == ContentOf(x)
  }

  /** What the ancestors gained is hidden by events further in, or says what the view said before. */
  ghost predicate GainsHidden(log: Log, log': Log, d: Uuid, outer: seq<Uuid>, e: Uuid, before: seq<EventEntry>) {
    forall x :: Gained(log, log', outer, e, x) && x.txn in outer + [d] && Innermost(log', e, outer + [d], x) ==> Repeats(before, x)
  }

  lemma {:induction false} IndexOfInner(outer: seq<Uuid>, x: Uuid, y: Uuid)
    requires Distinct(outer + [y])
    ensures Index(outer + [y], y) == |outer|
    ensures x in outer ==> x in outer + [y] && Index(outer + [y], x) == Index(outer, x) < |outer|
  {
    assert (outer + [y])[|outer|] == y;
    if x in outer {
      var k := Index(outer, x);
      assert (outer + [y])[k] == x;
    }
  }

  /** Where an event of the chain of t is found once t's events are copied to d. */
  function MovedTo(y: EventEntry, t: Uuid, d: Uuid): EventEntry { if y.txn == t then y.(txn := d) else y }

  lemma {:induction false} MovedIsSeen(log: Log, log': Log, t: Uuid, d: Uuid, outer: seq<Uuid>, e: Uuid, y: EventEntry)
    requires Distinct(outer + [d] + [t]) && CopiedInto(log, log', t, d, outer, e) && y in log && Seen(y, e, outer + [d] + [t])
    ensures MovedTo(y, t, d) in log' && Seen(MovedTo(y, t, d), e, outer + [d])
  {
    assert (outer + [d])[|outer|] == d;
  }

  lemma {:induction false} MovedKeepsDepth(t: Uuid, d: Uuid, outer: seq<Uuid>, y: EventEntry, z: EventEntry)
    requires Distinct(outer + [d] + [t]) && y.txn in outer + [d] + [t] && z.txn in outer + [d] + [t]
    requires Index(outer + [d] + [t], y.txn) <= Index(outer + [d] + [t], z.txn)
    ensures MovedTo(y, t, d).txn in outer + [d] && MovedTo(z, t, d).txn in outer + [d]
    ensures Index(outer + [d], MovedTo(y, t, d).txn) <= Index(outer + [d], MovedTo(z, t, d).txn)
  {
    hide Index;
    var chain := outer + [d];
    assert chain[|outer|] == d && (chain + [t])[|outer|] == d;
    assert Distinct(chain) by { assert forall j :: 0 <= j < |chain| ==> chain[j] == (chain + [t])[j]; }
    IndexOfInner(chain, y.txn, t);
    IndexOfInner(chain, z.txn, t);
    IndexOfInner(outer, y.txn, d);
    IndexOfInner(outer, z.txn, d);
  }

  lemma {:induction false} SameDepth(chain: seq<Uuid>, x: Uuid, y: Uuid)
    requires x in chain && y in chain && Index(chain, x) == Index(chain, y)
    ensures x == y
    decreases |chain|
  {
    if chain[0] != x && chain[0] != y { SameDepth(chain[1..], x, y); }
  }

  /** An entry of the later view that the ancestors did not gain was in the earlier view, perhaps in t. */
  lemma {:induction false} KeptWasSeen(log: Log, log': Log, t: Uuid, d: Uuid, outer: seq<Uuid>, e: Uuid,
                                       before: seq<EventEntry>, after: seq<EventEntry>, k: nat)
    requires Distinct(outer + [d] + [t]) && CopiedInto(log, log', t, d, outer, e) && Unique(log', e)
    requires IsOverlay(log, e, outer + [d] + [t], before) && IsOverlay(log', e, outer + [d], after)
    requires k < |after| && !Gained(log, log', outer, e, after[k])
    ensures Repeats(before, after[k])
  {
    hide IsOverlay, Index, Unique;
    var inner, chain := outer + [d] + [t], outer + [d];
    OverlayEntry(log', e, chain, after, k);
    var y := if after[k] in log then after[k] else after[k].(txn := t);
    assert y in log && Seen(y, e, inner) && MovedTo(y, t, d) == after[k] by {
      assert inner[|outer|] == d && inner[|outer| + 1] == t && chain[|outer|] == d;
      assert forall j :: 0 <= j < |chain| ==> chain[j] == inner[j];
    }
    var j := Speaker(log, e, inner, before, y);
    MovedKeepsDepth(t, d, outer, y, before[j]);
    MovedIsSeen(log, log', t, d, outer, e, before[j]);
    var k' := Speaker(log', e, chain, after, MovedTo(before[j], t, d));
    assert k' == k;
    SameDepth(chain, after[k].txn, MovedTo(before[j], t, d).txn);
    SameEvent(log', e, after[k], MovedTo(before[j], t, d));
    assert ContentOf(before[j]) == ContentOf(after[k]);
  }

  /** The entries of an overlay are the innermost events. */
  lemma {:induction false} EntryIsInnermost(log: Log, e: Uuid, chain: seq<Uuid>, r: seq<EventEntry>, k: nat)
    requires IsOverlay(log, e, chain, r) && k < |r|
    ensures Seen(r[k], e, chain) && Innermost(log, e, chain, r[k])
  {
    hide IsOverlay, Index;
    OverlayEntry(log, e, chain, r, k);
    forall y | y in log && Seen(y, e, chain) && y.version == r[k].version ensures Index(chain, y.txn) <= Index(chain, r[k].txn) {
      var j := Speaker(log, e, chain, r, y);
      assert j == k;
    }
  }

  lemma {:induction false} InnermostIsEntry(log: Log, e: Uuid, chain: seq<Uuid>, r: seq<EventEntry>, x: EventEntry)
    requires IsOverlay(log, e, chain, r) && Unique(log, e) && x in log && Seen(x, e, chain) && Innermost(log, e, chain, x)
    ensures x in r
  {
    hide IsOverlay, Index, Unique;
    var k := Speaker(log, e, chain, r, x);
    SameDepth(chain, x.txn, r[k].txn);
    SameEvent(log, e, x, r[k]);
  }

  function Bare(r: seq<EventEntry>): (q: seq<EventEntry>)
    ensures |q| == |r| && forall k :: 0 <= k < |r| ==> q[k] == r[k].(txn := NULL_UUID, entity := NULL_UUID)
  {
    seq(|r|, k requires 0 <= k < |r| => r[k].(txn := NULL_UUID, entity := NULL_UUID))
  }

  lemma {:induction false} MutualRepeats(r: seq<EventEntry>, q: seq<EventEntry>)
    requires VersionSorted(r) && VersionSorted(q)
    requires (forall k :: 0 <= k < |r| ==> Repeats(q, r[k])) && (forall k :: 0 <= k < |q| ==> Repeats(r, q[k]))
    ensures SameContents(r, q)
  {
    hide VersionSorted;
    BareRepeats(r, q);
    BareRepeats(q, r);
    SortedByVersionSame(Bare(r), Bare(q));
    assert forall k :: 0 <= k < |r| ==> Bare(r)[k] == Bare(q)[k];
  }

  lemma {:induction false} BareRepeats(r: seq<EventEntry>, q: seq<EventEntry>)
    requires VersionSorted(r) && forall k :: 0 <= k < |r| ==> Repeats(q, r[k])
    ensures VersionSorted(Bare(r)) && forall k :: 0 <= k < |r| ==> Bare(r)[k] in Bare(q)
  {
    forall k | 0 <= k < |r| ensures Bare(r)[k] in Bare(q) {
      var j :| 0 <= j < |q| && ContentOf(q[j]) == ContentOf(r[k]);
      assert Bare(q)[j] == Bare(r)[k];
    }
  }

  /** The view inside t before and the view of d afterwards say the same, exactly if what d's ancestors gained is hidden. */
  lemma {:induction false} ViewsAgreeExactly(log: Log, log': Log, t: Uuid, d: Uuid, outer: seq<Uuid>, e: Uuid,
                                             before: seq<EventEntry>, after: seq<EventEntry>)
    requires Distinct(outer + [d] + [t]) && CopiedInto(log, log', t, d, outer, e) && Unique(log', e)
    requires IsOverlay(log, e, outer + [d] + [t], before) && IsOverlay(log', e, outer + [d], after)
    ensures SameContents(before, after) <==> GainsHidden(log, log', d, outer, e, before)
  {
    hide IsOverlay, Index, Unique, CopiedInto, Innermost;
    if SameContents(before, after) {
      forall x | Gained(log, log', outer, e, x) && x.txn in outer + [d] && Innermost(log', e, outer + [d], x) ensures Repeats(before, x) {
        InnermostIsEntry(log', e, outer + [d], after, x);
        var k :| 0 <= k < |after| && after[k] == x;
        assert ContentOf(before[k]) == ContentOf(x);
      }
    }
    if GainsHidden(log, log', d, outer, e, before) { HiddenGainsAgree(log, log', t, d, outer, e, before, after); }
  }

  lemma {:induction false} HiddenGainsAgree(log: Log, log': Log, t: Uuid, d: Uuid, outer: seq<Uuid>, e: Uuid,
                                            before: seq<EventEntry>, after: seq<EventEntry>)
    requires Distinct(outer + [d] + [t]) && CopiedInto(log, log', t, d, outer, e) && Unique(log', e)
    requires IsOverlay(log, e, outer + [d] + [t], before) && IsOverlay(log', e, outer + [d], after)
    requires GainsHidden(log, log', d, outer, e, before)
    ensures SameContents(before, after)
  {
    hide IsOverlay, Index, Unique, CopiedInto, Innermost;
    forall k | 0 <= k < |after| ensures Repeats(before, after[k]) {
      EntryIsInnermost(log', e, outer + [d], after, k);
      if !Gained(log, log', outer, e, after[k]) { KeptWasSeen(log, log', t, d, outer, e, before, after, k); }
    }
    forall j | 0 <= j < |before| ensures Repeats(after, before[j]) {
      OverlayEntry(log, e, outer + [d] + [t], before, j);
      MovedIsSeen(log, log', t, d, outer, e, before[j]);
      var k := Speaker(log', e, outer + [d], after, MovedTo(before[j], t, d));
      assert Repeats(before, after[k]);
      var j' :| 0 <= j' < |before| && ContentOf(before[j']) == ContentOf(after[k]);
      assert j' == j;
    }
    OverlaySorted(log, e, outer + [d] + [t], before);
    OverlaySorted(log', e, outer + [d], after);
    MutualRepeats(before, after);
  }

  lemma {:induction false} OverlaySorted(log: Log, e: Uuid, chain: seq<Uuid>, r: seq<EventEntry>)
    requires IsOverlay(log, e, chain, r)
    ensures VersionSorted(r)
  {
  }

  lemma {:induction false} ChainOfChild(table: Table, t: Uuid) returns (outer: seq<Uuid>)
    requires Nested(table) && t in table
    ensures Chain(table, table[t].dest) == outer + [table[t].dest] && Chain(table, t) == outer + [table[t].dest] + [t]
    ensures Distinct(outer + [table[t].dest] + [t])
  {
    var c := Chain(table, table[t].dest);
    outer := c[..|c| - 1];
    assert c == outer + [table[t].dest];
    assert Chain(table, t) == c + [t];
    assert Distinct(Chain(table, t));
  }

  /** The chain that a reader inside t goes through; stored transactions are always nested. */
  function ChainOf(table: Table, t: Uuid): seq<Uuid> {
    if Nested(table) && (t == NULL_UUID || t in table) then Chain(table, t) else []
  }

  lemma {:induction false} LogGrows(base: Base, states: seq<State>, steps: seq<Step>, a: nat, b: nat)
    requires Run(base, states, steps) && a <= b < |states|
    ensures states[a].log <= states[b].log
    decreases b
  {
    if a < b {
      LogGrows(base, states, steps, a, b - 1);
      StepGrows(base, states[b - 1], steps[b - 1], states[b]);
    }
  }

  lemma {:induction false} StepGrows(base: Base, s: State, step: Step, s': State)
    requires Next(base, s, step, s')
    ensures s.log <= s'.log
  {
    hide Committable, Submittable, Positions;
  }

  /** t is RESERVED at a, stays active and is COMMITTED at b, in any interleaving, and has written the entity of its event i. */
  ghost predicate CommittedBetween(base: Base, states: seq<State>, steps: seq<Step>, a: nat, b: nat, i: nat) {
    RootedBase(base) && Run(base, states, steps) && a < b < |states| && i < |states[a].log| &&
    HasStatus(states[a].table, states[a].log[i].txn, {Reserved}) && HasStatus(states[b].table, states[a].log[i].txn, {Committed}) &&
    forall j :: a <= j < b ==> Active(states[j].table, states[a].log[i].txn)
  }

  lemma {:induction false} CommittedIsCopiedInto(base: Base, states: seq<State>, steps: seq<Step>, a: nat, b: nat, i: nat)
    returns (outer: seq<Uuid>)
    requires CommittedBetween(base, states, steps, a, b, i)
    ensures
      var s, t := states[a], states[a].log[i].txn;
      var d := s.table[t].dest;
      Nested(s.table) && Chain(s.table, d) == outer + [d] && Chain(s.table, t) == outer + [d] + [t] &&
      Distinct(outer + [d] + [t]) && CopiedInto(s.log, states[b].log, t, d, outer, s.log[i].entity) &&
        Unique(states[b].log, s.log[i].entity)
  {
    hide Chain, Inv, Next, Copied, EventsOf;
    var s, s' := states[a], states[b];
    var t, e := s.log[i].txn, s.log[i].entity;
    RunKeeps(base, states, steps, a);
    RunKeeps(base, states, steps, b);
    InvIsNested(base, s);
    HeldThroughCommit(base, states, steps, a, b, i);
    CommittedIsCopied(base, s', i);
    outer := ChainOfChild(s.table, t);
    OnlyEventOf(base, s, t, i);
    LogGrows(base, states, steps, a, b);
    CommitCopies(s.log, s'.log, t, s.table[t].dest, outer, e, i);
    InvIsUnique(base, s', e);
  }

  lemma {:induction false} InvIsNested(base: Base, s: State)
    requires Inv(base, s)
    ensures Nested(s.table)
  {
  }

  /**
    When a commit is invisible. Whatever happens while t commits, replaying t's view of e before and the
    view of its destination afterwards gives the same entries exactly if what the ancestors of the
    destination gained of e meanwhile is hidden; and then the same instance, or the same tombstone.
   */
  lemma {:induction false} CommitIsInvisible<S>(base: Base, states: seq<State>, steps: seq<Step>, a: nat, b: nat, i: nat,
                                                create: Content -> S, apply: (S, Content) -> S,
                                                before: seq<EventEntry>, after: seq<EventEntry>) returns (outer: seq<Uuid>)
    requires CommittedBetween(base, states, steps, a, b, i)
    requires IsOverlay(states[a].log, states[a].log[i].entity, ChainOf(states[a].table, states[a].log[i].txn), before)
    requires IsOverlay(states[b].log, states[a].log[i].entity, ChainOf(states[a].table, states[a].table[states[a].log[i].txn].dest), after)
    ensures
      var s, d := states[a], states[a].table[states[a].log[i].txn].dest;
      ChainOf(s.table, d) == outer + [d] &&
      (SameContents(before, after) <==> GainsHidden(s.log, states[b].log, d, outer, s.log[i].entity, before)) &&
      (GainsHidden(s.log, states[b].log, d, outer, s.log[i].entity, before) ==> Replay(create, apply, before) == Replay(create, apply,
          after))
  {
    hide IsOverlay, Chain, Replay, Run, CopiedInto, Unique, GainsHidden;
    var s := states[a];
    var t := s.log[i].txn;
    outer := CommittedIsCopiedInto(base, states, steps, a, b, i);
    ViewsAgreeExactly(s.log, states[b].log, t, s.table[t].dest, outer, s.log[i].entity, before, after);
    if SameContents(before, after) { ReplaySame(create, apply, before, after); }
  }

  /** A top-level commit is invisible, whatever else happens. */
  lemma {:induction false} TopLevelCommitIsInvisible<S>(base: Base, states: seq<State>, steps: seq<Step>, a: nat, b: nat, i: nat,
                                                        create: Content -> S, apply: (S, Content) -> S,
                                                        before: seq<EventEntry>, after: seq<EventEntry>)
    requires CommittedBetween(base, states, steps, a, b, i) && states[a].table[states[a].log[i].txn].dest == NULL_UUID
    requires IsOverlay(states[a].log, states[a].log[i].entity, [NULL_UUID, states[a].log[i].txn], before)
    requires IsOverlay(states[b].log, states[a].log[i].entity, [NULL_UUID], after)
    ensures SameContents(before, after) && Replay(create, apply, before) == Replay(create, apply, after)
  {
    hide IsOverlay, Replay, Run, CopiedInto, Unique;
    var s := states[a];
    var t := s.log[i].txn;
    var outer := CommittedIsCopiedInto(base, states, steps, a, b, i);
    assert outer == [] by { assert Chain(s.table, NULL_UUID) == [NULL_UUID]; }
    assert outer + [NULL_UUID] == [NULL_UUID] && outer + [NULL_UUID] + [t] == [NULL_UUID, t];
    ViewsAgreeExactly(s.log, states[b].log, t, NULL_UUID, outer, s.log[i].entity, before, after);
    ReplaySame(create, apply, before, after);
  }

  /**
    Once a transaction is COMMITTED, a reader inside it and a reader of its destination find the same in
    one and the same log, at every depth and for every entity.
   */
  lemma {:induction false} CommittedViewIsDestinations<S>(base: Base, s: State, t: Uuid, e: Uuid, create: Content -> S,
                                                          apply: (S, Content) -> S,
                                                          inside: seq<EventEntry>, outside: seq<EventEntry>)
    requires Inv(base, s) && HasStatus(s.table, t, {Committed})
    requires IsOverlay(s.log, e, ChainOf(s.table, t), inside) && IsOverlay(s.log, e, ChainOf(s.table, s.table[t].dest), outside)
    ensures SameContents(inside, outside) && Replay(create, apply, inside) == Replay(create, apply, outside)
  {
    hide IsOverlay, Chain, Replay, Unique, Contiguous, CountersExact, EventsAnchored, AllReady, Exclusive, RunningExact, SourcesExact;
    InvIsNested(base, s);
    var outer := ChainOfChild(s.table, t);
    CommittedIsCopiedWithin(base, s, t, e, outer);
    InvIsUnique(base, s, e);
    ViewsAgreeExactly(s.log, s.log, t, s.table[t].dest, outer, e, inside, outside);
    ReplaySame(create, apply, inside, outside);
  }

  lemma {:induction false} CommittedIsCopiedWithin(base: Base, s: State, t: Uuid, e: Uuid, outer: seq<Uuid>)
    requires Inv(base, s) && HasStatus(s.table, t, {Committed})
    ensures CopiedInto(s.log, s.log, t, s.table[t].dest, outer, e)
  {
    hide Contiguous, CountersExact, EventsAnchored, AllReady, Exclusive, RunningExact;
    forall x | x in s.log && x.entity == e && x.txn == t ensures x.(txn := s.table[t].dest) in s.log {
      var i :| 0 <= i < |s.log| && s.log[i] == x;
      assert Copied(s, i);
      var j :| 0 <= j < |s.source| && s.source[j] == i;
      assert s.log[j] == x.(txn := s.table[t].dest);
    }
  }

  lemma {:induction false} CommittedIsCopied(base: Base, s: State, i: nat)
    requires Inv(base, s) && i < |s.log| && HasStatus(s.table, s.log[i].txn, {Committed})
    ensures Copied(s, i)
  {
  }

  lemma {:induction false} InvIsUnique(base: Base, s: State, e: Uuid)
    requires Inv(base, s)
    ensures Unique(s.log, e)
  {
    ContiguousIsUnique(base, s.log, e);
  }

  lemma {:induction false} OnlyEventOf(base: Base, s: State, t: Uuid, i: nat)
    requires Inv(base, s) && Active(s.table, t) && i < |s.log| && s.log[i].txn == t
    ensures forall x :: x in s.log && x.txn == t && x.entity == s.log[i].entity ==> x == s.log[i]
  {
  }

  lemma {:induction false} CommitCopies(log: Log, log': Log, t: Uuid, d: Uuid, outer: seq<Uuid>, e: Uuid, i: nat)
    requires i < |log| && log[i].txn == t && log[i].entity == e && log <= log'
    requires forall x :: x in log && x.txn == t && x.entity == e ==> x == log[i]
    requires EventsOf(log', d, e) == EventsOf(log, d, e) + [log[i].(txn := d)]
    ensures CopiedInto(log, log', t, d, outer, e)
  {
    assert log[i].(txn := d) in EventsOf(log', d, e);
    forall x | x in log' && x.entity == e && x.txn == d ensures x in log || x.(txn := t) in log {
      assert x in EventsOf(log', d, e);
      if x !in EventsOf(log, d, e) { assert x == log[i].(txn := d) && x.(txn := t) == log[i]; }
    }
  }

  // ---------------------------------------------------------------- a commit that is seen

  lemma {:induction false} RunGrows(base: Base, states: seq<State>, steps: seq<Step>, step: Step)
    returns (states': seq<State>, steps': seq<Step>)
    requires Run(base, states, steps) && Permitted(base, states[|steps|], step)
    ensures Run(base, states', steps') && steps' == steps + [step] && states' == states + [Apply(states[|steps|], step)]
  {
    hide Permitted, Apply;
    states', steps' := states + [Apply(states[|steps|], step)], steps + [step];
    forall k | 0 <= k < |steps'| ensures Next(base, states'[k], steps'[k], states'[k + 1]) {
      if k < |steps| { assert Next(base, states[k], steps[k], states[k + 1]); }
    }
  }

  function Nothing(): Base { (t, e) => 0 }

  /** Transaction 2 on top of 1 has written an entity that nobody else has, and is reserved. */
  lemma {:induction false} NestedReserved(x: EventEntry) returns (states: seq<State>, steps: seq<Step>)
    requires x.txn == 2 && x.version == 1
    ensures Run(Nothing(), states, steps) && |states| == 5
    ensures states[4] == State([x], [-1], map[1 := Txn(Pending, 0, 0), 2 := Txn(Reserved, 1, 2)], map[(x.entity, 2) := 1], None)
  {
    states, steps := [EmptyState], [];
    states, steps := RunGrows(Nothing(), states, steps, Begin(1, 0));
    states, steps := RunGrows(Nothing(), states, steps, Begin(2, 1));
    var open := State([], [], map[1 := Txn(Pending, 0, 0), 2 := Txn(Pending, 1, 0)], map[], None);
    assert states[2] == open;
    assert Permitted(Nothing(), open, Write(x, Some(1)));
    states, steps := RunGrows(Nothing(), states, steps, Write(x, Some(1)));
    var written := open.(log := [x], source := [-1], counters := map[(x.entity, 2) := 1]);
    assert states[3] == written by { assert [] + [x.(version := 1)] == [x]; }
    assert Committable(written, 2);
    states, steps := RunGrows(Nothing(), states, steps, Reserve(2));
  }

  /** Then the entity is written twice outside all transactions, and transaction 2 commits. */
  lemma {:induction false} NestedCommitted(x: EventEntry, y: EventEntry) returns (states: seq<State>, steps: seq<Step>)
    requires x.txn == 2 && x.version == 1 && y.txn == NULL_UUID && y.entity == x.entity
    ensures Run(Nothing(), states, steps) && |states| == 10
    ensures states[4].log == [x] && states[4].table == map[1 := Txn(Pending, 0, 0), 2 := Txn(Reserved, 1, 2)]
    ensures forall j :: 4 <= j < 9 ==> Active(states[j].table, 2)
    ensures states[9].log == [x, y.(version := 1), y.(version := 2), x.(txn := 1)] && HasStatus(states[9].table, 2, {Committed})
  {
    hide Apply;
    states, steps := NestedReserved(x);
    var s := states[4];
    var e := x.entity;
    states, steps := RunGrows(Nothing(), states, steps, Write(y, None));
    DirectWrite(s, y, [x], 0);
    states, steps := RunGrows(Nothing(), states, steps, Write(y, None));
    DirectWrite(states[5], y, [x, y.(version := 1)], 1);
    states, steps := RunGrows(Nothing(), states, steps, BeginCommit(2));
    states, steps := RunGrows(Nothing(), states, steps, CopyNext);
    states, steps := RunGrows(Nothing(), states, steps, EndCommit);
    CommitOfTwo(states[6], x, [x, y.(version := 1), y.(version := 2)]);
  }

  lemma {:induction false} DirectWrite(s: State, y: EventEntry, log: Log, count: nat)
    requires y.txn == NULL_UUID && s.log == log && s.table == map[1 := Txn(Pending, 0, 0), 2 := Txn(Reserved, 1, 2)]
    requires s.running.None? && Counter(s, NULL_UUID, y.entity) == count
    ensures
      var s' := Apply(s, Write(y, None));
      s'.log == log + [y.(version := count + 1)] && s'.table == s.table && s'.running.None? &&
      Counter(s', NULL_UUID, y.entity) == count + 1 && Counter(s', 1, y.entity) == Counter(s, 1, y.entity)
  {
    assert Submittable(s, y, None);
  }

  lemma {:induction false} CommitOfTwo(s: State, x: EventEntry, log: Log)
    requires s.log == log && |log| == 3 && log[0] == x && x.txn == 2 && x.version == 1 && log[1].txn == log[2].txn == NULL_UUID
    requires s.table == map[1 := Txn(Pending, 0, 0), 2 := Txn(Reserved, 1, 2)] && s.running.None? && Counter(s, 1, x.entity) == 0
    ensures
      var begun := Apply(s, BeginCommit(2));
      var copied := Apply(begun, CopyNext);
      var ended := Apply(copied, EndCommit);
      Active(begun.table, 2) && Active(copied.table, 2) && ended.log == log + [x.(txn := 1)] && HasStatus(ended.table, 2, {Committed})
  {
    var begun := Apply(s, BeginCommit(2));
    assert log == [] + [log[0]] + [log[1]] + [log[2]];
    PositionsAppend([], log[0], 2);
    PositionsAppend([] + [log[0]], log[1], 2);
    PositionsAppend([] + [log[0]] + [log[1]], log[2], 2);
    assert Positions(log, 2) == [0];
    assert Submittable(begun, x.(txn := 1), Some(2));
    PositionsAppend(log, x.(txn := 1), 2);
    hide Submittable, Committable;
  }

  /** The premise on the ancestors cannot be dropped: here the destination shows one version more than the transaction saw. */
  lemma {:induction false} OuterWritesAreSeen(x: EventEntry, y: EventEntry)
    returns (states: seq<State>, steps: seq<Step>, before: seq<EventEntry>, after: seq<EventEntry>)
    requires x.txn == 2 && x.version == 1 && y.txn == NULL_UUID && y.entity == x.entity
    ensures CommittedBetween(Nothing(), states, steps, 4, 9, 0)
    ensures IsOverlay(states[4].log, x.entity, ChainOf(states[4].table, 2), before)
    ensures IsOverlay(states[9].log, x.entity, ChainOf(states[4].table, 1), after)
    ensures |before| == 1 && |after| == 2 && !SameContents(before, after)
  {
    hide Run, IsOverlay, ChainOf;
    states, steps := NestedCommitted(x, y);
    before, after := [x], [x.(txn := 1), y.(version := 2)];
    ChainsOfTwo(states[4].table);
    InnerView(x);
    OuterView(x, y);
  }

  lemma {:induction false} ChainsOfTwo(table: Table)
    requires table == map[1 := Txn(Pending, 0, 0), 2 := Txn(Reserved, 1, 2)]
    ensures ChainOf(table, 1) == [0, 1] && ChainOf(table, 2) == [0, 1, 2]
  {
    assert Nested(table);
    assert Chain(table, 0) == [0];
  }

  lemma {:induction false} InnerView(x: EventEntry)
    requires x.txn == 2
    ensures IsOverlay([x], x.entity, [0, 1, 2], [x])
  {
    assert SpokenFor(x, [0, 1, 2], [x]) by { assert [x][0] == x; }
  }

  lemma {:induction false} OuterView(x: EventEntry, y: EventEntry)
    requires x.txn == 2 && x.version == 1 && y.txn == NULL_UUID && y.entity == x.entity
    ensures IsOverlay([x, y.(version := 1), y.(version := 2), x.(txn := 1)], x.entity, [0, 1], [x.(txn := 1), y.(version := 2)])
  {
    var log, after := [x, y.(version := 1), y.(version := 2), x.(txn := 1)], [x.(txn := 1), y.(version := 2)];
    assert log[2] == after[1] && log[3] == after[0];
    assert Index([0, 1], 0) == 0 && Index([0, 1], 1) == 1;
    forall z | z in log && Seen(z, x.entity, [0, 1]) ensures SpokenFor(z, [0, 1], after) {
      assert z == log[1] || z == log[2] || z == log[3];
      if z == log[2] { assert after[1].version == z.version; } else { assert after[0].version == z.version; }
    }
  }
}
