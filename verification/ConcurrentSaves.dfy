/**
  Saves that overlap. A save reads what is stored, computes its difference and submits it later, and
  nothing compares versions in between; other saves of the entity may be stored meanwhile.
 */
module ConcurrentSaves {
  import opened Wrappers
  import opened FieldDiffs
  import opened EventSourcing

  /** A save that has read what is stored; `base` is history: what it read. */
  datatype Saving = Saving(fields: Fields, base: Fields, diffs: seq<FieldDiff>)

  /** `expected` is history: what was saved last, in the order of the submissions. */
  datatype Store = Store(events: seq<Event>, savings: map<nat, Saving>, expected: Expected)

  datatype Step =
    | Create(fields: Fields, diffs: seq<FieldDiff>)
    | ReadStored(id: nat, fields: Fields, diffs: seq<FieldDiff>)
    | Submit(id: nat)
    | Remove

  ghost predicate Enabled(class_: Fields, s: Store, step: Step) {
    match step
    case Create(fields, diffs) => s.events == [] && OfClass(class_, fields) && IsListing(diffs, fields)
    case ReadStored(id, fields, diffs) =>
      s.events != [] && id !in s.savings && OfClass(class_, fields) &&
      (Rebuild(s.events).Alive? ==>
         SameShape(fields, Rebuild(s.events).instance.fields) && IsDiff(diffs, fields, Rebuild(s.events).instance.fields))
    case Submit(id) => id in s.savings
    case Remove => s.events != []
  }

  /** A save that finds nothing to read raises, and one that finds no difference is done. */
  function Apply(s: Store, step: Step): Store {
    match step
    case Create(fields, diffs) => s.(events := [Event(Action.Create, 1, diffs)], expected := Values(fields))
    case ReadStored(id, fields, diffs) =>
      if !Rebuild(s.events).Alive? then s
      else if diffs == [] then s.(expected := Values(fields))
      else s.(savings := s.savings[id := Saving(fields, Rebuild(s.events).instance.fields, diffs)])
    case Submit(id) =>
      if id !in s.savings then s
      else Store(s.events + [Event(Update, |s.events| + 1, s.savings[id].diffs)], s.savings - {id}, Values(s.savings[id].fields))
    case Remove => s.(events := s.events + [Event(Delete, |s.events| + 1, [])], expected := Removed)
  }

  ghost predicate Run(class_: Fields, states: seq<Store>, steps: seq<Step>) {
    |states| == |steps| + 1 && states[0] == Store([], map[], Nothing) &&
    forall k :: 0 <= k < |steps| ==> Enabled(class_, states[k], steps[k]) && states[k + 1] == Apply(states[k], steps[k])
  }

  // ---------------------------------------------------------------- a difference applied to something else

  /** Where the difference says nothing, what it is applied to already has the saved value. */
  ghost predicate AgreesWhereSilent(diffs: seq<FieldDiff>, fields: Fields, now: Fields)
    requires SameShape(fields, now)
  {
    forall name :: name in fields ==> FieldAgrees(Named(diffs, name), fields[name], now[name])
  }

  ghost predicate FieldAgrees(group: seq<FieldDiff>, saved: Value, now: Value) {
    if saved.Plain? then group == [] ==> now == saved
    else forall item :: !Mentions(Entries(group), saved, item) ==> Look(now, item) == Look(saved, item)
  }

  lemma {:induction false} FieldIsExact(group: seq<FieldDiff>, name: string, saved: Value, base: Value, now: Value)
    requires SameKind(saved, base) && SameKind(saved, now) && TellsField(group, name, saved, base)
    requires Keyed(saved) && Keyed(now)
    ensures var c := CellRun(Has(now), group);
            c.Has? && SameKind(c.value, saved) && Keyed(c.value) && (c == Has(saved) <==> FieldAgrees(group, saved, now))
  {
    if saved.Plain? {
      assert [Assign(name, saved)][1..] == [];
    } else {
      assert AllIncrements(group) && AllTell(Entries(group), saved, base);
      IncrementsRun(now, group);
      SetIsExact(Entries(group), saved, base, now);
      AppliedKeyed(now, Entries(group));
    }
  }

  lemma {:induction false} SetIsExact(entries: seq<Entry>, saved: Value, base: Value, now: Value)
    requires SameKind(saved, now) && !saved.Plain? && AllTell(entries, saved, base)
    ensures SameKind(AllApplied(now, entries), saved)
    ensures AllApplied(now, entries) == saved <==> forall item :: !Mentions(entries, saved, item) ==> Look(now, item) == Look(saved, item)
  {
    AllAppliedLooks(now, entries, saved, base, Item(0, 0));
    forall item: Item
      ensures Look(AllApplied(now, entries), item) == if Mentions(entries, saved, item) then Look(saved, item) else Look(now, item)
    {
      AllAppliedLooks(now, entries, saved, base, item);
    }
    hide Mentions, Look, AllApplied;
    if forall item :: !Mentions(entries, saved, item) ==> Look(now, item) == Look(saved, item) {
      SameLooks(AllApplied(now, entries), saved);
    }
  }

  lemma {:induction false} AppliedKeyed(v: Value, entries: seq<Entry>)
    requires Keyed(v)
    ensures Keyed(AllApplied(v, entries))
    decreases |entries|
  {
    if entries != [] { AppliedKeyed(Applied(v, entries[0]), entries[1..]); }
  }

  /** Applied to whatever is stored now, a difference gives the saved values exactly if it agrees where it is silent. */
  lemma {:induction false} DiffIsExactNow(diffs: seq<FieldDiff>, fields: Fields, base: Fields, now: Fields)
    requires SameShape(fields, base) && SameShape(fields, now) && IsDiff(diffs, fields, base) && AllKeyed(fields) && AllKeyed(now)
    ensures var r := ApplyAll(now, Flattened(diffs));
            r.Some? && SameShape(fields, r.value) && AllKeyed(r.value) && (r == Some(fields) <==> AgreesWhereSilent(diffs, fields, now))
  {
    hide FieldAgrees, TellsField, CellRun, Named, Keyed, SameKind;
    FlattenedApplies(now, diffs);
    Projection(now, diffs);
    forall name | name in fields
      ensures var c := CellRun(Has(now[name]), Named(diffs, name));
              c.Has? && SameKind(c.value, fields[name]) && Keyed(c.value) &&
              (c == Has(fields[name]) <==> FieldAgrees(Named(diffs, name), fields[name], now[name]))
    {
      assert TellsField(Named(diffs, name), name, fields[name], base[name]);
      FieldIsExact(Named(diffs, name), name, fields[name], base[name], now[name]);
    }
    forall name | name !in fields ensures CellRun(At(now, name), Named(diffs, name)) == Absent {
      assert Named(diffs, name) == [];
      NothingRuns(At(now, name));
    }
    assert ApplyAll(now, diffs).Some?;
    CellsDecide(diffs, fields, now, ApplyAll(now, diffs).value);
  }

  lemma {:induction false} NothingRuns(c: Cell)
    ensures CellRun(c, []) == c
  {
  }

  lemma {:induction false} CellsDecide(diffs: seq<FieldDiff>, fields: Fields, now: Fields, r: Fields)
    requires SameShape(fields, now)
    requires forall name :: At(r, name) == CellRun(At(now, name), Named(diffs, name))
    requires forall name :: name !in fields ==> CellRun(At(now, name), Named(diffs, name)) == Absent
    requires forall name :: name in fields ==>
               var c := CellRun(Has(now[name]), Named(diffs, name));
               c.Has? && SameKind(c.value, fields[name]) && Keyed(c.value) &&
               (c == Has(fields[name]) <==> FieldAgrees(Named(diffs, name), fields[name], now[name]))
    ensures SameShape(fields, r) && AllKeyed(r) && (r == fields <==> AgreesWhereSilent(diffs, fields, now))
  {
    hide FieldAgrees, CellRun, Named, Keyed, SameKind;
    forall name
      ensures (name in r <==> name in fields) && (name in fields ==> Has(r[name]) == CellRun(Has(now[name]), Named(diffs, name)))
    {
      assert At(r, name) == CellRun(At(now, name), Named(diffs, name));
    }
    KindsTurn(fields, r);
    if AgreesWhereSilent(diffs, fields, now) {
      forall name ensures At(r, name) == At(fields, name) {
        if name in fields { assert FieldAgrees(Named(diffs, name), fields[name], now[name]); }
      }
      SameCells(r, fields);
    }
  }

  lemma {:induction false} KindsTurn(a: Fields, b: Fields)
    requires (forall name :: name in b <==> name in a) && forall name :: name in a ==> SameKind(b[name], a[name])
    ensures SameShape(a, b)
  {
    assert a.Keys == b.Keys;
  }

  // ---------------------------------------------------------------- every run

  /** All events applied, whether or not the last one deletes. */
  function Folded(events: seq<Event>): Option<Instance> {
    if events == [] then None
    else
      var first := FromDiff(events[0]);
      if first.None? then None else ApplyEvents(first.value, events[1..])
  }

  ghost predicate SavingFits(class_: Fields, saving: Saving) {
    OfClass(class_, saving.fields) && SameShape(saving.fields, saving.base) && IsDiff(saving.diffs, saving.fields, saving.base)
  }

  ghost predicate Inv(class_: Fields, s: Store) {
    Numbered(s.events) && (s.events == [] <==> s.expected.Nothing?) && (s.events == [] ==> s.savings == map[]) &&
    (s.events != [] ==>
       var x := Folded(s.events); x.Some? && OfClass(class_, x.value.fields) && x.value.version == |s.events|) &&
    forall id :: id in s.savings ==> SavingFits(class_, s.savings[id])
  }

  /** A reader finds what was saved last. */
  ghost predicate Shows(s: Store) {
    match s.expected
    case Nothing => s.events == []
    case Removed => Rebuild(s.events) == Gone
    case Values(fields) => Rebuild(s.events) == Alive(Instance(fields, |s.events|))
  }

  /** A submission agrees with what is stored by then wherever its difference is silent. */
  ghost predicate Agreeable(class_: Fields, s: Store, step: Step)
    requires Inv(class_, s)
  {
    step.Submit? && step.id in s.savings ==>
      SameShape(s.savings[step.id].fields, Folded(s.events).value.fields) &&
      AgreesWhereSilent(s.savings[step.id].diffs, s.savings[step.id].fields, Folded(s.events).value.fields)
  }

  lemma {:induction false} RebuildFolds(events: seq<Event>)
    requires events != [] && Folded(events).Some?
    ensures Rebuild(events) == if events[|events| - 1].action == Delete then Gone else Alive(Folded(events).value)
  {
  }

  lemma {:induction false} FoldMore(events: seq<Event>, e: Event)
    requires events != [] && Folded(events).Some?
    ensures Folded(events + [e]) == ApplyEvent(Folded(events).value, e)
  {
    hide FromDiff, ApplyEvent;
    var first := FromDiff(events[0]).value;
    assert (events + [e])[1..] == events[1..] + [e] && (events + [e])[0] == events[0];
    ApplyEventsAppend(first, events[1..], [e]);
    OneEvent(Folded(events).value, e);
  }

  lemma {:induction false} SameClass(class_: Fields, a: Fields, b: Fields)
    requires OfClass(class_, a) && OfClass(class_, b)
    ensures SameShape(a, b)
  {
  }

  lemma {:induction false} ClassFollows(class_: Fields, a: Fields, b: Fields)
    requires OfClass(class_, a) && SameShape(a, b) && AllKeyed(b)
    ensures OfClass(class_, b)
  {
  }

  /** A submission shows its values exactly if it is agreeable, and the store stays sound in any case. */
  lemma {:induction false} SubmitIsExact(class_: Fields, s: Store, id: nat)
    requires Inv(class_, s) && id in s.savings
    ensures var s' := Apply(s, Submit(id)); Inv(class_, s') && (Shows(s') <==> Agreeable(class_, s, Submit(id)))
  {
    hide OfClass, SameShape, IsDiff, AgreesWhereSilent, ApplyAll, Flattened, Folded, Rebuild, AllKeyed;
    var saving, now := s.savings[id], Folded(s.events).value;
    var e := Event(Update, |s.events| + 1, saving.diffs);
    assert SavingFits(class_, saving);
    SameClass(class_, saving.fields, now.fields);
    ClassIsKeyed(class_, saving.fields);
    ClassIsKeyed(class_, now.fields);
    DiffIsExactNow(saving.diffs, saving.fields, saving.base, now.fields);
    FoldMore(s.events, e);
    RebuildFolds(s.events + [e]);
    ClassFollows(class_, saving.fields, ApplyAll(now.fields, Flattened(saving.diffs)).value);
  }

  lemma {:induction false} ClassIsKeyed(class_: Fields, fields: Fields)
    requires OfClass(class_, fields)
    ensures AllKeyed(fields)
  {
  }

  lemma {:induction false} OthersShow(class_: Fields, s: Store, step: Step)
    requires Inv(class_, s) && Enabled(class_, s, step) && !step.Submit?
    ensures Inv(class_, Apply(s, step)) && (Shows(s) ==> Shows(Apply(s, step)))
  {
    hide OfClass, SameShape, IsDiff, IsListing, ApplyAll, Flattened, ApplyEvents, FromDiff;
    match step {
      case Create(fields, diffs) =>
        CreateFolds(fields, diffs);
      case ReadStored(id, fields, diffs) =>
        RebuildFolds(s.events);
        if Rebuild(s.events).Alive? { DiffIsExact(diffs, fields, Rebuild(s.events).instance.fields); }
      case Remove =>
        RemoveFolds(class_, s.events);
    }
  }

  lemma {:induction false} CreateFolds(fields: Fields, diffs: seq<FieldDiff>)
    requires IsListing(diffs, fields)
    ensures var events := [Event(Action.Create, 1, diffs)];
            Folded(events) == Some(Instance(fields, 1)) && Rebuild(events) == Alive(Instance(fields, 1))
  {
    hide IsListing, ApplyAll, Flattened;
    ListingApplies(diffs, fields);
    assert [Event(Action.Create, 1, diffs)][1..] == [];
  }

  lemma {:induction false} RemoveFolds(class_: Fields, events: seq<Event>)
    requires events != [] && Folded(events).Some?
    ensures var e := Event(Delete, |events| + 1, []);
            Folded(events + [e]) == Some(Instance(Folded(events).value.fields, |events| + 1)) && Rebuild(events + [e]) == Gone
  {
    hide Folded, FromDiff, ApplyEvents;
    FoldMore(events, Event(Delete, |events| + 1, []));
    FlattenedApplies(Folded(events).value.fields, []);
  }

  lemma {:induction false} RunKeeps(class_: Fields, states: seq<Store>, steps: seq<Step>, k: nat)
    requires Run(class_, states, steps) && k < |states|
    ensures Inv(class_, states[k])
  {
    if k > 0 {
      RunKeeps(class_, states, steps, k - 1);
      hide Inv, Enabled, Apply;
      if steps[k - 1].Submit? {
        SubmitEnabled(class_, states[k - 1], steps[k - 1].id);
        SubmitIsExact(class_, states[k - 1], steps[k - 1].id);
      } else {
        OthersShow(class_, states[k - 1], steps[k - 1]);
      }
    }
  }

  lemma {:induction false} SubmitEnabled(class_: Fields, s: Store, id: nat)
    requires Enabled(class_, s, Submit(id))
    ensures id in s.savings
  {
  }

  /** One step keeps what a reader finds exactly if it is agreeable. */
  lemma {:induction false} StepIsExact(class_: Fields, s: Store, step: Step)
    requires Inv(class_, s) && Enabled(class_, s, step) && Shows(s)
    ensures Shows(Apply(s, step)) <==> Agreeable(class_, s, step)
  {
    hide Inv, Agreeable, Enabled, Apply, Shows;
    if step.Submit? {
      SubmitEnabled(class_, s, step.id);
      SubmitIsExact(class_, s, step.id);
      assert step == Submit(step.id);
    } else {
      OthersShow(class_, s, step);
      OnlySubmissionsDisagree(class_, s, step);
    }
  }

  /**
    Overlapping saves, exactly: at every point of a run a reader finds what was saved last if and only if
    every submission agrees with what is stored by then wherever its difference is silent.
   */
  lemma {:induction false} OverlappingSavesAreExact(class_: Fields, states: seq<Store>, steps: seq<Step>, k: nat)
    requires Run(class_, states, steps) && k < |states|
    ensures (forall j :: 0 <= j <= k ==> Shows(states[j])) <==>
            (forall j :: 0 <= j < k ==> Inv(class_, states[j]) && Agreeable(class_, states[j], steps[j]))
    decreases k
  {
    hide Inv, Agreeable, Enabled, Apply;
    if k == 0 {
      assert Shows(states[0]);
    } else {
      hide Shows;
      OverlappingSavesAreExact(class_, states, steps, k - 1);
      RunKeeps(class_, states, steps, k - 1);
      var s, step := states[k - 1], steps[k - 1];
      assert Enabled(class_, s, step) && states[k] == Apply(s, step);
      if Shows(s) { StepIsExact(class_, s, step); }
    }
  }

  lemma {:induction false} OnlySubmissionsDisagree(class_: Fields, s: Store, step: Step)
    requires Inv(class_, s) && !step.Submit?
    ensures Agreeable(class_, s, step)
  {
  }

  /** If what was read is still what is stored, the submission agrees. */
  lemma {:induction false} UndisturbedAgrees(class_: Fields, s: Store, id: nat)
    requires Inv(class_, s) && id in s.savings && Folded(s.events).value.fields == s.savings[id].base
    ensures Agreeable(class_, s, Submit(id))
  {
    hide OfClass, SameShape, IsDiff, AgreesWhereSilent, ApplyAll, Flattened, Folded, AllKeyed;
    var saving := s.savings[id];
    assert SavingFits(class_, saving);
    SameClass(class_, saving.fields, saving.base);
    ClassIsKeyed(class_, saving.fields);
    ClassIsKeyed(class_, saving.base);
    DiffApplies(saving.diffs, saving.fields, saving.base);
    DiffIsExactNow(saving.diffs, saving.fields, saving.base, saving.base);
  }

  // ---------------------------------------------------------------- values that nobody saved

  lemma {:induction false} Grow(class_: Fields, states: seq<Store>, steps: seq<Step>, step: Step)
    returns (states': seq<Store>, steps': seq<Step>)
    requires Run(class_, states, steps) && Enabled(class_, states[|steps|], step)
    ensures Run(class_, states', steps') && states'[|steps'|] == Apply(states[|steps|], step)
  {
    hide Enabled, Apply;
    states', steps' := states + [Apply(states[|steps|], step)], steps + [step];
    forall k | 0 <= k < |steps'| ensures Enabled(class_, states'[k], steps'[k]) && states'[k + 1] == Apply(states'[k], steps'[k]) {
      if k < |steps| { assert Enabled(class_, states[k], steps[k]); }
    }
  }

  lemma {:induction false} OneChange(name: string, before: Fields, value: Value)
    requires name in before && before[name].Plain? && value.Plain? && before[name] != value
    ensures var after := before[name := value]; SameShape(after, before) && IsDiff([Assign(name, value)], after, before)
  {
    var diffs := [Assign(name, value)];
    assert diffs[1..] == [];
    forall other ensures Named(diffs, other) == if other == name then diffs else [] { assert Named([], other) == []; }
  }

  /** Two saves that read the same values and change one plain field each: the last one leaves a mixture. */
  lemma {:induction false} MixedSaves(x: string, y: string, start: Fields, listing: seq<FieldDiff>, a: Value, b: Value)
    returns (states: seq<Store>, steps: seq<Step>)
    requires x != y && x in start && y in start && start[x].Plain? && start[y].Plain? && a.Plain? && b.Plain? && a != start[x] &&
             b != start[y]
    requires AllKeyed(start) && IsListing(listing, start)
    ensures Run(start, states, steps)
    ensures var s := states[|steps|];
            s.expected == Values(start[y := b]) && Rebuild(s.events) == Alive(Instance(start[x := a][y := b], 3)) && !Shows(s)
  {
    hide IsListing, IsDiff, SameShape, Rebuild, Flattened, ApplyAll;
    OneChange(x, start, a);
    OneChange(y, start, b);
    ShapeOfSelf(start);
    ShapeKeeps(start, x, a);
    ShapeKeeps(start, y, b);
    CreateFolds(start, listing);
    states, steps := [Store([], map[], Nothing)], [];
    states, steps := Grow(start, states, steps, Step.Create(start, listing));
    states, steps := Grow(start, states, steps, ReadStored(0, start[x := a], [Assign(x, a)]));
    states, steps := Grow(start, states, steps, ReadStored(1, start[y := b], [Assign(y, b)]));
    states, steps := Grow(start, states, steps, Submit(0));
    states, steps := Grow(start, states, steps, Submit(1));
    var first := Event(Action.Create, 1, listing);
    var one, two := Event(Update, 2, [Assign(x, a)]), Event(Update, 3, [Assign(y, b)]);
    assert states[|steps|].events == [first] + [one] + [two];
    FoldAssign([first], start, x, a, 2);
    FoldAssign([first] + [one], start[x := a], y, b, 3);
    RebuildFolds([first] + [one] + [two]);
    assert start[x := a][y := b] != start[y := b] by { assert start[x := a][y := b][x] == a; }
  }

  lemma {:induction false} ShapeOfSelf(fields: Fields)
    requires AllKeyed(fields)
    ensures OfClass(fields, fields)
  {
  }

  lemma {:induction false} ShapeKeeps(fields: Fields, name: string, value: Value)
    requires AllKeyed(fields) && name in fields && fields[name].Plain? && value.Plain?
    ensures OfClass(fields, fields[name := value])
  {
  }

  lemma {:induction false} FoldAssign(events: seq<Event>, fields: Fields, name: string, value: Value, version: nat)
    requires events != [] && Folded(events).Some? && Folded(events).value.fields == fields
    ensures Folded(events + [Event(Update, version, [Assign(name, value)])]) == Some(Instance(fields[name := value], version))
  {
    hide Folded;
    FoldMore(events, Event(Update, version, [Assign(name, value)]));
    FlattenedApplies(fields, [Assign(name, value)]);
    assert [Assign(name, value)][1..] == [];
  }
}
