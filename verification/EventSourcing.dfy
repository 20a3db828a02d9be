/**
  Entities stored as events: every save stores the difference to what the stored events say, and
  replaying the events gives what was saved last.
 */
module EventSourcing {
  import opened Wrappers
  import opened FieldDiffs

  /** Two instances of one class: the same fields, of the same kinds. */
  predicate SameShape(a: Fields, b: Fields) {
    a.Keys == b.Keys && forall name :: name in a ==> SameKind(a[name], b[name])
  }

  predicate AllKeyed(fields: Fields) {
    forall name :: name in fields ==> Keyed(fields[name])
  }

  // ---------------------------------------------------------------- the difference of two instances

  function Entries(group: seq<FieldDiff>): seq<Entry>
    decreases |group|
  {
    if group == [] then []
    else if group[0].Assign? then Entries(group[1..])
    else [Entry(group[0].action, group[0].item)] + Entries(group[1..])
  }

  predicate AllIncrements(group: seq<FieldDiff>) {
    forall i :: 0 <= i < |group| ==> group[i].Increment?
  }

  /** The differences of one field: none if it is the same, a new plain value, or the difference of two sets. */
  ghost predicate TellsField(group: seq<FieldDiff>, name: string, after: Value, before: Value) {
    if after == before then group == []
    else if after.Plain? then group == [Assign(name, after)]
    else AllIncrements(group) && IsSetDiff(Entries(group), after, before)
  }

  /** Each field's differences, and no others. */
  ghost predicate IsDiff(diffs: seq<FieldDiff>, after: Fields, before: Fields)
    requires SameShape(after, before)
  {
    forall name :: if name in after then TellsField(Named(diffs, name), name, after[name], before[name]) else Named(diffs, name) == []
  }

  lemma {:induction false} IncrementsRun(v: Value, group: seq<FieldDiff>)
    requires !v.Plain? && AllIncrements(group)
    ensures CellRun(Has(v), group) == Has(AllApplied(v, Entries(group)))
    decreases |group|
  {
    if group != [] {
      var e := Entry(group[0].action, group[0].item);
      IncrementsRun(Applied(v, e), group[1..]);
      assert Entries(group)[1..] == Entries(group[1..]);
    }
  }

  lemma {:induction false} FieldApplies(group: seq<FieldDiff>, name: string, after: Value, before: Value)
    requires SameKind(after, before) && TellsField(group, name, after, before)
    ensures CellRun(Has(before), group) == Has(after)
  {
    if after != before {
      if after.Plain? {
        assert [Assign(name, after)][1..] == [];
      } else {
        IncrementsRun(before, group);
        SetDiffApplies(Entries(group), after, before);
      }
    }
  }

  /** Applied to the old instance, in the container's order or the list's, the difference gives the new one. */
  lemma {:induction false} DiffApplies(diffs: seq<FieldDiff>, after: Fields, before: Fields)
    requires SameShape(after, before) && IsDiff(diffs, after, before)
    ensures ApplyAll(before, diffs) == Some(after) && ApplyAll(before, Flattened(diffs)) == Some(after)
  {
    Projection(before, diffs);
    forall name ensures CellRun(At(before, name), Named(diffs, name)) == At(after, name) {
      if name in after { FieldApplies(Named(diffs, name), name, after[name], before[name]); }
    }
    assert ApplyAll(before, diffs).Some?;
    SameCells(ApplyAll(before, diffs).value, after);
    FlattenedApplies(before, diffs);
  }

  /** A difference is empty exactly if the instances are the same, and a container accepts it. */
  lemma {:induction false} DiffIsExact(diffs: seq<FieldDiff>, after: Fields, before: Fields)
    requires SameShape(after, before) && IsDiff(diffs, after, before)
    ensures diffs == [] <==> after == before
    ensures Consistent(diffs)
  {
    if diffs == [] { DiffApplies(diffs, after, before); }
    if diffs != [] {
      var k := NamedHas(diffs, 0);
      assert TellsField(Named(diffs, diffs[0].name), diffs[0].name, after[diffs[0].name], before[diffs[0].name]);
    }
    forall name ensures GroupFits(Named(diffs, name)) {
      if name in after { assert TellsField(Named(diffs, name), name, after[name], before[name]); }
    }
    GroupsFit(diffs);
  }

  /** `FieldDiffContainer._diff`: field by field, in the order of the class. */
  method Diff(names: seq<string>, after: Fields, before: Fields) returns (diffs: seq<FieldDiff>)
    requires SameShape(after, before) && AllKeyed(after) && AllKeyed(before) && Lists(names, after)
    ensures IsDiff(diffs, after, before)
  {
    diffs := [];
    for k := 0 to |names|
      invariant DoneUpTo(diffs, names, k, after, before)
    {
      var name := names[k];
      var group: seq<FieldDiff> := [];
      if after[name] != before[name] {
        if after[name].Plain? {
          group := [Assign(name, after[name])];
        } else {
          var entries := SetDiff(after[name], before[name]);
          group := Increments(name, entries);
          IncrementsEntries(name, entries);
        }
      }
      OneMoreField(diffs, names, k, after, before, group);
      diffs := diffs + group;
    }
  }

  ghost predicate Lists(names: seq<string>, fields: Fields) {
    (forall name :: name in names <==> name in fields) && forall i, j :: 0 <= i < j < |names| ==> names[i] != names[j]
  }

  ghost predicate DoneUpTo(diffs: seq<FieldDiff>, names: seq<string>, k: nat, after: Fields, before: Fields)
    requires SameShape(after, before) && Lists(names, after) && k <= |names|
  {
    (forall i :: 0 <= i < k ==> TellsField(Named(diffs, names[i]), names[i], after[names[i]], before[names[i]])) &&
    forall name :: name !in names[..k] ==> Named(diffs, name) == []
  }

  function Increments(name: string, entries: seq<Entry>): (r: seq<FieldDiff>)
    ensures |r| == |entries| && forall i :: 0 <= i < |r| ==> r[i] == Increment(name, entries[i].action, entries[i].item)
  {
    seq(|entries|, i requires 0 <= i < |entries| => Increment(name, entries[i].action, entries[i].item))
  }

  lemma {:induction false} IncrementsEntries(name: string, entries: seq<Entry>)
    ensures Entries(Increments(name, entries)) == entries
    decreases |entries|
  {
    if entries != [] {
      IncrementsEntries(name, entries[1..]);
      assert Increments(name, entries)[1..] == Increments(name, entries[1..]);
      assert entries == [entries[0]] + entries[1..];
    }
  }

  lemma {:induction false} OfOneName(group: seq<FieldDiff>, name: string, other: string)
    requires forall i :: 0 <= i < |group| ==> group[i].name == name
    ensures Named(group, other) == if other == name then group else []
    decreases |group|
  {
    if group != [] {
      OfOneName(group[1..], name, other);
      assert group == [group[0]] + group[1..];
    }
  }

  lemma {:induction false} OneMoreField(diffs: seq<FieldDiff>, names: seq<string>, k: nat, after: Fields, before: Fields,
                                        group: seq<FieldDiff>)
    requires SameShape(after, before) && Lists(names, after) && k < |names| && DoneUpTo(diffs, names, k, after, before)
    requires TellsField(group, names[k], after[names[k]], before[names[k]])
    requires forall i :: 0 <= i < |group| ==> group[i].name == names[k]
    ensures DoneUpTo(diffs + group, names, k + 1, after, before)
  {
    hide Named, TellsField;
    forall name ensures Named(diffs + group, name) == Named(diffs, name) + (if name == names[k] then group else []) {
      NamedAppend(diffs, group, name);
      OfOneName(group, names[k], name);
    }
    assert names[k] !in names[..k];
    assert forall name :: name in names[..k + 1] <==> name in names[..k] || name == names[k] by {
      assert names[..k + 1] == names[..k] + [names[k]];
    }
    forall i | 0 <= i < k + 1 ensures TellsField(Named(diffs + group, names[i]), names[i], after[names[i]], before[names[i]]) {
      if i < k {
        assert names[i] != names[k] && Named(diffs, names[i]) + [] == Named(diffs, names[i]);
      } else {
        assert [] + group == group;
      }
    }
  }

  // ---------------------------------------------------------------- a whole instance as differences

  /** Every field with its whole value. */
  ghost predicate IsListing(diffs: seq<FieldDiff>, fields: Fields) {
    forall name :: Named(diffs, name) == if name in fields then [Assign(name, fields[name])] else []
  }

  lemma {:induction false} ListingApplies(diffs: seq<FieldDiff>, fields: Fields)
    requires IsListing(diffs, fields)
    ensures ApplyAll(map[], diffs) == Some(fields) && ApplyAll(map[], Flattened(diffs)) == Some(fields) && Consistent(diffs)
  {
    Projection(map[], diffs);
    forall name ensures CellRun(At(map[], name), Named(diffs, name)) == At(fields, name) {
      if name in fields { assert [Assign(name, fields[name])][1..] == []; }
    }
    assert ApplyAll(map[], diffs).Some?;
    SameCells(ApplyAll(map[], diffs).value, fields);
    FlattenedApplies(map[], diffs);
    GroupsFit(diffs);
  }

  lemma {:induction false} NoneNamed()
    ensures forall name :: Named([], name) == []
  {
  }

  ghost predicate Listed(diffs: seq<FieldDiff>, names: seq<string>, fields: Fields) {
    forall name :: Named(diffs, name) == if name in names && name in fields then [Assign(name, fields[name])] else []
  }

  lemma {:induction false} OneMoreListed(diffs: seq<FieldDiff>, names: seq<string>, name: string, fields: Fields)
    requires Listed(diffs, names, fields) && name !in names && name in fields
    ensures Listed(diffs + [Assign(name, fields[name])], names + [name], fields)
  {
    hide Named;
    var d := Assign(name, fields[name]);
    forall other ensures Named(diffs + [d], other) == if other in names + [name] &&
      other in fields then [Assign(other, fields[other])] else [] {
      NamedAppend(diffs, [d], other);
      OfOneName([d], name, other);
      assert [] + [d] == [d] && Named(diffs, other) + [] == Named(diffs, other);
    }
  }

  /** `FieldDiffContainer.from_model`. */
  method FromModel(names: seq<string>, fields: Fields) returns (diffs: seq<FieldDiff>)
    requires Lists(names, fields)
    ensures IsListing(diffs, fields)
  {
    hide Named;
    diffs := [];
    NoneNamed();
    for k := 0 to |names|
      invariant Listed(diffs, names[..k], fields)
    {
      OneMoreListed(diffs, names[..k], names[k], fields);
      assert names[..k + 1] == names[..k] + [names[k]];
      diffs := diffs + [Assign(names[k], fields[names[k]])];
    }
    assert names[..|names|] == names;
  }

  // ---------------------------------------------------------------- events and replay

  datatype Event = Event(action: Action, version: nat, diffs: seq<FieldDiff>)

  datatype Instance = Instance(fields: Fields, version: nat)

  /** `apply_diff`; `None` is an exception. */
  function ApplyEvent(x: Instance, e: Event): Option<Instance> {
    var fields := ApplyAll(x.fields, Flattened(e.diffs));
    if fields.None? then None else Some(Instance(fields.value, e.version))
  }

  function ApplyEvents(x: Instance, events: seq<Event>): Option<Instance>
    decreases |events|
  {
    if events == [] then Some(x)
    else
      var next := ApplyEvent(x, events[0]);
      if next.None? then None else ApplyEvents(next.value, events[1..])
  }

  /** `from_diff`: an instance out of the values of one event. */
  function FromDiff(e: Event): Option<Instance> { ApplyEvent(Instance(map[], 0), e) }

  datatype Reading = Missing | Gone | Broken | Alive(instance: Instance)

  /** `_build_instance`: a last event that deletes decides; otherwise the first one is built on. */
  function Rebuild(events: seq<Event>): Reading {
    if events == [] then Missing
    else if events[|events| - 1].action == Delete then Gone
    else
      var first := FromDiff(events[0]);
      var all := if first.None? then None else ApplyEvents(first.value, events[1..]);
      if all.None? then Broken else Alive(all.value)
  }

  lemma {:induction false} ApplyEventsAppend(x: Instance, a: seq<Event>, b: seq<Event>)
    ensures ApplyEvents(x, a + b) == if ApplyEvents(x, a).None? then None else ApplyEvents(ApplyEvents(x, a).value, b)
    decreases |a|
  {
    if a == [] {
      assert a + b == b;
    } else {
      assert (a + b)[1..] == a[1..] + b;
      var next := ApplyEvent(x, a[0]);
      if next.Some? { ApplyEventsAppend(next.value, a[1..], b); }
    }
  }

  /** `decompose`: one event for each difference of the container. */
  function Decompose(e: Event): seq<Event> {
    OneByOne(e, Flattened(e.diffs))
  }

  function OneByOne(e: Event, diffs: seq<FieldDiff>): seq<Event>
    decreases |diffs|
  {
    if diffs == [] then [] else [e.(diffs := [diffs[0]])] + OneByOne(e, diffs[1..])
  }

  lemma {:induction false} OneByOneApplies(x: Instance, e: Event, diffs: seq<FieldDiff>)
    ensures ApplyEvents(x, OneByOne(e, diffs)) ==
            var fields := ApplyAll(x.fields, diffs);
            if fields.None? then None else Some(Instance(fields.value, if diffs == [] then x.version else e.version))
    decreases |diffs|
  {
    if diffs != [] {
      var one := e.(diffs := [diffs[0]]);
      assert OneByOne(e, diffs)[0] == one && OneByOne(e, diffs)[1..] == OneByOne(e, diffs[1..]);
      FlattenedApplies(x.fields, [diffs[0]]);
      assert ApplyAll(x.fields, [diffs[0]]) == ApplyOne(x.fields, diffs[0]) by { assert [diffs[0]][1..] == []; }
      var next := ApplyEvent(x, one);
      if next.Some? { OneByOneApplies(next.value, e, diffs[1..]); }
    }
  }

  /** Decomposing keeps the meaning, except that an event without differences decomposes into nothing. */
  lemma {:induction false} DecomposeKeepsMeaning(x: Instance, e: Event)
    ensures ApplyEvents(x, Decompose(e)) == ApplyEvent(x, e) <==> e.diffs != [] || x.version == e.version
  {
    OneByOneApplies(x, e, Flattened(e.diffs));
    FlattenedPermutes(e.diffs);
    assert |Flattened(e.diffs)| == |multiset(Flattened(e.diffs))| == |multiset(e.diffs)| == |e.diffs|;
  }

  // ---------------------------------------------------------------- every run

  /** What a handle may do; `fields` are its own values, however old the rest of it is. */
  datatype Op = Create(fields: Fields) | Save(fields: Fields) | Remove

  /** `class_` is any instance: what it takes to be of the entity's class. */
  predicate OfClass(class_: Fields, fields: Fields) {
    SameShape(class_, fields) && AllKeyed(fields)
  }

  /** What the stored events of the entity become. A save compares with what is stored, not with what its handle knew. */
  ghost predicate Next(class_: Fields, events: seq<Event>, op: Op, events': seq<Event>) {
    match op
    case Create(fields) => events == [] && OfClass(class_, fields) && exists diffs :: Creates(events', fields, diffs)
    case Save(fields) =>
      events != [] && OfClass(class_, fields) &&
      (match Rebuild(events)
       case Alive(old_) => SameShape(fields, old_.fields) && exists diffs :: Updates(events, events', fields, old_.fields, diffs)
       case _ => events' == events)
    case Remove => events != [] && events' == events + [Event(Delete, |events| + 1, [])]
  }

  ghost predicate Creates(events': seq<Event>, fields: Fields, diffs: seq<FieldDiff>) {
    IsListing(diffs, fields) && events' == [Event(Action.Create, 1, diffs)]
  }

  ghost predicate Updates(events: seq<Event>, events': seq<Event>, fields: Fields, stored: Fields, diffs: seq<FieldDiff>)
    requires SameShape(fields, stored)
  {
    IsDiff(diffs, fields, stored) && events' == if diffs == [] then events else events + [Event(Update, |events| + 1, diffs)]
  }

  ghost predicate Run(class_: Fields, states: seq<seq<Event>>, ops: seq<Op>) {
    |states| == |ops| + 1 && states[0] == [] && forall k :: 0 <= k < |ops| ==> Next(class_, states[k], ops[k], states[k + 1])
  }

  /** The values that were saved last, if any. */
  datatype Expected = Nothing | Removed | Values(fields: Fields)

  function Expect(ops: seq<Op>): Expected
    decreases |ops|
  {
    if ops == [] then Nothing
    else
      var before := Expect(ops[..|ops| - 1]);
      match ops[|ops| - 1]
      case Create(fields) => Values(fields)
      case Save(fields) => if before.Removed? then Removed else Values(fields)
      case Remove => Removed
  }

  predicate Numbered(events: seq<Event>) {
    forall i :: 0 <= i < |events| ==> events[i].version == i + 1
  }

  ghost predicate Shows(class_: Fields, events: seq<Event>, expected: Expected) {
    Numbered(events) &&
    match expected
    case Nothing => events == []
    case Removed => Rebuild(events) == Gone
    case Values(fields) => OfClass(class_, fields) && events != [] && Rebuild(events) == Alive(Instance(fields, |events|))
  }

  lemma {:induction false} CreateShows(class_: Fields, fields: Fields, events: seq<Event>, diffs: seq<FieldDiff>)
    requires OfClass(class_, fields) && Creates(events, fields, diffs)
    ensures Shows(class_, events, Values(fields))
  {
    ListingApplies(diffs, fields);
    assert events[1..] == [];
  }

  lemma {:induction false} UpdateShows(class_: Fields, events: seq<Event>, stored: Fields, fields: Fields, events': seq<Event>,
                                       diffs: seq<FieldDiff>)
    requires Shows(class_, events, Values(stored)) && OfClass(class_, fields) && SameShape(fields, stored)
    requires Updates(events, events', fields, stored, diffs)
    ensures Shows(class_, events', Values(fields))
  {
    hide IsDiff, SameShape, OfClass, ApplyAll, Flattened, Consistent, ApplyEvents;
    DiffIsExact(diffs, fields, stored);
    if diffs != [] {
      DiffApplies(diffs, fields, stored);
      var e := Event(Update, |events| + 1, diffs);
      var first := FromDiff(events[0]).value;
      ApplyEventsAppend(first, events[1..], [e]);
      assert events'[1..] == events[1..] + [e] && events'[0] == events[0];
      OneEvent(Instance(stored, |events|), e);
    }
  }

  lemma {:induction false} OneEvent(x: Instance, e: Event)
    ensures ApplyEvents(x, [e]) == ApplyEvent(x, e)
  {
  }

  /** Replaying the stored events gives exactly what was saved last, and the version counts the events. */
  lemma {:induction false} ReplayIsLastSave(class_: Fields, states: seq<seq<Event>>, ops: seq<Op>)
    requires Run(class_, states, ops)
    ensures Shows(class_, states[|ops|], Expect(ops))
    decreases |ops|
  {
    hide Rebuild, IsDiff, IsListing, OfClass, SameShape;
    if ops != [] {
      var n := |ops| - 1;
      ReplayIsLastSave(class_, states[..n + 1], ops[..n]);
      var events, op, events' := states[n], ops[n], states[n + 1];
      assert Next(class_, events, op, events');
      match op {
        case Create(fields) =>
          var diffs :| Creates(events', fields, diffs);
          CreateShows(class_, fields, events', diffs);
        case Save(fields) =>
          NotNothing(class_, events, Expect(ops[..n]));
          if Expect(ops[..n]).Values? {
            var stored := Expect(ops[..n]).fields;
            var diffs :| Updates(events, events', fields, stored, diffs);
            UpdateShows(class_, events, stored, fields, events', diffs);
          }
        case Remove =>
          RemoveShows(events);
      }
    }
  }

  lemma {:induction false} NotNothing(class_: Fields, events: seq<Event>, expected: Expected)
    requires Shows(class_, events, expected) && events != []
    ensures !expected.Nothing?
  {
  }

  lemma {:induction false} RemoveShows(events: seq<Event>)
    ensures Rebuild(events + [Event(Delete, |events| + 1, [])]) == Gone
  {
  }

  // ---------------------------------------------------------------- the objects

  /** The stored events of one entity; a submission gets the next version. */
  class Repository {
    var events: seq<Event>

    constructor ()
      ensures events == []
    {
      events := [];
    }

    method Submit(action: Action, diffs: seq<FieldDiff>) returns (version: nat)
      modifies this
      ensures version == |events| && events == old(events) + [Event(action, version, diffs)]
    {
      version := |events| + 1;
      events := events + [Event(action, version, diffs)];
    }
  }

  /** A handle on the entity, which may be out of date. */
  class RootEntity {
    const names: seq<string>
    var fields: Fields
    var version: nat

    ghost predicate Valid(class_: Fields)
      reads this
    {
      Lists(names, fields) && OfClass(class_, fields)
    }

    constructor (names: seq<string>, fields: Fields, version: nat)
      ensures this.names == names && this.fields == fields && this.version == version
    {
      this.names, this.fields, this.version := names, fields, version;
    }

    /** `create`. */
    method Create(repository: Repository, ghost class_: Fields)
      requires Valid(class_) && repository.events == []
      modifies this, repository
      ensures Valid(class_) && fields == old(fields) && version == |repository.events|
      ensures Next(class_, old(repository.events), Op.Create(fields), repository.events)
    {
      hide IsListing;
      var diffs := FromModel(names, fields);
      version := repository.Submit(Action.Create, diffs);
      assert Creates(repository.events, fields, diffs);
    }

    /** `update`, once the new values are set: it compares with what is stored now; `ok` is false if that cannot be read. */
    method Update(repository: Repository, ghost class_: Fields) returns (ok: bool)
      requires Valid(class_) && repository.events != []
      requires Rebuild(repository.events).Alive? ==> OfClass(class_, Rebuild(repository.events).instance.fields)
      modifies this, repository
      ensures Valid(class_) && fields == old(fields)
      ensures ok <==> Rebuild(old(repository.events)).Alive?
      ensures version == old(version) || version == |repository.events|
      ensures Next(class_, old(repository.events), Save(fields), repository.events)
    {
      hide IsDiff, Rebuild;
      var stored := Rebuild(repository.events);
      if !stored.Alive? {
        return false;
      }
      var diffs := Diff(names, fields, stored.instance.fields);
      if diffs != [] {
        version := repository.Submit(Action.Update, diffs);
      }
      assert Updates(old(repository.events), repository.events, fields, stored.instance.fields, diffs);
      ok := true;
    }

    /** `apply_diff`, one difference of the container after the other. */
    method ApplyDiff(e: Event) returns (ok: bool)
      requires Consistent(e.diffs)
      modifies this
      ensures ok <==> ApplyEvent(Instance(old(fields), old(version)), e).Some?
      ensures ok ==> Some(Instance(fields, version)) == ApplyEvent(Instance(old(fields), old(version)), e)
    {
      hide Flattened;
      var flat := Flatten(e.diffs);
      var diffs := flat.value;
      for i := 0 to |diffs|
        invariant ApplyAll(old(fields), diffs) == ApplyAll(fields, diffs[i..])
      {
        assert diffs[i..][0] == diffs[i] && diffs[i..][1..] == diffs[i + 1..];
        match diffs[i] {
          case Assign(name, value) =>
            fields := fields[name := value];
          case Increment(name, action, item) =>
            if name !in fields || fields[name].Plain? { return false; }
            fields := fields[name := if action == Action.Delete then Discarded(fields[name], item) else Added(fields[name], item)];
        }
      }
      assert diffs[|diffs|..] == [];
      version := e.version;
      ok := true;
    }
  }
}
