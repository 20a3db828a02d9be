/**
  Field differences of an entity: how they are computed, grouped and applied. Plain fields are
  replaced; incremental sets, of values or of entities keyed by uuid, change element by element.
 */
module FieldDiffs {
  import opened Wrappers

  datatype Item = Item(uuid: nat, content: int)

  datatype Value =
    | Plain(content: int)
    | ValueSet(items: set<Item>)
    | EntitySet(entities: map<nat, Item>)

  type Fields = map<string, Value>

  datatype Action = Create | Update | Delete

  datatype FieldDiff =
    | Assign(name: string, value: Value)
    | Increment(name: string, action: Action, item: Item)

  /** Entities are kept under their own uuid. */
  predicate Keyed(v: Value) {
    v.EntitySet? ==> forall k :: k in v.entities ==> v.entities[k].uuid == k
  }

  predicate SameKind(v: Value, w: Value) {
    (v.Plain? <==> w.Plain?) && (v.ValueSet? <==> w.ValueSet?)
  }

  // ---------------------------------------------------------------- incremental sets

  function Added(v: Value, item: Item): Value {
    match v
    case Plain(_) => v
    case ValueSet(items) => ValueSet(items + {item})
    case EntitySet(entities) => EntitySet(entities[item.uuid := item])
  }

  function Discarded(v: Value, item: Item): Value {
    match v
    case Plain(_) => v
    case ValueSet(items) => ValueSet(items - {item})
    case EntitySet(entities) => EntitySet(entities - {item.uuid})
  }

  /** What a collection holds in the place of `item`: itself in a set of values, its namesake among entities. */
  function Look(v: Value, item: Item): Option<Item> {
    match v
    case Plain(_) => None
    case ValueSet(items) => if item in items then Some(item) else None
    case EntitySet(entities) => if item.uuid in entities then Some(entities[item.uuid]) else None
  }

  predicate SamePlace(v: Value, a: Item, b: Item) {
    if v.EntitySet? then a.uuid == b.uuid else a == b
  }

  lemma {:induction false} SameLooks(v: Value, w: Value)
    requires SameKind(v, w) && !v.Plain? && forall item :: Look(v, item) == Look(w, item)
    ensures v == w
  {
    if v.ValueSet? {
      assert forall item :: item in v.items <==> item in w.items by {
        forall item ensures item in v.items <==> item in w.items { assert Look(v, item) == Look(w, item); }
      }
    } else {
      forall u: nat ensures u in v.entities <==> u in w.entities { assert Look(v, Item(u, 0)) == Look(w, Item(u, 0)); }
      forall u: nat | u in v.entities ensures v.entities[u] == w.entities[u] { assert Look(v, Item(u, 0)) == Look(w, Item(u, 0)); }
      assert v.entities == w.entities;
    }
  }

  datatype Entry = Entry(action: Action, item: Item)

  /** An entry of the difference from `old` to `new`. */
  predicate Tells(e: Entry, after: Value, before: Value) {
    match e.action
    case Create => Look(after, e.item) == Some(e.item) && Look(before, e.item).None?
    case Delete => Look(after, e.item).None? && Look(before, e.item) == Some(e.item)
    case Update => Look(after, e.item) == Some(e.item) && Look(before, e.item).Some? && Look(before, e.item) != Some(e.item)
  }

  predicate AllTell(entries: seq<Entry>, after: Value, before: Value) {
    forall i :: 0 <= i < |entries| ==> Tells(entries[i], after, before)
  }

  predicate Mentions(entries: seq<Entry>, v: Value, item: Item) {
    exists i :: 0 <= i < |entries| && SamePlace(v, entries[i].item, item)
  }

  /** Every entry tells a difference, and every difference is told. */
  ghost predicate IsSetDiff(entries: seq<Entry>, after: Value, before: Value) {
    AllTell(entries, after, before) && forall item :: Look(after, item) != Look(before, item) ==> Mentions(entries, after, item)
  }

  function Applied(v: Value, e: Entry): Value {
    if e.action == Delete then Discarded(v, e.item) else Added(v, e.item)
  }

  function AllApplied(v: Value, entries: seq<Entry>): Value
    decreases |entries|
  {
    if entries == [] then v else AllApplied(Applied(v, entries[0]), entries[1..])
  }

  lemma {:induction false} AllAppliedLooks(v: Value, entries: seq<Entry>, after: Value, before: Value, item: Item)
    requires SameKind(v, after) && !v.Plain? && AllTell(entries, after, before)
    ensures SameKind(AllApplied(v, entries), after)
    ensures Look(AllApplied(v, entries), item) == if Mentions(entries, after, item) then Look(after, item) else Look(v, item)
    decreases |entries|
  {
    if entries != [] {
      var e := entries[0];
      assert Tells(e, after, before);
      AllAppliedLooks(Applied(v, e), entries[1..], after, before, item);
      assert Mentions(entries, after, item) <==> SamePlace(after, e.item, item) || Mentions(entries[1..], after, item) by {
        if Mentions(entries[1..], after, item) {
          var i :| 0 <= i < |entries| - 1 && SamePlace(after, entries[1..][i].item, item);
          assert SamePlace(after, entries[i + 1].item, item);
        }
      }
    }
  }

  /** Applied to the old collection in any order, the difference gives the new one. */
  lemma {:induction false} SetDiffApplies(entries: seq<Entry>, after: Value, before: Value)
    requires SameKind(after, before) && !after.Plain? && IsSetDiff(entries, after, before)
    ensures AllApplied(before, entries) == after
  {
    forall item: Item ensures Look(AllApplied(before, entries), item) == Look(after, item) {
      AllAppliedLooks(before, entries, after, before, item);
    }
    AllAppliedLooks(before, entries, after, before, Item(0, 0));
    SameLooks(AllApplied(before, entries), after);
  }

  /** Nothing is told exactly if nothing differs. */
  lemma {:induction false} SetDiffEmpty(entries: seq<Entry>, after: Value, before: Value)
    requires SameKind(after, before) && !after.Plain? && IsSetDiff(entries, after, before)
    ensures entries == [] <==> after == before
  {
    if entries == [] { SetDiffApplies(entries, after, before); }
    if entries != [] { assert Tells(entries[0], after, before); }
  }

  // ---------------------------------------------------------------- computing the difference of two sets

  /** The elements of a collection, in some order. */
  function Items(v: Value): set<Item>
    requires !v.Plain?
  {
    if v.ValueSet? then v.items else set u | u in v.entities :: v.entities[u]
  }

  /** `IncrementalSetDiff._diff`: first what is new, then what is gone, then, among entities, what changed. */
  method SetDiff(after: Value, before: Value) returns (entries: seq<Entry>)
    requires SameKind(after, before) && !after.Plain? && Keyed(after) && Keyed(before)
    ensures IsSetDiff(entries, after, before)
  {
    var created := Walk(after, before, Create, set item | item in Items(after) && Look(before, item).None?);
    var deleted := Walk(after, before, Delete, set item | item in Items(before) && Look(after, item).None?);
    entries := created + deleted;
    var updated: seq<Entry> := [];
    if after.EntitySet? {
      updated := Walk(after, before, Update, set item | item in Items(after) && Look(before, item).Some? &&
                      Look(before, item) != Some(item));
      entries := entries + updated;
    }
    assert entries == created + deleted + updated;
    DiffIsComplete(created, deleted, updated, after, before);
  }

  method Walk(after: Value, before: Value, action: Action, chosen: set<Item>) returns (entries: seq<Entry>)
    requires forall item :: item in chosen ==> Tells(Entry(action, item), after, before)
    ensures AllTell(entries, after, before)
    ensures forall item :: item in chosen <==> Entry(action, item) in entries
    ensures forall e :: e in entries ==> e.action == action
  {
    entries := [];
    var left := chosen;
    while left != {}
      invariant left <= chosen && AllTell(entries, after, before)
      invariant forall item :: item in chosen <==> item in left || Entry(action, item) in entries
      invariant forall e :: e in entries ==> e.action == action
      decreases |left|
    {
      var item :| item in left;
      entries := entries + [Entry(action, item)];
      left := left - {item};
    }
  }

  lemma {:induction false} DiffIsComplete(created: seq<Entry>, deleted: seq<Entry>, updated: seq<Entry>, after: Value, before: Value)
    requires SameKind(after, before) && !after.Plain? && Keyed(after) && Keyed(before)
    requires AllTell(created, after, before) && AllTell(deleted, after, before) && AllTell(updated, after, before)
    requires forall item :: item in Items(after) && Look(before, item).None? ==> Entry(Create, item) in created
    requires forall item :: item in Items(before) && Look(after, item).None? ==> Entry(Delete, item) in deleted
    requires after.EntitySet? ==>
               forall item :: item in Items(after) && Look(before, item).Some? && Look(before, item) != Some(item) ==>
                 Entry(Update, item) in updated
    ensures IsSetDiff(created + deleted + updated, after, before)
  {
    var entries := created + deleted + updated;
    forall item | Look(after, item) != Look(before, item) ensures Mentions(entries, after, item) {
      var value := if Look(after, item).Some? then Look(after, item).value else Look(before, item).value;
      assert SamePlace(after, value, item);
      assert Look(after, value) == Look(after, item) && Look(before, value) == Look(before, item);
      var action := if Look(before, item).None? then Create else if Look(after, item).None? then Delete else Update;
      assert Entry(action, value) in entries;
      var i :| 0 <= i < |entries| && entries[i] == Entry(action, value);
    }
  }

  // ---------------------------------------------------------------- applying differences to fields

  /** `None` is the exception for a field that is not there or is not a collection. */
  function ApplyOne(fields: Fields, d: FieldDiff): Option<Fields> {
    match d
    case Assign(name, value) => Some(fields[name := value])
    case Increment(name, action, item) =>
      if name !in fields || fields[name].Plain? then None
      else Some(fields[name := Applied(fields[name], Entry(action, item))])
  }

  function ApplyAll(fields: Fields, diffs: seq<FieldDiff>): Option<Fields>
    decreases |diffs|
  {
    if diffs == [] then Some(fields)
    else
      var next := ApplyOne(fields, diffs[0]);
      if next.None? then None else ApplyAll(next.value, diffs[1..])
  }

  /** One field by itself. */
  datatype Cell = Absent | Has(value: Value) | Failed

  function At(fields: Fields, name: string): Cell {
    if name in fields then Has(fields[name]) else Absent
  }

  function CellStep(c: Cell, d: FieldDiff): Cell {
    match d
    case Assign(_, value) => if c.Failed? then Failed else Has(value)
    case Increment(_, action, item) => if !c.Has? || c.value.Plain? then Failed else Has(Applied(c.value, Entry(action, item)))
  }

  function CellRun(c: Cell, diffs: seq<FieldDiff>): Cell
    decreases |diffs|
  {
    if diffs == [] then c else CellRun(CellStep(c, diffs[0]), diffs[1..])
  }

  function Named(diffs: seq<FieldDiff>, name: string): seq<FieldDiff>
    decreases |diffs|
  {
    if diffs == [] then [] else (if diffs[0].name == name then [diffs[0]] else []) + Named(diffs[1..], name)
  }

  lemma {:induction false} FailedStays(diffs: seq<FieldDiff>)
    ensures CellRun(Failed, diffs) == Failed
    decreases |diffs|
  {
    if diffs != [] { FailedStays(diffs[1..]); }
  }

  /** Fields do not meet: each sees its own differences only. */
  lemma {:induction false} Projection(fields: Fields, diffs: seq<FieldDiff>)
    ensures ApplyAll(fields, diffs).Some? ==>
              forall name :: At(ApplyAll(fields, diffs).value, name) == CellRun(At(fields, name), Named(diffs, name))
    ensures ApplyAll(fields, diffs).None? ==> exists name :: CellRun(At(fields, name), Named(diffs, name)) == Failed
    decreases |diffs|
  {
    if diffs != [] {
      var d := diffs[0];
      var next := ApplyOne(fields, d);
      assert Named(diffs, d.name) == [d] + Named(diffs[1..], d.name);
      if next.None? {
        FailedStays(Named(diffs[1..], d.name));
        assert CellRun(At(fields, d.name), Named(diffs, d.name)) == Failed;
      } else {
        Projection(next.value, diffs[1..]);
        forall name ensures CellRun(At(next.value, name), Named(diffs[1..], name)) == CellRun(At(fields, name), Named(diffs, name)) {
          if name != d.name { assert Named(diffs, name) == Named(diffs[1..], name); }
        }
      }
    }
  }

  lemma {:induction false} SameCells(a: Fields, b: Fields)
    requires forall name :: At(a, name) == At(b, name)
    ensures a == b
  {
    forall name ensures name in a <==> name in b { assert At(a, name) == At(b, name); }
    forall name | name in a ensures a[name] == b[name] { assert At(a, name) == At(b, name); }
  }

  /** What counts is the order within each name. */
  lemma {:induction false} OrderWithinNames(fields: Fields, diffs: seq<FieldDiff>, others: seq<FieldDiff>)
    requires forall name :: Named(diffs, name) == Named(others, name)
    ensures ApplyAll(fields, diffs) == ApplyAll(fields, others)
  {
    Projection(fields, diffs);
    Projection(fields, others);
    if ApplyAll(fields, diffs).Some? && ApplyAll(fields, others).Some? {
      SameCells(ApplyAll(fields, diffs).value, ApplyAll(fields, others).value);
    }
  }

  lemma {:induction false} ApplyAppend(fields: Fields, a: seq<FieldDiff>, b: seq<FieldDiff>)
    ensures ApplyAll(fields, a + b) == if ApplyAll(fields, a).None? then None else ApplyAll(ApplyAll(fields, a).value, b)
    decreases |a|
  {
    if a == [] {
      assert a + b == b;
    } else {
      assert (a + b)[1..] == a[1..] + b;
      var next := ApplyOne(fields, a[0]);
      if next.Some? { ApplyAppend(next.value, a[1..], b); }
    }
  }

  // ---------------------------------------------------------------- grouping by name

  /** The names in the order in which they first appear. */
  function Names(diffs: seq<FieldDiff>): (r: seq<string>)
    ensures forall name :: name in r <==> exists i :: 0 <= i < |diffs| && diffs[i].name == name
    ensures forall i, j :: 0 <= i < j < |r| ==> r[i] != r[j]
    decreases |diffs|
  {
    if diffs == [] then []
    else
      var n := |diffs| - 1;
      var before := Names(diffs[..n]);
      assert forall i :: 0 <= i < n ==> diffs[..n][i] == diffs[i];
      if diffs[n].name in before then before else before + [diffs[n].name]
  }

  function Grouped(diffs: seq<FieldDiff>, names: seq<string>): seq<FieldDiff>
    decreases |names|
  {
    if names == [] then [] else Named(diffs, names[0]) + Grouped(diffs, names[1..])
  }

  /** What a container yields: its differences, name by name. */
  function Flattened(diffs: seq<FieldDiff>): seq<FieldDiff> { Grouped(diffs, Names(diffs)) }

  /** A container takes one plain difference for a name, or any number of incremental ones. */
  predicate Consistent(diffs: seq<FieldDiff>) {
    forall i, j :: 0 <= i < j < |diffs| && diffs[i].name == diffs[j].name ==> diffs[i].Increment? && diffs[j].Increment?
  }

  lemma {:induction false} NamedAppend(a: seq<FieldDiff>, b: seq<FieldDiff>, name: string)
    ensures Named(a + b, name) == Named(a, name) + Named(b, name)
    decreases |a|
  {
    if a == [] {
      assert a + b == b;
    } else {
      NamedAppend(a[1..], b, name);
      var head := if a[0].name == name then [a[0]] else [];
      assert (a + b)[1..] == a[1..] + b && (a + b)[0] == a[0];
      assert Named(a + b, name) == head + Named(a[1..] + b, name);
      assert head + (Named(a[1..], name) + Named(b, name)) == (head + Named(a[1..], name)) + Named(b, name);
    }
  }

  lemma {:induction false} NamedTwice(diffs: seq<FieldDiff>, name: string, other: string)
    ensures Named(Named(diffs, name), other) == if name == other then Named(diffs, name) else []
    decreases |diffs|
  {
    if diffs != [] {
      NamedTwice(diffs[1..], name, other);
      if diffs[0].name == name {
        assert Named(diffs, name)[1..] == Named(diffs[1..], name);
      } else {
        assert Named(diffs, name) == Named(diffs[1..], name);
      }
    }
  }

  lemma {:induction false} GroupedNamed(diffs: seq<FieldDiff>, names: seq<string>, name: string)
    requires forall i, j :: 0 <= i < j < |names| ==> names[i] != names[j]
    ensures Named(Grouped(diffs, names), name) == if name in names then Named(diffs, name) else []
    decreases |names|
  {
    if names != [] {
      NamedAppend(Named(diffs, names[0]), Grouped(diffs, names[1..]), name);
      NamedTwice(diffs, names[0], name);
      GroupedNamed(diffs, names[1..], name);
    }
  }

  lemma {:induction false} UnnamedIsEmpty(diffs: seq<FieldDiff>, name: string)
    requires forall i :: 0 <= i < |diffs| ==> diffs[i].name != name
    ensures Named(diffs, name) == []
    decreases |diffs|
  {
    if diffs != [] { UnnamedIsEmpty(diffs[1..], name); }
  }

  /** Flattening keeps the differences of each name, in their order. */
  lemma {:induction false} FlattenedNamed(diffs: seq<FieldDiff>, name: string)
    ensures Named(Flattened(diffs), name) == Named(diffs, name)
  {
    GroupedNamed(diffs, Names(diffs), name);
    if name !in Names(diffs) { UnnamedIsEmpty(diffs, name); }
  }

  lemma {:induction false} CountNamed(diffs: seq<FieldDiff>, d: FieldDiff)
    ensures multiset(diffs)[d] == multiset(Named(diffs, d.name))[d]
    decreases |diffs|
  {
    if diffs != [] {
      assert diffs == [diffs[0]] + diffs[1..];
      CountNamed(diffs[1..], d);
    }
  }

  /** Flattening is a permutation. */
  lemma {:induction false} FlattenedPermutes(diffs: seq<FieldDiff>)
    ensures multiset(Flattened(diffs)) == multiset(diffs)
  {
    forall d ensures multiset(Flattened(diffs))[d] == multiset(diffs)[d] {
      CountNamed(diffs, d);
      CountNamed(Flattened(diffs), d);
      FlattenedNamed(diffs, d.name);
    }
  }

  /** Applying a container is applying the list it was built from. */
  lemma {:induction false} FlattenedApplies(fields: Fields, diffs: seq<FieldDiff>)
    ensures ApplyAll(fields, Flattened(diffs)) == ApplyAll(fields, diffs)
  {
    forall name ensures Named(Flattened(diffs), name) == Named(diffs, name) { FlattenedNamed(diffs, name); }
    OrderWithinNames(fields, Flattened(diffs), diffs);
  }

  /** The differences under their names, and the names in the order in which they came. */
  ghost predicate IsMapper(diffs: seq<FieldDiff>, order: seq<string>, groups: map<string, seq<FieldDiff>>) {
    order == Names(diffs) && (forall name :: name in groups <==> name in order) &&
    forall name :: name in groups ==> groups[name] == Named(diffs, name)
  }

  lemma {:induction false} MapperGrows(diffs: seq<FieldDiff>, order: seq<string>, groups: map<string, seq<FieldDiff>>, d: FieldDiff)
    requires IsMapper(diffs, order, groups)
    ensures d.name in groups ==> IsMapper(diffs + [d], order, groups[d.name := groups[d.name] + [d]])
    ensures d.name !in groups ==> IsMapper(diffs + [d], order + [d.name], groups[d.name := [d]])
  {
    hide Named, Names;
    NamesGrow(diffs, d);
    forall name ensures Named(diffs + [d], name) == if d.name == name then Named(diffs, name) + [d] else Named(diffs, name) {
      NamedLast(diffs, d, name);
    }
    if d.name !in groups { NamedLast(diffs, d, d.name); }
  }

  lemma {:induction false} NamesGrow(diffs: seq<FieldDiff>, d: FieldDiff)
    ensures Names(diffs + [d]) == if d.name in Names(diffs) then Names(diffs) else Names(diffs) + [d.name]
  {
  }

  lemma {:induction false} NamedLast(diffs: seq<FieldDiff>, d: FieldDiff, name: string)
    ensures Named(diffs + [d], name) == if d.name == name then Named(diffs, name) + [d] else Named(diffs, name)
    ensures name !in Names(diffs) ==> Named(diffs, name) == []
  {
    NamedAppend(diffs, [d], name);
    assert [d][1..] == [] && Named(diffs, name) + [] == Named(diffs, name);
    if name !in Names(diffs) { UnnamedIsEmpty(diffs, name); }
  }

  /** `_build_mapper`: an ordered dictionary of lists. */
  method BuildMapper(diffs: seq<FieldDiff>) returns (order: seq<string>, groups: map<string, seq<FieldDiff>>)
    ensures IsMapper(diffs, order, groups)
  {
    hide IsMapper;
    order, groups := [], map[];
    NoMapper();
    for i := 0 to |diffs|
      invariant IsMapper(diffs[..i], order, groups)
    {
      var d := diffs[i];
      assert diffs[..i + 1] == diffs[..i] + [d];
      MapperGrows(diffs[..i], order, groups, d);
      if d.name in groups {
        groups := groups[d.name := groups[d.name] + [d]];
      } else {
        order, groups := order + [d.name], groups[d.name := [d]];
      }
    }
    assert diffs[..|diffs|] == diffs;
  }

  lemma {:induction false} NoMapper()
    ensures IsMapper([], [], map[])
  {
  }

  /** `flatten_values` of a container, or the ValueError that building it raises. */
  method Flatten(diffs: seq<FieldDiff>) returns (r: Option<seq<FieldDiff>>)
    ensures r == if Consistent(diffs) then Some(Flattened(diffs)) else None
  {
    hide Consistent, Named, Names, GroupFits;
    var order, groups := BuildMapper(diffs);
    var flat: seq<FieldDiff> := [];
    for k := 0 to |order|
      invariant forall j :: 0 <= j < k ==> GroupFits(groups[order[j]])
      invariant flat + Grouped(diffs, order[k..]) == Flattened(diffs)
    {
      if !GroupFits(groups[order[k]]) {
        if Consistent(diffs) { GroupsDecide(diffs, order[k]); }
        return None;
      }
      assert order[k..][1..] == order[k + 1..] && order[k..][0] == order[k];
      flat := flat + groups[order[k]];
    }
    AllFit(diffs, order, groups);
    assert order[|order|..] == [] && flat + [] == flat;
    r := Some(flat);
  }

  lemma {:induction false} AllFit(diffs: seq<FieldDiff>, order: seq<string>, groups: map<string, seq<FieldDiff>>)
    requires IsMapper(diffs, order, groups) && forall j :: 0 <= j < |order| ==> GroupFits(groups[order[j]])
    ensures Consistent(diffs)
  {
    hide Consistent, Named, Names, GroupFits;
    forall name ensures GroupFits(Named(diffs, name)) {
      if name in order {
        var j :| 0 <= j < |order| && order[j] == name;
        assert GroupFits(groups[order[j]]);
      } else {
        UnnamedFits(diffs, name);
      }
    }
    GroupsFit(diffs);
  }

  lemma {:induction false} UnnamedFits(diffs: seq<FieldDiff>, name: string)
    requires name !in Names(diffs)
    ensures GroupFits(Named(diffs, name))
  {
    UnnamedIsEmpty(diffs, name);
  }

  /** All of one class, and alone unless it is the incremental one. */
  predicate GroupFits(group: seq<FieldDiff>) {
    |group| <= 1 || forall i :: 0 <= i < |group| ==> group[i].Increment?
  }

  lemma {:induction false} NamedHas(diffs: seq<FieldDiff>, i: nat) returns (k: nat)
    requires i < |diffs|
    ensures k < |Named(diffs, diffs[i].name)| && Named(diffs, diffs[i].name)[k] == diffs[i]
  {
    k := NamedHolds(diffs, diffs[i].name, i);
  }

  lemma {:induction false} NamedHolds(diffs: seq<FieldDiff>, name: string, i: nat) returns (k: nat)
    requires i < |diffs| && diffs[i].name == name
    ensures k < |Named(diffs, name)| && Named(diffs, name)[k] == diffs[i]
    decreases |diffs|
  {
    if i == 0 {
      k := 0;
    } else {
      var k' := NamedHolds(diffs[1..], name, i - 1);
      var head := if diffs[0].name == name then [diffs[0]] else [];
      assert Named(diffs, name) == head + Named(diffs[1..], name);
      k := |head| + k';
    }
  }

  lemma {:induction false} NamedIsAmong(diffs: seq<FieldDiff>, name: string, k: nat) returns (i: nat)
    requires k < |Named(diffs, name)|
    ensures i < |diffs| && diffs[i] == Named(diffs, name)[k] && diffs[i].name == name && k <= i
    decreases |diffs|
  {
    if diffs[0].name == name {
      assert Named(diffs, name)[0] == diffs[0];
      if k == 0 {
        i := 0;
      } else {
        var i' := NamedIsAmong(diffs[1..], name, k - 1);
        i := i' + 1;
      }
    } else {
      var i' := NamedIsAmong(diffs[1..], name, k);
      i := i' + 1;
    }
  }

  lemma {:induction false} GroupsDecide(diffs: seq<FieldDiff>, name: string)
    requires Consistent(diffs)
    ensures GroupFits(Named(diffs, name))
    decreases |diffs|
  {
    if diffs != [] {
      assert Consistent(diffs[1..]) by { assert forall i :: 0 <= i < |diffs| - 1 ==> diffs[1..][i] == diffs[i + 1]; }
      GroupsDecide(diffs[1..], name);
      var rest := Named(diffs[1..], name);
      if diffs[0].name == name && rest != [] {
        forall k | 0 <= k < |rest| ensures rest[k].Increment? && diffs[0].Increment? {
          var i := NamedIsAmong(diffs[1..], name, k);
          assert diffs[i + 1] == rest[k];
        }
        assert rest[0].Increment? && Named(diffs, name) == [diffs[0]] + rest;
      }
    }
  }

  lemma {:induction false} GroupsFit(diffs: seq<FieldDiff>)
    requires forall name :: GroupFits(Named(diffs, name))
    ensures Consistent(diffs)
    decreases |diffs|
  {
    if diffs != [] {
      forall name ensures GroupFits(Named(diffs[1..], name)) {
        var all := Named(diffs, name);
        assert GroupFits(all);
        assert all == Named(diffs[1..], name) || all[1..] == Named(diffs[1..], name);
      }
      GroupsFit(diffs[1..]);
      forall j | 0 < j < |diffs| && diffs[0].name == diffs[j].name ensures diffs[0].Increment? && diffs[j].Increment? {
        var k := NamedHas(diffs[1..], j - 1);
        var all := Named(diffs, diffs[0].name);
        assert all[0] == diffs[0] && all[k + 1] == diffs[j] && GroupFits(all);
      }
      assert forall i :: 0 <= i < |diffs| - 1 ==> diffs[1..][i] == diffs[i + 1];
    }
  }
}
