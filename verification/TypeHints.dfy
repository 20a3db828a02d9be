/**
  When a value of one type hint may stand where another is expected.
 */
module TypeHints {

  type ClassId = nat

  /**
    A model class is known by the name and the fields of its model type, a type variable by what it
    unpacks to: the union of its constraints, or its bound, or Any.
   */
  datatype Hint =
    | Anything
    | Class(id: ClassId)
    | Generic(origin: ClassId, args: seq<Hint>)
    | Union(options: seq<Hint>)
    | Model(name: string, fields: map<string, Hint>)
    | Variable(meaning: Hint)

  /** `issubclass`, the class behind a model's name, and the two classes that the comparison knows. */
  datatype Classes = Classes(sub: (ClassId, ClassId) -> bool, model: string -> ClassId, root: ClassId, bucket: ClassId)

  ghost predicate Ordered(cs: Classes) {
    (forall a: ClassId :: cs.sub(a, a)) &&
    (forall a: ClassId, b: ClassId, c: ClassId :: cs.sub(a, b) && cs.sub(b, c) ==> cs.sub(a, c)) &&
    (forall a: ClassId, b: ClassId :: cs.sub(a, b) && cs.sub(b, a) ==> a == b) &&
    forall a: ClassId :: cs.sub(a, cs.root)
  }

  /** `_equal_with_inherited_model` and `_equal_with_bucket_model`. */
  predicate Inherits(cs: Classes, first: string, second: string) {
    cs.sub(cs.model(first), cs.model(second)) && (cs.model(first) != cs.model(second) || cs.sub(cs.model(second), cs.bucket))
  }

  /** `TypeHintComparator._compare`. */
  predicate Compare(cs: Classes, first: Hint, second: Hint)
    decreases first, second
  {
    if first.Variable? then Compare(cs, first.meaning, second)
    else if second.Variable? then Compare(cs, first, second.meaning)
    else if second.Anything? then true
    else if first.Union? && (forall i :: 0 <= i < |first.options| ==> Compare(cs, first.options[i], second)) then true
    else if second.Union? && (exists i :: 0 <= i < |second.options| && Compare(cs, first, second.options[i])) then true
    else
      match (first, second)
      case (Model(a, f), Model(b, g)) =>
        Inherits(cs, a, b) || (a == b && forall k :: k in f ==> k in g && Compare(cs, f[k], g[k]))
      case (Model(_, _), Class(d)) => d == cs.root
      case (Class(c), Class(d)) => cs.sub(c, d)
      case (Generic(c, a), Generic(d, b)) => cs.sub(c, d) && CompareArgs(cs, a, b)
      case (Union(a), Union(b)) => a == b || CompareArgs(cs, a, b)
      case _ => false
  }

  /** `_compare_args`. */
  predicate CompareArgs(cs: Classes, first: seq<Hint>, second: seq<Hint>)
    decreases first, second
  {
    |first| == |second| && forall i :: 0 <= i < |first| ==> Compare(cs, first[i], second[i])
  }

  /** A type variable matches, and is matched by, what it unpacks to. */
  lemma {:induction false} VariableIsAlias(cs: Classes, t: Hint, meaning: Hint)
    ensures Compare(cs, Variable(meaning), t) <==> Compare(cs, meaning, t)
    ensures Compare(cs, t, Variable(meaning)) <==> Compare(cs, t, meaning)
    decreases t
  {
    if t.Variable? { VariableIsAlias(cs, t.meaning, meaning); }
  }

  lemma {:induction false} AnythingIsTop(cs: Classes, t: Hint)
    ensures Compare(cs, t, Anything)
    ensures Compare(cs, Anything, t) && !t.Union? && !t.Variable? ==> t.Anything?
    decreases t
  {
    if t.Variable? { AnythingIsTop(cs, t.meaning); }
  }

  lemma {:induction false} OptionMatches(cs: Classes, first: Hint, second: Hint, i: nat)
    requires second.Union? && i < |second.options| && Compare(cs, first, second.options[i])
    ensures Compare(cs, first, second)
    decreases first
  {
    if first.Variable? { OptionMatches(cs, first.meaning, second, i); }
  }

  lemma {:induction false} Reflexive(cs: Classes, t: Hint)
    requires Ordered(cs)
    ensures Compare(cs, t, t)
    decreases t
  {
    match t {
      case Generic(_, args) => forall i | 0 <= i < |args| ensures Compare(cs, args[i], args[i]) { Reflexive(cs, args[i]); }
      case Model(_, fields) => forall k | k in fields ensures Compare(cs, fields[k], fields[k]) { Reflexive(cs, fields[k]); }
      case Variable(meaning) =>
        Reflexive(cs, meaning);
        VariableIsAlias(cs, meaning, meaning);
      case Union(options) =>
        forall i | 0 <= i < |options| ensures Compare(cs, options[i], t) {
          Reflexive(cs, options[i]);
          OptionMatches(cs, options[i], t, i);
        }
      case _ =>
    }
  }

  /** A union matches exactly what each of its options matches. */
  lemma {:induction false} UnionIsJoin(cs: Classes, options: seq<Hint>, t: Hint)
    requires Ordered(cs)
    ensures Compare(cs, Union(options), t) <==> forall i :: 0 <= i < |options| ==> Compare(cs, options[i], t)
    decreases t
  {
    if t.Variable? {
      UnionIsJoin(cs, options, t.meaning);
      forall i | 0 <= i < |options| ensures Compare(cs, options[i], t) <==> Compare(cs, options[i], t.meaning) {
        VariableIsAlias(cs, options[i], t.meaning);
      }
    } else if Compare(cs, Union(options), t) {
      forall i | 0 <= i < |options| ensures Compare(cs, options[i], t) { EachOption(cs, options, t, i); }
    }
  }

  lemma {:induction false} EachOption(cs: Classes, options: seq<Hint>, t: Hint, i: nat)
    requires Ordered(cs) && Compare(cs, Union(options), t) && i < |options|
    ensures Compare(cs, options[i], t)
    decreases t, 0
  {
    if t.Anything? { AnythingIsTop(cs, options[i]); }
    if t.Variable? {
      EachOption(cs, options, t.meaning, i);
      VariableIsAlias(cs, options[i], t.meaning);
    } else if t.Union? && !(forall j :: 0 <= j < |options| ==> Compare(cs, options[j], t)) {
      if exists j :: 0 <= j < |t.options| && Compare(cs, Union(options), t.options[j]) {
        var j :| 0 <= j < |t.options| && Compare(cs, Union(options), t.options[j]);
        EachOption(cs, options, t.options[j], i);
        OptionMatches(cs, options[i], t, j);
      } else {
        if options == t.options { Reflexive(cs, options[i]); }
        OptionMatches(cs, options[i], t, i);
      }
    }
  }

  lemma {:induction false} Transitive(cs: Classes, a: Hint, b: Hint, c: Hint)
    requires Ordered(cs) && Compare(cs, a, b) && Compare(cs, b, c)
    ensures Compare(cs, a, c)
    decreases a, b, c
  {
    if a.Variable? {
      Transitive(cs, a.meaning, b, c);
    } else if b.Variable? {
      Transitive(cs, a, b.meaning, c);
    } else if c.Variable? {
      Transitive(cs, a, b, c.meaning);
    } else if c.Anything? {
    } else if a.Union? {
      forall i | 0 <= i < |a.options| ensures Compare(cs, a.options[i], c) {
        EachOption(cs, a.options, b, i);
        Transitive(cs, a.options[i], b, c);
      }
    } else if b.Union? {
      var i :| 0 <= i < |b.options| && Compare(cs, a, b.options[i]);
      EachOption(cs, b.options, c, i);
      Transitive(cs, a, b.options[i], c);
    } else if c.Union? {
      var i :| 0 <= i < |c.options| && Compare(cs, b, c.options[i]);
      Transitive(cs, a, b, c.options[i]);
    } else {
      PlainTransitive(cs, a, b, c);
    }
  }

  predicate Plain(t: Hint) { !t.Union? && !t.Variable? }

  lemma {:induction false} PlainTransitive(cs: Classes, a: Hint, b: Hint, c: Hint)
    requires Ordered(cs) && Compare(cs, a, b) && Compare(cs, b, c) && Plain(a) && Plain(b) && Plain(c) && !c.Anything?
    ensures Compare(cs, a, c)
    decreases a, b, c, 1
  {
    if b.Generic? {
      forall i | 0 <= i < |b.args| ensures Compare(cs, a.args[i], c.args[i]) { Transitive(cs, a.args[i], b.args[i], c.args[i]); }
    } else if b.Model? {
      ModelsTransitive(cs, a, b, c);
    }
  }

  lemma {:induction false} ModelsTransitive(cs: Classes, a: Hint, b: Hint, c: Hint)
    requires Ordered(cs) && Compare(cs, a, b) && Compare(cs, b, c) && b.Model? && Plain(a) && Plain(c)
    ensures Compare(cs, a, c)
    decreases a, b, c, 0
  {
    if c.Model? && a.name == b.name == c.name && !Inherits(cs, a.name, b.name) && !Inherits(cs, b.name, c.name) {
      forall k | k in a.fields ensures k in c.fields && Compare(cs, a.fields[k], c.fields[k]) {
        Transitive(cs, a.fields[k], b.fields[k], c.fields[k]);
      }
    }
  }

  /** Classes match along inheritance, and generics do if their origins and all their arguments match. */
  lemma {:induction false} ClassesMatch(cs: Classes, c: ClassId, d: ClassId, a: seq<Hint>, b: seq<Hint>)
    ensures Compare(cs, Class(c), Class(d)) <==> cs.sub(c, d)
    ensures Compare(cs, Generic(c, a), Generic(d, b)) <==>
            cs.sub(c, d) && |a| == |b| && forall i :: 0 <= i < |a| ==> Compare(cs, a[i], b[i])
    ensures !Compare(cs, Class(c), Generic(d, b)) && !Compare(cs, Generic(c, a), Class(d))
  {
  }

  /** Models match along inheritance, or into a bucket, or under one name field by field; of the classes they match the root only. */
  lemma {:induction false} ModelsMatch(cs: Classes, a: string, f: map<string, Hint>, b: string, g: map<string, Hint>, c: ClassId)
    requires Ordered(cs)
    ensures a != b && cs.model(a) != cs.model(b) ==> (Compare(cs, Model(a, f), Model(b, g)) <==> cs.sub(cs.model(a), cs.model(b)))
    ensures a == b && !cs.sub(cs.model(b), cs.bucket) ==>
              (Compare(cs, Model(a, f), Model(b, g)) <==> f.Keys <= g.Keys && forall k :: k in f ==> Compare(cs, f[k], g[k]))
    ensures cs.model(a) == cs.model(b) && cs.sub(cs.model(b), cs.bucket) ==> Compare(cs, Model(a, f), Model(b, g))
    ensures (Compare(cs, Model(a, f), Class(c)) <==> c == cs.root) && !Compare(cs, Class(c), Model(a, f))
  {
  }
}
