/**
  The participants of a saga's two-phase commit: which transaction in which service took part.
 */
module SagaParticipants {
  import opened Wrappers
  import opened SagaModel

  datatype Pair = Pair(uuid: Uuid, service: string)

  function SetOf(s: seq<Pair>): set<Pair> { set p | p in s }

  /** Every service a local or remote step at any depth was related to, with the uuid of its execution. */
  function Involved<C>(uuid: Uuid, steps: seq<StepExec<C>>): set<Pair>
    decreases steps
  {
    if steps == [] then {} else InvolvedStep(uuid, steps[0]) + Involved(uuid, steps[1..])
  }

  function InvolvedStep<C>(uuid: Uuid, step: StepExec<C>): set<Pair>
    decreases step
  {
    if step.def.Conditional? then (if step.inner.Some? then Involved(step.inner.value.uuid, step.inner.value.executed) else {})
    else set service | service in step.related :: Pair(uuid, service)
  }

  /** Some step, however deep, is local or remote, belongs to that execution and was related to that service. */
  predicate TookPart<C>(uuid: Uuid, steps: seq<StepExec<C>>, pair: Pair)
    decreases steps
  {
    exists i :: 0 <= i < |steps| && TookPartStep(uuid, steps[i], pair)
  }

  predicate TookPartStep<C>(uuid: Uuid, step: StepExec<C>, pair: Pair)
    decreases step
  {
    if step.def.Conditional? then step.inner.Some? && TookPart(step.inner.value.uuid, step.inner.value.executed, pair)
    else pair.uuid == uuid && pair.service in step.related
  }

  lemma {:induction false} InvolvedTookPart<C>(uuid: Uuid, steps: seq<StepExec<C>>, pair: Pair)
    ensures pair in Involved(uuid, steps) <==> TookPart(uuid, steps, pair)
    decreases steps
  {
    if steps != [] {
      InvolvedStepTookPart(uuid, steps[0], pair);
      InvolvedTookPart(uuid, steps[1..], pair);
      if TookPart(uuid, steps, pair) && !TookPartStep(uuid, steps[0], pair) {
        var i :| 0 <= i < |steps| && TookPartStep(uuid, steps[i], pair);
        assert steps[1..][i - 1] == steps[i];
      }
      if TookPart(uuid, steps[1..], pair) {
        var i :| 0 <= i < |steps| - 1 && TookPartStep(uuid, steps[1..][i], pair);
        assert steps[i + 1] == steps[1..][i];
      }
    }
  }

  lemma {:induction false} InvolvedStepTookPart<C>(uuid: Uuid, step: StepExec<C>, pair: Pair)
    ensures pair in InvolvedStep(uuid, step) <==> TookPartStep(uuid, step, pair)
    decreases step
  {
    if step.def.Conditional? && step.inner.Some? { InvolvedTookPart(step.inner.value.uuid, step.inner.value.executed, pair); }
  }

  // ---------------------------------------------------------------- the order of pairs

  predicate TextBelow(a: string, b: string) {
    if a == [] then b != []
    else b != [] && (a[0] < b[0] || (a[0] == b[0] && TextBelow(a[1..], b[1..])))
  }

  predicate Below(a: Pair, b: Pair) {
    a.uuid < b.uuid || (a.uuid == b.uuid && TextBelow(a.service, b.service))
  }

  predicate Ascending(s: seq<Pair>) {
    forall i, j :: 0 <= i < j < |s| ==> Below(s[i], s[j])
  }

  lemma {:induction false} TextOrder(a: string, b: string)
    ensures TextBelow(a, b) || a == b || TextBelow(b, a)
    ensures !(TextBelow(a, b) && TextBelow(b, a)) && !TextBelow(a, a)
    decreases |a|
  {
    if a != [] {
      TextOrder(a[1..], a[1..]);
      if b != [] {
        TextOrder(a[1..], b[1..]);
        if a[0] == b[0] && a[1..] == b[1..] { assert a == [a[0]] + a[1..] && b == [b[0]] + b[1..]; }
      }
    }
  }

  lemma {:induction false} TextChain(a: string, b: string, c: string)
    requires TextBelow(a, b) && TextBelow(b, c)
    ensures TextBelow(a, c)
    decreases |a|
  {
    if a != [] && a[0] == b[0] && b[0] == c[0] { TextChain(a[1..], b[1..], c[1..]); }
  }

  lemma {:induction false} BelowChain(a: Pair, b: Pair, c: Pair)
    requires Below(a, b) && Below(b, c)
    ensures Below(a, c)
  {
    if a.uuid == b.uuid == c.uuid { TextChain(a.service, b.service, c.service); }
  }

  /** An ascending list has no element twice, and there is one such list for every set. */
  lemma {:induction false} AscendingIsUnique(s: seq<Pair>, t: seq<Pair>)
    requires Ascending(s) && Ascending(t) && SetOf(s) == SetOf(t)
    ensures s == t
    decreases |s|
  {
    assert (s == [] <==> SetOf(s) == {}) && (t == [] <==> SetOf(t) == {}) by {
      assert (s != [] ==> s[0] in SetOf(s)) && (t != [] ==> t[0] in SetOf(t));
    }
    if s != [] {
      assert s[0] in SetOf(t) && t[0] in SetOf(s);
      var i :| 0 <= i < |s| && s[i] == t[0];
      var j :| 0 <= j < |t| && t[j] == s[0];
      TextOrder(s[0].service, t[0].service);
      assert s[0] == t[0];
      forall p ensures p in s[1..] <==> p in t[1..] {
        FirstIsApart(s);
        FirstIsApart(t);
        assert p in SetOf(s) <==> p in SetOf(t);
      }
      AscendingIsUnique(s[1..], t[1..]);
      assert s == [s[0]] + s[1..] && t == [t[0]] + t[1..];
    }
  }

  lemma {:induction false} FirstIsApart(s: seq<Pair>)
    requires Ascending(s) && s != []
    ensures s[0] !in s[1..] && forall p :: p in s <==> p == s[0] || p in s[1..]
  {
    TextOrder(s[0].service, s[0].service);
    assert s == [s[0]] + s[1..];
  }

  // ---------------------------------------------------------------- collecting and sorting

  /** `_fn`: appends the pairs not met before, going down into conditionals. */
  method Collect<C>(uuid: Uuid, steps: seq<StepExec<C>>, transactions: seq<Pair>, uniques: set<Pair>)
    returns (all: seq<Pair>, met: set<Pair>)
    requires SetOf(transactions) == uniques && Distinct(transactions)
    ensures SetOf(all) == met == uniques + Involved(uuid, steps) && Distinct(all)
    decreases steps
  {
    all, met := transactions, uniques;
    for k := 0 to |steps|
      invariant SetOf(all) == met && Distinct(all)
      invariant met + Involved(uuid, steps[k..]) == uniques + Involved(uuid, steps)
    {
      var step := steps[k];
      assert steps[k..][0] == step && steps[k..][1..] == steps[k + 1..];
      all, met := CollectStep(uuid, step, all, met);
    }
    assert steps[|steps|..] == [];
  }

  method CollectStep<C>(uuid: Uuid, step: StepExec<C>, transactions: seq<Pair>, uniques: set<Pair>) returns (all: seq<Pair>, met: set<Pair>)
    requires SetOf(transactions) == uniques && Distinct(transactions)
    ensures SetOf(all) == met == uniques + InvolvedStep(uuid, step) && Distinct(all)
    decreases step
  {
    all, met := transactions, uniques;
    if step.def.Conditional? {
      if step.inner.Some? {
        all, met := Collect(step.inner.value.uuid, step.inner.value.executed, all, met);
      }
    } else {
      all, met := CollectServices(uuid, step.related, all, met);
    }
  }

  predicate Distinct(s: seq<Pair>) {
    forall i, j :: 0 <= i < j < |s| ==> s[i] != s[j]
  }

  method CollectServices(uuid: Uuid, services: set<string>, transactions: seq<Pair>, uniques: set<Pair>)
    returns (all: seq<Pair>, met: set<Pair>)
    requires SetOf(transactions) == uniques && Distinct(transactions)
    ensures SetOf(all) == met == uniques + (set service | service in services :: Pair(uuid, service)) && Distinct(all)
  {
    all, met := transactions, uniques;
    var left := services;
    while left != {}
      invariant left <= services && SetOf(all) == met && Distinct(all)
      invariant met + (set service | service in left :: Pair(uuid,
                                                             service)) == uniques + (set service | service in services :: Pair(uuid,
                                                                 service))
      decreases |left|
    {
      var service :| service in left;
      var pair := Pair(uuid, service);
      left := left - {service};
      if pair !in met {
        assert pair !in all by { assert pair in all ==> pair in SetOf(all); }
        all, met := all + [pair], met + {pair};
      }
    }
  }

  method Sort(s: seq<Pair>) returns (r: seq<Pair>)
    requires Distinct(s)
    ensures Ascending(r) && SetOf(r) == SetOf(s) && |r| == |s|
  {
    r := [];
    for k := 0 to |s|
      invariant Ascending(r) && SetOf(r) == SetOf(s[..k]) && |r| == k
    {
      assert s[k] in r <==> s[k] in SetOf(s[..k]) by { assert s[k] in r <==> s[k] in SetOf(r); }
      assert s[..k + 1] == s[..k] + [s[k]];
      var r' := Insert(r, s[k]);
      assert SetOf(r') == SetOf(s[..k]) + {s[k]};
      r := r';
    }
    assert s[..|s|] == s;
  }

  method Insert(s: seq<Pair>, p: Pair) returns (r: seq<Pair>)
    requires Ascending(s) && p !in s
    ensures Ascending(r) && SetOf(r) == SetOf(s) + {p} && |r| == |s| + 1
  {
    var i := 0;
    while i < |s| && Below(s[i], p)
      invariant 0 <= i <= |s|
      invariant forall j :: 0 <= j < i ==> Below(s[j], p)
    {
      i := i + 1;
    }
    r := s[..i] + [p] + s[i..];
    if i < |s| {
      TextOrder(s[i].service, p.service);
      assert Below(p, s[i]);
      forall j | i < j < |s| ensures Below(p, s[j]) { BelowChain(p, s[i], s[j]); }
    }
    assert forall q :: q in r <==> q in s[..i] || q == p || q in s[i..];
    assert s == s[..i] + s[i..];
  }

  /** `TransactionCommitter.transactions`: the participants, each once, in order. */
  method Transactions<C>(uuid: Uuid, steps: seq<StepExec<C>>) returns (r: seq<Pair>)
    ensures Ascending(r) && forall pair :: pair in r <==> TookPart(uuid, steps, pair)
  {
    forall pair: Pair ensures pair in Involved(uuid, steps) <==> TookPart(uuid, steps, pair) { InvolvedTookPart(uuid, steps, pair); }
    var all, _ := Collect(uuid, steps, [], {});
    r := Sort(all);
    assert forall pair: Pair :: pair in r <==> pair in SetOf(r);
  }
}
