/**
  Pausing inside conditionals. An execution that takes its replies as they are needed, and never
  forgets a context, is what the driving loop shows as long as the inner contexts at a pause are the
  outer one.
 */
module SagaTransparency {
  import opened Wrappers
  import opened SagaModel
  import opened SagaCompensation
  import opened SagaManager

  // ---------------------------------------------------------------- running through

  /** Some result, and the replies that are left. */
  datatype Taking<R> = Taking(result: R, left: seq<Response>)

  /** The first execution of a step that waits only if there are no replies. */
  function ThroughFresh<C>(env: Env<C>, def: StepDef, uuid: Uuid, user: Option<Uuid>, context: C,
                           replies: seq<Response>): Taking<StepResult<C>>
    decreases def, 0
  {
    match def
    case Local(_, _) => Taking(Fresh(env, def, uuid, user, context), replies)
    case Remote(_, _, _, _) =>
      var r := Fresh(env, def, uuid, user, context);
      if r.outcome.StepPaused? && replies != [] then
        var a := Answer(env, r.step, context, replies[0]);
        Taking(a.(trace := r.trace + a.trace), replies[1..])
      else Taking(r, replies)
    case Conditional(ifThen, elseThen) =>
      var step: StepExec<C> := NewStep<C>(def).(related := {env.service});
      var i := FirstHolding(env, ifThen, context, 0);
      if i.None? && elseThen.None? then Taking(StepResult(step.(status := StepFinished), Done(context), [], []), replies)
      else
        var saga := if i.Some? then ifThen[i.value].saga else elseThen.value;
        assert i.Some? ==> ifThen[i.value] in ifThen;
        var r := ThroughPending(env, NewExec(saga, uuid, user, context).(status := Running), saga.steps, replies);
        Taking(Concluded(step, r.result), r.left)
  }

  function ThroughPending<C>(env: Env<C>, x: Exec<C>, pending: seq<StepDef>, replies: seq<Response>): Taking<ExecResult<C>>
    decreases pending, 0
  {
    if pending == [] then Taking(ExecResult(x.(status := Finished), Completed, [], []), replies)
    else
      var r := ThroughFresh(env, pending[0], x.uuid, x.user, x.context, replies);
      if !r.result.outcome.Done? then Taking(Settle(env, x, r.result), r.left)
      else Later(r.result.trace, ThroughPending(env, Advance(x, r.result.step, r.result.outcome.context), pending[1..], r.left))
  }

  function Later<C>(trace: seq<Call<C>>, t: Taking<ExecResult<C>>): Taking<ExecResult<C>> {
    t.(result := t.result.(trace := trace + t.result.trace))
  }

  function LaterStep<C>(trace: seq<Call<C>>, t: Taking<StepResult<C>>): Taking<StepResult<C>> {
    t.(result := t.result.(trace := trace + t.result.trace))
  }

  /** A paused step goes on with the context it had, at every depth. */
  function ThroughResume<C>(env: Env<C>, step: StepExec<C>, context: C, replies: seq<Response>): Taking<StepResult<C>>
    decreases step, 1
  {
    match step.def
    case Local(_, _) => Taking(StepResult(step, Done(context), [], []), replies)
    case Remote(_, _, _, _) =>
      if replies == [] then Taking(StepResult(step.(status := PausedByOnExecute), StepPaused, [], []), replies)
      else Taking(Answer(env, step, context, replies[0]), replies[1..])
    case Conditional(_, _) =>
      if step.inner.None? then Taking(StepResult(step.(status := StepFinished), Done(context), [], []), replies)
      else
        var r := ThroughExec(env, step.inner.value, replies);
        Taking(Concluded(step, r.result), r.left)
  }

  function ThroughExec<C>(env: Env<C>, x: Exec<C>, replies: seq<Response>): Taking<ExecResult<C>>
    decreases x, 1
  {
    var running := x.(status := Running);
    if x.paused.None? then ThroughPending(env, running, Remaining(x), replies)
    else
      var r := ThroughResume(env, x.paused.value, x.context, replies);
      if !r.result.outcome.Done? then Taking(Settle(env, running, r.result), r.left)
      else
        var next := Advance(running, r.result.step, r.result.outcome.context);
        Later(r.result.trace, ThroughPending(env, next, Remaining(next), r.left))
  }

  // ---------------------------------------------------------------- without replies

  /** Without replies, running through is running up to the first pause. */
  lemma {:induction false} FreshWithout<C>(env: Env<C>, def: StepDef, uuid: Uuid, user: Option<Uuid>, context: C)
    ensures ThroughFresh(env, def, uuid, user, context, []) == Taking(Fresh(env, def, uuid, user, context), [])
    decreases def, 0
  {
    hide RunPending, ThroughPending, FirstHolding;
    if def.Conditional? {
      var i := FirstHolding(env, def.ifThen, context, 0);
      if i.Some? || def.elseThen.Some? {
        var saga := if i.Some? then def.ifThen[i.value].saga else def.elseThen.value;
        assert i.Some? ==> def.ifThen[i.value] in def.ifThen;
        PendingWithout(env, NewExec(saga, uuid, user, context).(status := Running), saga.steps);
      }
    }
  }

  lemma {:induction false} PendingWithout<C>(env: Env<C>, x: Exec<C>, pending: seq<StepDef>)
    ensures ThroughPending(env, x, pending, []) == Taking(RunPending(env, x, pending), [])
    decreases pending, 0
  {
    hide Fresh, ThroughFresh, Settle;
    if pending != [] {
      FreshWithout(env, pending[0], x.uuid, x.user, x.context);
      var r := Fresh(env, pending[0], x.uuid, x.user, x.context);
      if r.outcome.Done? { PendingWithout(env, Advance(x, r.step, r.outcome.context), pending[1..]); }
    }
  }

  // ---------------------------------------------------------------- stopping and going on

  /** A paused step that can be resumed: a remote one, or a conditional whose inner execution is parked. */
  predicate ParkedStep<C>(step: StepExec<C>)
    decreases step
  {
    (step.def.Remote? && step.inner.None?) || (step.def.Conditional? && step.inner.Some? && Parked(step.inner.value))
  }

  predicate Parked<C>(x: Exec<C>)
    decreases x
  {
    x.status == Paused && x.paused.Some? && ParkedStep(x.paused.value)
  }

  /** What running through with more replies is, given what it is with some: it goes on where it stopped. */
  ghost predicate StepGoesOn<C>(env: Env<C>, context: C, some: Taking<StepResult<C>>, more: seq<Response>, all: Taking<StepResult<C>>) {
    if some.result.outcome.StepPaused? then
      some.left == [] && ParkedStep(some.result.step) && all == LaterStep(some.result.trace,
                                                                          ThroughResume(env, some.result.step, context, more))
    else all == Taking(some.result, some.left + more)
  }

  ghost predicate ExecGoesOn<C>(env: Env<C>, some: Taking<ExecResult<C>>, more: seq<Response>, all: Taking<ExecResult<C>>) {
    if some.result.outcome == PausedRun then
      some.left == [] && Parked(some.result.exec) && all == Later(some.result.trace, ThroughExec(env, some.result.exec, more))
    else all == Taking(some.result, some.left + more)
  }

  lemma {:induction false} ConcludedLater<C>(step: StepExec<C>, r: ExecResult<C>, trace: seq<Call<C>>, inner: Option<Exec<C>>,
                                             status: StepStatus)
    ensures Concluded(step.(inner := inner, status := status), r) == Concluded(step, r)
    ensures var c := Concluded(step, r); Concluded(step, r.(trace := trace + r.trace)) == c.(trace := trace + c.trace)
  {
  }

  /** A conditional goes on where its inner execution goes on. */
  lemma {:induction false} ConcludedGoesOn<C>(env: Env<C>, step: StepExec<C>, context: C, some: Taking<ExecResult<C>>, more: seq<Response>,
                                              all: Taking<ExecResult<C>>)
    requires step.def.Conditional? && ExecGoesOn(env, some, more, all)
    ensures StepGoesOn(env, context, Taking(Concluded(step, some.result), some.left), more, Taking(Concluded(step, all.result), all.left))
  {
    hide ThroughExec, Concluded, Parked;
    ConcludedPauses(step, some.result);
    if some.result.outcome == PausedRun {
      var r := ThroughExec(env, some.result.exec, more);
      ConcludedLater(step, r.result, some.result.trace, Some(some.result.exec), PausedByOnExecute);
    }
  }

  lemma {:induction false} ConcludedPauses<C>(step: StepExec<C>, r: ExecResult<C>)
    ensures Concluded(step, r).outcome.StepPaused? <==> r.outcome == PausedRun
    ensures r.outcome == PausedRun ==>
              Concluded(step, r).step == step.(inner := Some(r.exec), status := PausedByOnExecute) && Concluded(step, r).trace == r.trace
  {
  }

  /** An execution that stopped at a step goes on with that step. */
  lemma {:induction false} PausedGoesOn<C>(env: Env<C>, x: Exec<C>, r: StepResult<C>, more: seq<Response>)
    requires x.status == Running && r.outcome.StepPaused?
    ensures var next := ThroughResume(env, r.step, x.context, more);
            Later(r.trace, ThroughExec(env, Settle(env, x, r).exec, more)) ==
            if !next.result.outcome.Done? then Taking(Settle(env, x, LaterStep(r.trace, next).result), next.left)
            else
              var y := Advance(x, next.result.step, next.result.outcome.context);
              Later(r.trace + next.result.trace, ThroughPending(env, y, Remaining(y), next.left))
  {
    hide ThroughResume, ThroughPending, RollbackExec;
    var running := x.(paused := Some(r.step));
    assert running == Settle(env, x, r).exec.(status := Running);
    var next := ThroughResume(env, r.step, x.context, more);
    if next.result.outcome.Done? {
      var y := Advance(x, next.result.step, next.result.outcome.context);
      assert Advance(running, next.result.step, next.result.outcome.context) == y;
      var rest := ThroughPending(env, y, Remaining(y), next.left);
      assert r.trace + (next.result.trace + rest.result.trace) == (r.trace + next.result.trace) + rest.result.trace;
    } else {
      RollbackIgnoresPaused(env, running, x.context);
      RollbackIgnoresPaused(env, x, x.context);
      assert running.(paused := None) == x.(paused := None);
      var undo := RollbackExec(env, x, x.context);
      assert r.trace + (next.result.trace + undo.trace) == (r.trace + next.result.trace) + undo.trace;
    }
  }

  lemma {:induction false} FreshGoesOn<C>(env: Env<C>, def: StepDef, uuid: Uuid, user: Option<Uuid>, context: C, some: seq<Response>,
                                          more: seq<Response>)
    requires more != []
    ensures StepGoesOn(env, context, ThroughFresh(env, def, uuid, user, context, some), more,
                       ThroughFresh(env, def, uuid, user, context, some + more))
    decreases def, 0
  {
    hide ThroughPending, FirstHolding, RollbackStep, Concluded;
    match def {
      case Local(_, _) =>
      case Remote(_, _, _, _) =>
        if some == [] { assert some + more == more; } else { assert (some + more)[1..] == some[1..] + more; }
      case Conditional(ifThen, elseThen) =>
        var i := FirstHolding(env, ifThen, context, 0);
        if i.Some? || elseThen.Some? {
          var saga := if i.Some? then ifThen[i.value].saga else elseThen.value;
          assert i.Some? ==> ifThen[i.value] in ifThen;
          var x := NewExec(saga, uuid, user, context).(status := Running);
          assert saga.steps[0..] == saga.steps;
          PendingGoesOn(env, x, saga.steps, some, more);
          ConcludedGoesOn(env, NewStep<C>(def).(related := {env.service}), context, ThroughPending(env, x, saga.steps, some), more,
                          ThroughPending(env, x, saga.steps, some + more));
        }
    }
  }

  lemma {:induction false} PendingGoesOn<C>(env: Env<C>, x: Exec<C>, pending: seq<StepDef>, some: seq<Response>, more: seq<Response>)
    requires more != [] && x.status == Running && pending == Remaining(x)
    ensures ExecGoesOn(env, ThroughPending(env, x, pending, some), more, ThroughPending(env, x, pending, some + more))
    decreases pending, 0
  {
    hide ThroughFresh, ThroughExec, ThroughResume, RollbackExec, ParkedStep;
    if pending != [] {
      FreshGoesOn(env, pending[0], x.uuid, x.user, x.context, some, more);
      var r := ThroughFresh(env, pending[0], x.uuid, x.user, x.context, some);
      if r.result.outcome.StepPaused? {
        PausedGoesOn(env, x, r.result, more);
        var next := ThroughResume(env, r.result.step, x.context, more);
        if next.result.outcome.Done? {
          var y := Advance(x, next.result.step, next.result.outcome.context);
          assert Remaining(y) == pending[1..];
        }
      } else if r.result.outcome.Done? {
        var y := Advance(x, r.result.step, r.result.outcome.context);
        assert Remaining(y) == pending[1..];
        PendingGoesOn(env, y, pending[1..], r.left, more);
        LaterGoesOn(env, r.result.trace, ThroughPending(env, y, pending[1..], r.left), more,
                    ThroughPending(env, y, pending[1..], r.left + more));
      }
    }
  }

  lemma {:induction false} LaterGoesOn<C>(env: Env<C>, trace: seq<Call<C>>, some: Taking<ExecResult<C>>, more: seq<Response>,
                                          all: Taking<ExecResult<C>>)
    requires ExecGoesOn(env, some, more, all)
    ensures ExecGoesOn(env, Later(trace, some), more, Later(trace, all))
  {
    hide ThroughExec, Parked;
    if some.result.outcome == PausedRun {
      var r := ThroughExec(env, some.result.exec, more);
      assert trace + (some.result.trace + r.result.trace) == (trace + some.result.trace) + r.result.trace;
    }
  }

  lemma {:induction false} ResumeGoesOn<C>(env: Env<C>, step: StepExec<C>, context: C, some: seq<Response>, more: seq<Response>)
    requires ParkedStep(step) && some != [] && more != []
    ensures StepGoesOn(env, context, ThroughResume(env, step, context, some), more, ThroughResume(env, step, context, some + more))
    decreases step, 1
  {
    hide ThroughExec, RollbackStep, Concluded;
    if step.def.Remote? {
      assert (some + more)[1..] == some[1..] + more;
    } else {
      ThroughGoesOn(env, step.inner.value, some, more);
      ConcludedGoesOn(env, step, context, ThroughExec(env, step.inner.value, some), more, ThroughExec(env, step.inner.value, some + more));
    }
  }

  /** Replies may come all at once or in parts. */
  lemma {:induction false} ThroughGoesOn<C>(env: Env<C>, x: Exec<C>, some: seq<Response>, more: seq<Response>)
    requires Parked(x) && some != [] && more != []
    ensures ExecGoesOn(env, ThroughExec(env, x, some), more, ThroughExec(env, x, some + more))
    decreases x, 1
  {
    hide ThroughPending, ThroughResume, RollbackExec, ParkedStep;
    var running := x.(status := Running);
    ResumeGoesOn(env, x.paused.value, x.context, some, more);
    var r := ThroughResume(env, x.paused.value, x.context, some);
    if r.result.outcome.StepPaused? {
      PausedGoesOn(env, running, r.result, more);
    } else if r.result.outcome.Done? {
      var next := Advance(running, r.result.step, r.result.outcome.context);
      PendingGoesOn(env, next, Remaining(next), r.left, more);
      LaterGoesOn(env, r.result.trace, ThroughPending(env, next, Remaining(next), r.left), more,
                  ThroughPending(env, next, Remaining(next), r.left + more));
    }
  }

  // ---------------------------------------------------------------- the loop

  /** At the pause, every inner execution has the context of the outer one. */
  predicate Aligned<C(==)>(x: Exec<C>)
    decreases x
  {
    x.paused.Some? && x.paused.value.inner.Some? ==>
      x.paused.value.inner.value.context == x.context && Aligned(x.paused.value.inner.value)
  }

  /** What one reply does to a parked and aligned execution is what running through does. */
  lemma {:induction false} AlignedResume<C>(env: Env<C>, step: StepExec<C>, context: C, reply: Response)
    requires ParkedStep(step) && (step.inner.Some? ==> step.inner.value.context == context && Aligned(step.inner.value))
    ensures ThroughResume(env, step, context, [reply]) == Taking(Resume(env, step, context, Some(reply)), [])
    decreases step, 1
  {
    hide Execute, ThroughExec, Answer;
    if step.def.Conditional? {
      AlignedExecute(env, step.inner.value, reply);
      assert step.inner.value.(context := context) == step.inner.value;
    }
  }

  lemma {:induction false} AlignedExecute<C>(env: Env<C>, x: Exec<C>, reply: Response)
    requires Parked(x) && Aligned(x)
    ensures ThroughExec(env, x, [reply]) == Taking(Execute(env, x, x, Some(reply)), [])
    decreases x, 1
  {
    hide Resume, ThroughResume, RunPending, ThroughPending, Settle;
    AlignedResume(env, x.paused.value, x.context, reply);
    var r := Resume(env, x.paused.value, x.context, Some(reply));
    if r.outcome.Done? {
      var next := Advance(x.(status := Running), r.step, r.outcome.context);
      PendingWithout(env, next, Remaining(next));
    }
  }

  /** How the loop ends with a result: a pause without a reply is a failure. */
  function EndOf<C>(r: ExecResult<C>): Driven<C> {
    match r.outcome
    case Completed => Driven(r.exec, Ended, r.trace, [], 0)
    case PausedRun => Driven(r.exec.(status := Errored), ReplyLost, r.trace, [], 0)
    case _ => Driven(r.exec, Raised(r.outcome), r.trace, r.failing, 0)
  }

  /** At every pause for which there is a reply, the inner contexts are the outer one. */
  predicate AlwaysAligned<C(==)>(env: Env<C>, r: ExecResult<C>, replies: seq<Response>)
    decreases |replies|
  {
    r.outcome == PausedRun && replies != [] ==>
      Aligned(r.exec) && AlwaysAligned(env, Run(env, r.exec, Some(replies[0])), replies[1..])
  }

  lemma {:induction false} LoopIsThrough<C>(env: Env<C>, r: ExecResult<C>, replies: seq<Response>)
    requires r.outcome == PausedRun && Parked(r.exec) && replies != [] && AlwaysAligned(env, r, replies)
    ensures After(env, r, replies).(calls := 0) == EndOf(Later(r.trace, ThroughExec(env, r.exec, replies)).result)
    decreases |replies|
  {
    hide ThroughExec, Execute;
    var reply, rest := replies[0], replies[1..];
    var q := Run(env, r.exec, Some(reply));
    AlignedExecute(env, r.exec, reply);
    if rest == [] {
      assert replies == [reply];
    } else {
      assert [reply] + rest == replies;
      ThroughGoesOn(env, r.exec, [reply], rest);
      if q.outcome == PausedRun { LoopIsThrough(env, q, rest); }
    }
    AfterLater(env, r, q, rest);
  }

  lemma {:induction false} AfterLater<C>(env: Env<C>, r: ExecResult<C>, q: ExecResult<C>, rest: seq<Response>)
    requires r.outcome == PausedRun && r.exec.status == Paused
    ensures forall reply :: Run(env, r.exec, Some(reply)) == q ==>
              After(env, r, [reply] + rest) == After(env, q, rest).(trace := r.trace + After(env, q, rest).trace,
                                                                    calls := After(env, q, rest).calls + 1)
  {
    hide Run;
    forall reply | Run(env, r.exec, Some(reply)) == q
      ensures After(env, r, [reply] + rest) == After(env, q, rest).(trace := r.trace + After(env, q, rest).trace,
                                                                    calls := After(env, q, rest).calls + 1)
    {
      assert ([reply] + rest)[1..] == rest;
    }
  }

  /**
    Transparency through conditionals: a saga of any shape, driven through its pauses, runs as if it never
    stopped, if at every pause the inner contexts are the outer one.
   */
  lemma {:induction false} AlignedPausesAreTransparent<C>(env: Env<C>, saga: Saga, uuid: Uuid, user: Option<Uuid>, context: C,
                                                          response: Option<Response>, replies: seq<Response>)
    requires AlwaysAligned(env, Run(env, NewExec(saga, uuid, user, context), response), replies)
    ensures var x := NewExec(saga, uuid, user, context);
            Drive(env, x, response, replies).(calls := 0) == EndOf(ThroughPending(env, x.(status := Running), saga.steps, replies).result)
  {
    hide ThroughPending, RunPending, ThroughExec;
    var x := NewExec(saga, uuid, user, context);
    var running := x.(status := Running);
    assert saga.steps[0..] == saga.steps;
    var r := RunPending(env, running, saga.steps);
    assert Run(env, x, response) == r;
    PendingWithout(env, running, saga.steps);
    if replies != [] {
      PendingGoesOn(env, running, saga.steps, [], replies);
      assert [] + replies == replies;
      if r.outcome == PausedRun { LoopIsThrough(env, r, replies); }
    }
  }

  // ---------------------------------------------------------------- where pauses are seen

  /** Callbacks that change nothing and never raise. */
  function Mild<C>(): Env<C> {
    Env("", (op, context) => Some(context), (op, context) => true, (op, context, reply) => Some(context), (op, context) => true,
        (op, context) => Some(context), (op, context) => true)
  }

  /** Local callbacks count; nothing else changes the context. */
  function Counting(): Env<int> { Mild<int>().(local := (op, context) => Some(context + 1)) }

  const InnerSaga := Saga([Local(Some(1), None), Remote(Some(2), None, None, None)], true)

  /** A conditional that counts once and then waits for a reply. */
  const OuterSaga := Saga([Conditional([Alternative(0, InnerSaga)], None)], true)

  /** The inner execution, stopped after it has counted. */
  function StoppedInner(uuid: Uuid): Exec<int> {
    var counted: StepExec<int> := StepExec(InnerSaga.steps[0], {""}, StepFinished, false, None);
    var waiting: StepExec<int> := StepExec(InnerSaga.steps[1], {""}, PausedByOnExecute, false, None);
    Exec(InnerSaga, uuid, 1, Paused, [counted], Some(waiting), false, None)
  }

  function StoppedOuter(uuid: Uuid): Exec<int> {
    Exec(OuterSaga, uuid, 0, Paused, [], Some(StepExec(OuterSaga.steps[0], {""}, PausedByOnExecute, false, Some(StoppedInner(uuid)))),
         false, None)
  }

  lemma {:induction false} InnerStops(uuid: Uuid)
    ensures var r := RunPending(Counting(), NewExec(InnerSaga, uuid, None, 0).(status := Running), InnerSaga.steps);
            r.outcome == PausedRun && r.exec == StoppedInner(uuid)
  {
    var env := Counting();
    var x := NewExec<int>(InnerSaga, uuid, None, 0).(status := Running);
    var r := Fresh(env, InnerSaga.steps[0], uuid, None, 0);
    assert r.outcome == Done(1);
    var y := Advance(x, r.step, 1);
    var q := Fresh(env, InnerSaga.steps[1], uuid, None, 1);
    assert InnerSaga.steps[1..] == [InnerSaga.steps[1]];
    assert RunPending(env, y, [InnerSaga.steps[1]]).exec == Settle(env, y, q).exec;
  }

  lemma {:induction false} OuterStops(uuid: Uuid, response: Option<Response>)
    ensures var r := Run(Counting(), NewExec(OuterSaga, uuid, None, 0), response); r.outcome == PausedRun && r.exec == StoppedOuter(uuid)
  {
    hide RunPending;
    InnerStops(uuid);
    var env := Counting();
    var x := NewExec<int>(OuterSaga, uuid, None, 0);
    var running := x.(status := Running);
    assert FirstHolding(env, OuterSaga.steps[0].ifThen, 0, 0) == Some(0);
    var r := Fresh(env, OuterSaga.steps[0], uuid, None, 0);
    assert r.outcome.StepPaused? && r.step == StoppedOuter(uuid).paused.value;
    assert OuterSaga.steps[0..] == OuterSaga.steps;
    PendingStops(env, running, OuterSaga.steps);
  }

  lemma {:induction false} PendingStops<C>(env: Env<C>, x: Exec<C>, pending: seq<StepDef>)
    requires pending != [] && !Fresh(env, pending[0], x.uuid, x.user, x.context).outcome.Done?
    ensures RunPending(env, x, pending) == Settle(env, x, Fresh(env, pending[0], x.uuid, x.user, x.context))
  {
  }

  /** The last step of an execution completes it. */
  lemma {:induction false} LastAnswer<C>(env: Env<C>, x: Exec<C>, step: StepExec<C>, context: C)
    requires |x.executed| + 1 == |x.def.steps|
    ensures var next := Advance(x, step, context);
            RunPending(env, next, Remaining(next)) == ExecResult(next.(status := Finished), Completed, [], []) &&
            ThroughPending(env, next, Remaining(next), []) == Taking(ExecResult(next.(status := Finished), Completed, [], []), [])
  {
  }

  /** An execution that waits for the reply of its last step, which has no handlers, completes with the context it is run with. */
  lemma {:induction false} LastReply<C>(env: Env<C>, x: Exec<C>, bound: Exec<C>, reply: Response)
    requires x.status == Paused && x.paused == bound.paused && x.paused.Some? && |x.executed| + 1 == |x.def.steps|
    requires x.paused.value.def.Remote? && x.paused.value.def.onSuccess.None? && reply.status == Success
    ensures var r := Execute(env, x, bound, Some(reply)); r.outcome == Completed && r.exec.context == x.context
    ensures var t := ThroughExec(env, x, [reply]); t.result.outcome == Completed && t.result.exec.context == x.context && t.left == []
  {
    hide RunPending, ThroughPending;
    var step := x.paused.value;
    var a := Answer(env, step, x.context, reply);
    assert a.outcome == Done(x.context);
    assert Resume(env, step, x.context, Some(reply)) == a && ThroughResume(env, step, x.context, [reply]) == Taking(a, []);
    LastAnswer(env, x.(status := Running), a.step, x.context);
  }

  /** So does one whose last step is a conditional that completes. */
  lemma {:induction false} LastConditional<C>(env: Env<C>, x: Exec<C>, reply: Response)
    requires Parked(x) && x.paused.value.def.Conditional? && x.paused.value.inner.Some? && |x.executed| + 1 == |x.def.steps|
    ensures var inner := x.paused.value.inner.value;
            var a, b := Execute(env, inner.(context := x.context), inner, Some(reply)), ThroughExec(env, inner, [reply]);
            (a.outcome == Completed ==>
               var r := Run(env, x, Some(reply)); r.outcome == Completed && r.exec.context == a.exec.context) &&
            (b.result.outcome == Completed && b.left == [] ==>
               var t := ThroughExec(env, x, [reply]); t.result.outcome == Completed && t.result.exec.context == b.result.exec.context)
  {
    hide RunPending, ThroughPending;
    var step := x.paused.value;
    var inner := step.inner.value;
    var a, b := Execute(env, inner.(context := x.context), inner, Some(reply)), ThroughExec(env, inner, [reply]);
    assert Resume(env, step, x.context, Some(reply)) == Concluded(step, a);
    assert ThroughResume(env, step, x.context, [reply]) == Taking(Concluded(step, b.result), b.left);
    hide Execute, ThroughExec;
    LastAnswer(env, x.(status := Running), Concluded(step, a).step, a.exec.context);
    LastAnswer(env, x.(status := Running), Concluded(step, b.result).step, b.result.exec.context);
  }

  /** A pause that is seen: the inner count is lost, so the saga ends with 0 and not with 1. */
  lemma {:induction false} PauseIsSeen(uuid: Uuid, response: Option<Response>, reply: Response)
    requires reply.status == Success
    ensures var d := Drive(Counting(), NewExec(OuterSaga, uuid, None, 0), response, [reply]); d.ending == Ended && d.exec.context == 0
    ensures var r := ThroughPending(Counting(), NewExec(OuterSaga, uuid, None, 0).(status := Running), OuterSaga.steps, [reply]);
            r.result.outcome == Completed && r.result.exec.context == 1
  {
    hide RunPending, ThroughPending, ThroughExec, Execute, Counting;
    var env := Counting();
    var stopped, inner := StoppedOuter(uuid), StoppedInner(uuid);
    OuterStops(uuid, response);
    LastReply(env, inner.(context := 0), inner, reply);
    LastReply(env, inner, inner, reply);
    assert Parked(inner) by { assert ParkedStep(inner.paused.value); }
    assert Parked(stopped) by { assert ParkedStep(stopped.paused.value); }
    LastConditional(env, stopped, reply);
    DriveOnce(env, NewExec(OuterSaga, uuid, None, 0), response, reply);
    var running := NewExec<int>(OuterSaga, uuid, None, 0).(status := Running);
    assert OuterSaga.steps[0..] == OuterSaga.steps;
    FirstRun(env, OuterSaga, uuid, 0, response);
    PendingWithout(env, running, OuterSaga.steps);
    PendingGoesOn(env, running, OuterSaga.steps, [], [reply]);
    assert [] + [reply] == [reply];
  }

  lemma {:induction false} FirstRun<C>(env: Env<C>, saga: Saga, uuid: Uuid, context: C, response: Option<Response>)
    ensures Run(env, NewExec(saga, uuid, None, context), response) == RunPending(env,
                                                                                 NewExec(saga, uuid, None,
                                                                                         context).(status := Running), saga.steps)
  {
    hide RunPending;
    assert saga.steps[0..] == saga.steps;
  }

  lemma {:induction false} DriveOnce<C>(env: Env<C>, x: Exec<C>, response: Option<Response>, reply: Response)
    requires x.status == Created && Run(env, x, response).outcome == PausedRun && Run(env, x, response).exec.status == Paused
    ensures var q := Run(env, Run(env, x, response).exec, Some(reply));
            q.outcome == Completed ==> var d := Drive(env, x, response, [reply]); d.ending == Ended && d.exec == q.exec
  {
    hide Run;
    var r := Run(env, x, response);
    assert [reply][1..] == [];
    assert Drive(env, r.exec, Some(reply), []).exec == After(env, Run(env, r.exec, Some(reply)), []).exec;
    assert After(env, r, [reply]).exec == Drive(env, r.exec, Some(reply), []).exec;
  }
}
