/**
  What every call of `execute` keeps, and which compensations a failing saga calls: those of the
  completed steps, last first, through every nested conditional, each once.
 */
module SagaCompensation {
  import opened Wrappers
  import opened SagaModel

  // ---------------------------------------------------------------- the run invariant

  /** The executed steps carry the first steps of the definition, and a paused step carries the next one. */
  predicate Tracks<C>(x: Exec<C>)
    decreases x
  {
    ValidSaga(x.def) && |x.executed| <= |x.def.steps| &&
    (forall i :: 0 <= i < |x.executed| ==> x.executed[i].def == x.def.steps[i] && TracksStep(x.executed[i])) &&
    (x.paused.Some? ==> |x.executed| < |x.def.steps| && x.paused.value.def == x.def.steps[|x.executed|] && TracksStep(x.paused.value))
  }

  /** Only a conditional has an inner execution, of one of its own alternatives, and with an else it always has one. */
  predicate TracksStep<C>(step: StepExec<C>)
    decreases step
  {
    ValidStep(step.def) && step.status != StepCreated &&
    (step.def.Conditional? && step.def.elseThen.Some? ==> step.inner.Some?) &&
    (step.inner.Some? ==> step.def.Conditional? && Offers(step.def, step.inner.value.def) && Tracks(step.inner.value))
  }

  predicate Offers(def: StepDef, saga: Saga)
    requires def.Conditional?
  {
    def.elseThen == Some(saga) || exists i :: 0 <= i < |def.ifThen| && def.ifThen[i].saga == saga
  }

  /** An execution that has not failed. */
  predicate Live<C>(x: Exec<C>)
    decreases x
  {
    !x.alreadyRollback && x.status != Errored &&
    (forall i :: 0 <= i < |x.executed| ==> Complete(x.executed[i])) &&
    (x.status == Created ==> x.executed == []) &&
    (x.status == Paused <==> x.paused.Some?) &&
    (x.status == Finished ==> |x.executed| == |x.def.steps|) &&
    (x.paused.Some? ==> Waiting(x.paused.value))
  }

  predicate Complete<C>(step: StepExec<C>)
    decreases step
  {
    step.status == StepFinished && !step.alreadyRollback &&
    (step.inner.Some? ==> Live(step.inner.value) && step.inner.value.status == Finished)
  }

  predicate Waiting<C>(step: StepExec<C>)
    decreases step
  {
    step.status == PausedByOnExecute && !step.alreadyRollback && !step.def.Local? &&
    (step.def.Conditional? ==> step.inner.Some? && Live(step.inner.value) && step.inner.value.status == Paused)
  }

  // ---------------------------------------------------------------- the structure survives every call

  lemma {:induction false} RollbackStepTracks<C>(env: Env<C>, step: StepExec<C>, context: C)
    requires TracksStep(step)
    ensures TracksStep(RollbackStep(env, step, context).step)
    ensures RollbackStep(env, step, context).step.def == step.def
    decreases step, 0
  {
    if step.def.Conditional? && step.inner.Some? {
      RollbackExecTracks(env, step.inner.value, context);
    }
  }

  lemma {:induction false} RollbackListTracks<C>(env: Env<C>, steps: seq<StepExec<C>>, context: C)
    requires forall i :: 0 <= i < |steps| ==> TracksStep(steps[i])
    ensures forall i :: 0 <= i < |steps| ==> TracksStep(RollbackList(env, steps, context).steps[i])
    ensures forall i :: 0 <= i < |steps| ==> RollbackList(env, steps, context).steps[i].def == steps[i].def
    decreases steps, 0
  {
    hide TracksStep, RollbackStep;
    if steps != [] {
      var n := |steps| - 1;
      RollbackStepTracks(env, steps[n], context);
      RollbackListTracks(env, steps[..n], RollbackStep(env, steps[n], context).context);
    }
  }

  lemma {:induction false} RollbackExecTracks<C>(env: Env<C>, x: Exec<C>, context: C)
    requires Tracks(x)
    ensures Tracks(RollbackExec(env, x, context).exec)
    ensures RollbackExec(env, x, context).exec.def == x.def && RollbackExec(env, x, context).exec.paused == x.paused
    decreases x, 0
  {
    hide RollbackList, TracksStep;
    RollbackListTracks(env, x.executed, context);
  }

  lemma {:induction false} SettleTracks<C>(env: Env<C>, x: Exec<C>, r: StepResult<C>)
    requires Tracks(x) && !r.outcome.Done?
    requires TracksStep(r.step) && |x.executed| < |x.def.steps| && r.step.def == x.def.steps[|x.executed|]
    ensures Tracks(Settle(env, x, r).exec) && Settle(env, x, r).exec.def == x.def
  {
    hide RollbackExec, TracksStep;
    RollbackExecTracks(env, x, x.context);
  }

  lemma {:induction false} AdvanceTracks<C>(x: Exec<C>, step: StepExec<C>, context: C)
    requires Tracks(x) && TracksStep(step) && |x.executed| < |x.def.steps| && step.def == x.def.steps[|x.executed|]
    ensures Tracks(Advance(x, step, context))
    ensures Remaining(Advance(x, step, context)) == Remaining(x)[1..]
  {
  }

  lemma {:induction false} FreshTracks<C>(env: Env<C>, def: StepDef, uuid: Uuid, user: Option<Uuid>, context: C)
    requires ValidStep(def)
    ensures TracksStep(Fresh(env, def, uuid, user, context).step)
    ensures Fresh(env, def, uuid, user, context).step.def == def
    decreases def, 0
  {
    hide RunPending;
    if def.Conditional? {
      var i := FirstHolding(env, def.ifThen, context, 0);
      if i.Some? || def.elseThen.Some? {
        var saga := if i.Some? then def.ifThen[i.value].saga else def.elseThen.value;
        assert i.Some? ==> def.ifThen[i.value] in def.ifThen;
        var x := NewExec(saga, uuid, user, context).(status := Running);
        RunPendingTracks(env, x, saga.steps);
      }
    }
  }

  lemma {:induction false} RunPendingTracks<C>(env: Env<C>, x: Exec<C>, pending: seq<StepDef>)
    requires Tracks(x) && pending == Remaining(x) && x.paused.None?
    ensures Tracks(RunPending(env, x, pending).exec) && RunPending(env, x, pending).exec.def == x.def
    decreases pending, 0
  {
    hide Fresh, TracksStep, Settle;
    if pending != [] {
      assert pending[0] == x.def.steps[|x.executed|];
      FreshTracks(env, pending[0], x.uuid, x.user, x.context);
      var r := Fresh(env, pending[0], x.uuid, x.user, x.context);
      if r.outcome.Done? {
        AdvanceTracks(x, r.step, r.outcome.context);
        RunPendingTracks(env, Advance(x, r.step, r.outcome.context), pending[1..]);
      } else {
        SettleTracks(env, x, r);
      }
    }
  }

  lemma {:induction false} AnswerTracks<C>(env: Env<C>, step: StepExec<C>, context: C, response: Response)
    requires TracksStep(step) && step.def.Remote?
    ensures TracksStep(Answer(env, step, context, response).step)
    ensures Answer(env, step, context, response).step.def == step.def
  {
  }

  lemma {:induction false} ResumeTracks<C>(env: Env<C>, step: StepExec<C>, context: C, response: Option<Response>)
    requires TracksStep(step)
    ensures TracksStep(Resume(env, step, context, response).step)
    ensures Resume(env, step, context, response).step.def == step.def
    decreases step, 1
  {
    hide Execute, Answer;
    if step.def.Remote? && response.Some? { AnswerTracks(env, step, context, response.value); }
    if step.def.Conditional? && step.inner.Some? {
      ExecuteTracks(env, step.inner.value.(context := context), step.inner.value, response);
    }
  }

  lemma {:induction false} ExecuteTracks<C>(env: Env<C>, x: Exec<C>, bound: Exec<C>, response: Option<Response>)
    requires Tracks(x) && x.paused == bound.paused
    ensures Tracks(Execute(env, x, bound, response).exec) && Execute(env, x, bound, response).exec.def == x.def
    decreases bound, 1
  {
    hide RunPending, Resume, TracksStep, Settle;
    var running := x.(status := Running);
    if x.paused.None? {
      RunPendingTracks(env, running, Remaining(x));
    } else {
      ResumeTracks(env, bound.paused.value, x.context, response);
      var r := Resume(env, bound.paused.value, x.context, response);
      if r.outcome.Done? {
        AdvanceTracks(running, r.step, r.outcome.context);
        var next := Advance(running, r.step, r.outcome.context);
        RunPendingTracks(env, next, Remaining(next));
      } else {
        SettleTracks(env, running, r);
      }
    }
  }

  // ---------------------------------------------------------------- the compensations that are due

  function FailureOps<C>(trace: seq<Call<C>>): seq<Op> {
    if trace == [] then []
    else (if trace[0].kind == OnFailure then [trace[0].op] else []) + FailureOps(trace[1..])
  }

  function DueStep<C>(step: StepExec<C>): seq<Op>
    decreases step
  {
    if step.def.Conditional? then (if step.inner.Some? then Due(step.inner.value.executed) else [])
    else if step.def.onFailure.Some? then [step.def.onFailure.value] else []
  }

  /** Last step first. */
  function Due<C>(steps: seq<StepExec<C>>): seq<Op>
    decreases steps
  {
    if steps == [] then [] else DueStep(steps[|steps| - 1]) + Due(steps[..|steps| - 1])
  }

  /** A failing step compensates itself only if it is remote and failed to handle its reply. */
  function Own<C>(step: StepExec<C>): seq<Op> {
    if step.def.Remote? && (step.status == ErroredOnSuccess || step.status == ErroredOnError) && step.def.onFailure.Some?
    then [step.def.onFailure.value] else []
  }

  /** `failing` leads from the step that failed inwards: each conditional, then the step within it. */
  function DueOnFailure<C>(failing: seq<StepExec<C>>, executed: seq<StepExec<C>>): seq<Op>
    decreases |failing|
  {
    FailingDue(failing) + Due(executed)
  }

  function FailingDue<C>(failing: seq<StepExec<C>>): seq<Op>
    decreases |failing|, 0
  {
    if failing == [] then []
    else if |failing| == 1 then Own(failing[0])
    else FailingDue(failing[1..]) + (if failing[0].inner.Some? then Due(failing[0].inner.value.executed) else [])
  }

  /** `failing` is the next step of the saga, and, within a conditional, the next step of its inner execution. */
  predicate Path<C>(failing: seq<StepExec<C>>, x: Exec<C>)
    decreases |failing|
  {
    |failing| > 0 && |x.executed| < |x.def.steps| && failing[0].def == x.def.steps[|x.executed|] && PathStep(failing)
  }

  predicate PathStep<C>(failing: seq<StepExec<C>>)
    requires |failing| > 0
    decreases |failing|, 0
  {
    if failing[0].def.Conditional? then failing[0].inner.Some? && Path(failing[1..], failing[0].inner.value)
    else |failing| == 1
  }

  /** No compensation of the saga raises, at any depth. */
  ghost predicate Willing<C(!new)>(env: Env<C>, saga: Saga)
    decreases saga
  {
    forall i :: 0 <= i < |saga.steps| ==> WillingStep(env, saga.steps[i])
  }

  ghost predicate WillingStep<C(!new)>(env: Env<C>, def: StepDef)
    decreases def
  {
    match def
    case Local(_, onFailure) => onFailure.Some? ==> forall context :: env.undoLocal(onFailure.value, context).Some?
    case Remote(_, onFailure, _, _) => onFailure.Some? ==> forall context :: env.undoRequest(onFailure.value, context)
    case Conditional(ifThen, elseThen) =>
      (forall i :: 0 <= i < |ifThen| ==> Willing(env, ifThen[i].saga)) && (elseThen.Some? ==> Willing(env, elseThen.value))
  }

  /** No compensation raises inside a conditional. Outside of them it may. */
  ghost predicate Sheltered<C(!new)>(env: Env<C>, saga: Saga) {
    forall i :: 0 <= i < |saga.steps| ==> ShelteredStep(env, saga.steps[i])
  }

  ghost predicate ShelteredStep<C(!new)>(env: Env<C>, def: StepDef) {
    def.Conditional? ==> WillingStep(env, def)
  }

  lemma {:induction false} WillingIsSheltered<C(!new)>(env: Env<C>, saga: Saga)
    requires Willing(env, saga)
    ensures Sheltered(env, saga)
  {
    hide WillingStep;
  }

  lemma {:induction false} OfferedIsWilling<C(!new)>(env: Env<C>, def: StepDef, saga: Saga)
    requires def.Conditional? && WillingStep(env, def) && Offers(def, saga)
    ensures Willing(env, saga)
  {
    hide Willing;
  }

  predicate Flat(saga: Saga) {
    forall i :: 0 <= i < |saga.steps| ==> !saga.steps[i].Conditional?
  }

  predicate FlatSteps<C>(steps: seq<StepExec<C>>) {
    forall i :: 0 <= i < |steps| ==> !steps[i].def.Conditional?
  }

  lemma {:induction false} FailureOpsAppend<C>(a: seq<Call<C>>, b: seq<Call<C>>)
    ensures FailureOps(a + b) == FailureOps(a) + FailureOps(b)
  {
    if a == [] {
      assert a + b == b;
    } else {
      FailureOpsAppend(a[1..], b);
      var head := if a[0].kind == OnFailure then [a[0].op] else [];
      assert (a + b)[1..] == a[1..] + b && (a + b)[0] == a[0];
      assert head + (FailureOps(a[1..]) + FailureOps(b)) == (head + FailureOps(a[1..])) + FailureOps(b);
    }
  }

  lemma {:induction false} FailureOpsOne<C>(call: Call<C>)
    ensures FailureOps([call]) == if call.kind == OnFailure then [call.op] else []
    ensures FailureOps<C>([]) == []
  {
  }

  lemma {:induction false} DueLast<C>(steps: seq<StepExec<C>>, last: StepExec<C>)
    ensures Due(steps + [last]) == DueStep(last) + Due(steps)
  {
  }

  // ---------------------------------------------------------------- rollback calls what is due

  lemma {:induction false} RollbackStepCalls<C(!new)>(env: Env<C>, step: StepExec<C>, context: C)
    requires Complete(step) && TracksStep(step)
    requires ShelteredStep(env, step.def)
    ensures RollbackStep(env, step, context).result != RollbackRaised
    ensures WillingStep(env, step.def) ==> RollbackStep(env, step, context).result == Undone
    ensures FailureOps(RollbackStep(env, step, context).trace) == DueStep(step)
    ensures DueStep(RollbackStep(env, step, context).step) == DueStep(step)
    decreases step, 0
  {
    hide Live, Tracks, RollbackExec, Due, Willing, Sheltered;
    if step.def.Conditional? && step.inner.Some? {
      OfferedIsWilling(env, step.def, step.inner.value.def);
      WillingIsSheltered(env, step.inner.value.def);
      RollbackExecCalls(env, step.inner.value, context);
    }
  }

  lemma {:induction false} NothingToUndo<C>(env: Env<C>, context: C)
    ensures RollbackList(env, [], context) == ListUndo([], context, false, false, [])
    ensures FailureOps<C>([]) == [] && Due<C>([]) == []
  {
  }

  lemma {:induction false} RollbackListUnfolds<C>(env: Env<C>, steps: seq<StepExec<C>>, context: C)
    requires steps != [] && RollbackStep(env, steps[|steps| - 1], context).result != RollbackRaised
    ensures var last := RollbackStep(env, steps[|steps| - 1], context);
            var rest := RollbackList(env, steps[..|steps| - 1], last.context);
            RollbackList(env, steps, context)
            == ListUndo(rest.steps + [last.step], rest.context, rest.raised || last.result == StepRaised, rest.aborted,
                        last.trace + rest.trace)
  {
  }

  lemma {:induction false} RollbackListCalls<C(!new)>(env: Env<C>, steps: seq<StepExec<C>>, context: C)
    requires forall i :: 0 <= i < |steps| ==> Complete(steps[i]) && TracksStep(steps[i])
    requires forall i :: 0 <= i < |steps| ==> ShelteredStep(env, steps[i].def)
    ensures !RollbackList(env, steps, context).aborted
    ensures (forall i :: 0 <= i < |steps| ==> WillingStep(env, steps[i].def)) ==> !RollbackList(env, steps, context).raised
    ensures FailureOps(RollbackList(env, steps, context).trace) == Due(steps)
    ensures Due(RollbackList(env, steps, context).steps) == Due(steps)
    decreases steps, 0
  {
    hide Complete, TracksStep, RollbackStep, RollbackList, WillingStep, ShelteredStep, FailureOps, DueStep, Due;
    if steps == [] {
      NothingToUndo(env, context);
    } else {
      var n := |steps| - 1;
      RollbackStepCalls(env, steps[n], context);
      var last := RollbackStep(env, steps[n], context);
      RollbackListUnfolds(env, steps, context);
      RollbackListCalls(env, steps[..n], last.context);
      var rest := RollbackList(env, steps[..n], last.context);
      FailureOpsAppend(last.trace, rest.trace);
      DueLast(rest.steps, last.step);
      DueLast(steps[..n], steps[n]);
      assert steps[..n] + [steps[n]] == steps;
    }
  }

  lemma {:induction false} RollbackExecCalls<C(!new)>(env: Env<C>, x: Exec<C>, context: C)
    requires Live(x) && Tracks(x)
    requires Sheltered(env, x.def)
    ensures Willing(env, x.def) ==> RollbackExec(env, x, context).ok
    ensures RollbackExec(env, x, context).exec.alreadyRollback
    ensures FailureOps(RollbackExec(env, x, context).trace) == Due(x.executed)
    ensures Due(RollbackExec(env, x, context).exec.executed) == Due(x.executed)
    ensures |RollbackExec(env, x, context).exec.executed| == |x.executed|
    decreases x, 0
  {
    hide RollbackList, Complete, TracksStep, WillingStep, ShelteredStep;
    RollbackListCalls(env, x.executed, context);
  }

  /** A rolled back execution is not rolled back again. */
  lemma {:induction false} RolledBackOnce<C>(env: Env<C>, x: Exec<C>, context: C, again: C)
    requires !RollbackList(env, x.executed, context).aborted
    ensures RollbackExec(env, RollbackExec(env, x, context).exec, again).trace == []
    ensures !RollbackExec(env, RollbackExec(env, x, context).exec, again).ok
  {
  }

  // ---------------------------------------------------------------- execute calls what is due

  ghost predicate StepKeeps<C(!new)>(def: StepDef, r: StepResult<C>) {
    match r.outcome
    case Done(_) => Complete(r.step) && FailureOps(r.trace) == []
    case StepPaused => Waiting(r.step) && FailureOps(r.trace) == []
    case StepFailed => |r.failing| > 0 && r.failing[0].def == def && PathStep(r.failing) && FailureOps(r.trace) == FailingDue(r.failing)
    case StepBroken => false
  }

  /** What one call of `execute` does to an execution that has not failed. */
  ghost predicate ExecKeeps<C(!new)>(env: Env<C>, r: ExecResult<C>) {
    match r.outcome
    case Completed => Live(r.exec) && r.exec.status == Finished && FailureOps(r.trace) == []
    case PausedRun => Live(r.exec) && r.exec.status == Paused && FailureOps(r.trace) == []
    case Failed => r.exec.status == Errored && Compensated(r)
    case RollbackFailed => !Willing(env, r.exec.def) && Compensated(r)
    case _ => false
  }

  ghost predicate Compensated<C(!new)>(r: ExecResult<C>) {
    r.exec.alreadyRollback && Path(r.failing, r.exec) && FailureOps(r.trace) == DueOnFailure(r.failing, r.exec.executed)
  }

  lemma {:induction false} SettleCalls<C(!new)>(env: Env<C>, x: Exec<C>, r: StepResult<C>)
    requires Live(x.(paused := None)) && Tracks(x) && x.status == Running && !r.outcome.Done?
    requires |x.executed| < |x.def.steps| && StepKeeps(x.def.steps[|x.executed|], r)
    requires Sheltered(env, x.def)
    ensures ExecKeeps(env, Settle(env, x, r))
  {
    hide RollbackExec, Willing, Sheltered, Complete, Waiting, TracksStep, PathStep, FailureOps, FailingDue, Due;
    if r.outcome == StepFailed {
      RollbackIgnoresPaused(env, x, x.context);
      RollbackExecCalls(env, x.(paused := None), x.context);
      RollbackExecTracks(env, x, x.context);
      FailureOpsAppend(r.trace, RollbackExec(env, x, x.context).trace);
    }
  }

  lemma {:induction false} RollbackIgnoresPaused<C>(env: Env<C>, x: Exec<C>, context: C)
    ensures RollbackExec(env, x.(paused := None), context) == RollbackExec(env, x,
                                                                           context).(exec := RollbackExec(env, x,
                                                                               context).exec.(paused := None))
  {
  }

  lemma {:induction false} FreshCalls<C(!new)>(env: Env<C>, def: StepDef, uuid: Uuid, user: Option<Uuid>, context: C)
    requires ValidStep(def) && ShelteredStep(env, def)
    ensures StepKeeps(def, Fresh(env, def, uuid, user, context))
    decreases def, 0
  {
    hide RunPending, Live, Willing, Sheltered, FailureOps;
    if !def.Conditional? {
      FailureOpsOne(Call(OnExecute, def.onExecute.value, context));
    } else {
      FailureOpsOne(Call(OnExecute, 0, context));
      var i := FirstHolding(env, def.ifThen, context, 0);
      if i.Some? || def.elseThen.Some? {
        var saga := if i.Some? then def.ifThen[i.value].saga else def.elseThen.value;
        assert i.Some? ==> def.ifThen[i.value] in def.ifThen;
        NewExecStarts(saga, uuid, user, context);
        var x := NewExec(saga, uuid, user, context).(status := Running);
        OfferedIsWilling(env, def, saga);
        WillingIsSheltered(env, saga);
        RunPendingCalls(env, x, saga.steps);
        RunPendingTracks(env, x, saga.steps);
        ConcludedCalls(env, NewStep<C>(def).(related := {env.service}), RunPending(env, x, saga.steps));
      }
    }
  }

  lemma {:induction false} AdvanceLives<C>(x: Exec<C>, step: StepExec<C>, context: C)
    requires Live(x.(paused := None)) && x.status == Running && Complete(step)
    ensures Live(Advance(x, step, context))
  {
  }

  lemma {:induction false} NewExecStarts<C>(saga: Saga, uuid: Uuid, user: Option<Uuid>, context: C)
    requires ValidSaga(saga)
    ensures var x := NewExec(saga, uuid, user, context);
            Live(x) && Tracks(x) && Live(x.(status := Running)) && Tracks(x.(status := Running))
    ensures Remaining(NewExec(saga, uuid, user, context).(status := Running)) == saga.steps
  {
  }

  lemma {:induction false} ConcludedCalls<C(!new)>(env: Env<C>, step: StepExec<C>, r: ExecResult<C>)
    requires step.def.Conditional? && !step.alreadyRollback && Willing(env, r.exec.def) && ExecKeeps(env, r)
    ensures StepKeeps(step.def, Concluded(step, r))
  {
  }

  lemma {:induction false} RunPendingCalls<C(!new)>(env: Env<C>, x: Exec<C>, pending: seq<StepDef>)
    requires Live(x) && Tracks(x) && x.status == Running && pending == Remaining(x)
    requires Sheltered(env, x.def)
    ensures ExecKeeps(env, RunPending(env, x, pending))
    decreases pending, 0
  {
    hide Fresh, TracksStep, Settle, Complete, Willing, ShelteredStep, Waiting, Path, FailureOps, DueOnFailure;
    NothingToUndo(env, x.context);
    if pending != [] {
      assert pending[0] == x.def.steps[|x.executed|] && ShelteredStep(env, x.def.steps[|x.executed|]);
      FreshCalls(env, pending[0], x.uuid, x.user, x.context);
      FreshTracks(env, pending[0], x.uuid, x.user, x.context);
      var r := Fresh(env, pending[0], x.uuid, x.user, x.context);
      if r.outcome.Done? {
        AdvanceTracks(x, r.step, r.outcome.context);
        AdvanceLives(x, r.step, r.outcome.context);
        var next := Advance(x, r.step, r.outcome.context);
        RunPendingCalls(env, next, pending[1..]);
        FailureOpsAppend(r.trace, RunPending(env, next, pending[1..]).trace);
      } else {
        SettleCalls(env, x, r);
      }
    }
  }

  lemma {:induction false} OwnRollback<C>(env: Env<C>, step: StepExec<C>, context: C)
    requires step.def.Remote? && !step.alreadyRollback && (step.status == ErroredOnSuccess || step.status == ErroredOnError)
    ensures var r := RollbackStep(env, step, context); FailureOps(r.trace) == Own(step) == Own(r.step) && r.step.def == step.def
  {
  }

  lemma {:induction false} AnswerCalls<C(!new)>(env: Env<C>, step: StepExec<C>, context: C, response: Response)
    requires step.def.Remote? && Waiting(step) && TracksStep(step)
    ensures StepKeeps(step.def, Answer(env, step, context, response))
  {
    hide RollbackStep, FailureOps, Tracks, Due, DueStep;
    var success := response.status == Success;
    var op := if success then step.def.onSuccess else step.def.onError;
    FailureOpsOne(Call(OnError, 0, context));
    if response.status != SystemError && op.Some? {
      var call := Call(if success then OnSuccess else OnError, op.value, context);
      FailureOpsOne(call);
      var counted := step.(related := step.related + response.related + {env.service});
      var errored := counted.(status := if success then ErroredOnSuccess else ErroredOnError);
      OwnRollback(env, errored, context);
      FailureOpsAppend([call], RollbackStep(env, errored, context).trace);
    }
  }

  lemma {:induction false} ResumeCalls<C(!new)>(env: Env<C>, step: StepExec<C>, context: C, response: Option<Response>)
    requires Waiting(step) && TracksStep(step) && ShelteredStep(env, step.def)
    ensures StepKeeps(step.def, Resume(env, step, context, response))
    decreases step, 1
  {
    hide Execute, Willing, Sheltered, Answer;
    if step.def.Conditional? {
      var x := step.inner.value.(context := context);
      OfferedIsWilling(env, step.def, x.def);
      WillingIsSheltered(env, x.def);
      ExecuteTracks(env, x, step.inner.value, response);
      ExecuteCalls(env, x, step.inner.value, response);
      ConcludedCalls(env, step, Execute(env, x, step.inner.value, response));
    } else if response.Some? {
      AnswerCalls(env, step, context, response.value);
    }
  }

  lemma {:induction false} Unpaused<C>(x: Exec<C>)
    requires Live(x) && x.status != Finished
    ensures Live(x.(status := Running, paused := None))
    ensures x.status != Errored && (x.paused.Some? ==> Waiting(x.paused.value))
  {
  }

  /** One call of `execute`, at any nesting depth. */
  lemma {:induction false} ExecuteCalls<C(!new)>(env: Env<C>, x: Exec<C>, bound: Exec<C>, response: Option<Response>)
    requires Live(x) && Tracks(x) && x.status != Finished && x.paused == bound.paused
    requires Sheltered(env, x.def)
    ensures ExecKeeps(env, Execute(env, x, bound, response))
    decreases bound, 1
  {
    hide RunPending, Resume, TracksStep, Settle, Complete, Live, Willing, ShelteredStep, Waiting, Path, FailureOps, DueOnFailure;
    var running := x.(status := Running);
    Unpaused(x);
    if x.paused.None? {
      assert running == x.(status := Running, paused := None);
      RunPendingCalls(env, running, Remaining(x));
    } else {
      assert ShelteredStep(env, x.def.steps[|x.executed|]);
      ResumeCalls(env, bound.paused.value, x.context, response);
      ResumeTracks(env, bound.paused.value, x.context, response);
      var r := Resume(env, bound.paused.value, x.context, response);
      if r.outcome.Done? {
        AdvanceTracks(running, r.step, r.outcome.context);
        AdvanceLives(running, r.step, r.outcome.context);
        var next := Advance(running, r.step, r.outcome.context);
        RunPendingCalls(env, next, Remaining(next));
        FailureOpsAppend(r.trace, RunPending(env, next, Remaining(next)).trace);
      } else {
        SettleCalls(env, running, r);
      }
    }
  }

  /** A commit that fails compensates every step, though none of them failed. */
  lemma {:induction false} FailedCommitCalls<C(!new)>(env: Env<C>, x: Exec<C>)
    requires Live(x) && Tracks(x) && x.status == Finished && Sheltered(env, x.def)
    ensures var r := Commit(env, x, false);
            r.exec.status == Errored && r.exec.alreadyRollback && FailureOps(r.trace) == Due(x.executed) && Tracks(r.exec)
  {
    hide RollbackExec, Live, TracksStep, Sheltered;
    RollbackExecCalls(env, x, x.context);
    RollbackExecTracks(env, x, x.context);
  }

  /** Resuming a conditional puts the outer context in place of the inner one, which is lost. */
  lemma {:induction false} ResumingForgets<C>(env: Env<C>, step: StepExec<C>, inner: Exec<C>, lost: C, context: C,
                                              response: Option<Response>)
    requires step.def.Conditional? && step.inner == Some(inner)
    ensures Resume(env, step.(inner := Some(inner.(context := lost))), context, response) == Resume(env, step, context, response)
  {
    hide RunPending, Settle;
  }

  /** A nested rollback that raises is not caught: the steps before it are left as they are. */
  lemma {:induction false} NestedRaiseSkips<C>(env: Env<C>, before: seq<StepExec<C>>, step: StepExec<C>, context: C)
    requires Complete(step) && step.def.Conditional? && step.inner.Some?
    ensures !RollbackExec(env, step.inner.value, context).ok <==> RollbackStep(env, step, context).result == RollbackRaised
    ensures !RollbackExec(env, step.inner.value, context).ok ==>
              var r := RollbackList(env, before + [step], context);
              r.aborted && r.steps[..|before|] == before && r.trace == RollbackExec(env, step.inner.value, context).trace
  {
  }

  /** The step at k is a conditional whose nested rollback raises when the steps after it have been rolled back. */
  predicate Stopper<C>(env: Env<C>, steps: seq<StepExec<C>>, context: C, k: nat)
    requires k < |steps|
  {
    var later := RollbackList(env, steps[k + 1..], context);
    !later.aborted && steps[k].inner.Some? && !RollbackExec(env, steps[k].inner.value, later.context).ok
  }

  /** The steps before k are as they were, and what was called is what is due after k, and then what the nested rollback called. */
  predicate StoppedAt<C(==)>(env: Env<C>, steps: seq<StepExec<C>>, context: C, k: nat)
    requires k < |steps| && Stopper(env, steps, context, k)
  {
    var r := RollbackList(env, steps, context);
    var nested := RollbackExec(env, steps[k].inner.value, RollbackList(env, steps[k + 1..], context).context);
    r.aborted && r.steps[..k] == steps[..k] && FailureOps(r.trace) == Due(steps[k + 1..]) + FailureOps(nested.trace)
  }

  lemma {:induction false} NothingLater<C>(env: Env<C>, a: seq<StepExec<C>>, context: C)
    ensures RollbackList(env, a + [], context) == RollbackList(env, a, context)
    ensures RollbackList(env, [], context) == ListUndo([], context, false, false, [])
  {
    assert a + [] == a;
  }

  /** The later steps are rolled back first; the earlier ones only if no nested rollback raised. */
  lemma {:induction false} RollbackSplits<C>(env: Env<C>, a: seq<StepExec<C>>, b: seq<StepExec<C>>, context: C)
    ensures var later := RollbackList(env, b, context);
            var r := RollbackList(env, a + b, context);
            if later.aborted then r == later.(steps := a + later.steps)
            else
              var rest := RollbackList(env, a, later.context);
              r == ListUndo(rest.steps + later.steps, rest.context, rest.raised || later.raised, rest.aborted, later.trace + rest.trace)
    decreases |b|
  {
    hide RollbackStep;
    if b == [] {
      NothingLater(env, a, context);
    } else {
      var n := |b| - 1;
      var last := RollbackStep(env, b[n], context);
      assert (a + b)[|a + b| - 1] == b[n] && (a + b)[..|a + b| - 1] == a + b[..n];
      if last.result != RollbackRaised {
        RollbackSplits(env, a, b[..n], last.context);
        var later := RollbackList(env, b[..n], last.context);
        if later.aborted {
          assert (a + later.steps) + [last.step] == a + (later.steps + [last.step]);
        } else {
          var rest := RollbackList(env, a, later.context);
          assert (rest.steps + later.steps) + [last.step] == rest.steps + (later.steps + [last.step]);
          assert last.trace + (later.trace + rest.trace) == (last.trace + later.trace) + rest.trace;
        }
      } else {
        assert (a + b[..n]) + [last.step] == a + (b[..n] + [last.step]);
      }
    }
  }

  lemma {:induction false} RaisedInside<C>(env: Env<C>, step: StepExec<C>, context: C)
    requires Complete(step) && (step.inner.Some? ==> step.def.Conditional?)
    ensures var r := RollbackStep(env, step, context);
            r.result == RollbackRaised <==> step.inner.Some? && !RollbackExec(env, step.inner.value, context).ok
    ensures var r := RollbackStep(env, step, context);
            r.result == RollbackRaised ==> r.trace == RollbackExec(env, step.inner.value, context).trace
  {
    hide RollbackExec, Live;
  }

  /** If no nested rollback raises, exactly what is due is called, whatever else raises. */
  lemma {:induction false} UnraisedStepCalls<C>(env: Env<C>, step: StepExec<C>, context: C)
    requires Complete(step) && RollbackStep(env, step, context).result != RollbackRaised
    ensures FailureOps(RollbackStep(env, step, context).trace) == DueStep(step)
    decreases step, 0
  {
    hide RollbackList, Due;
    NothingToUndo(env, context);
    if step.def.Conditional? {
      if step.inner.Some? { UnabortedCalls(env, step.inner.value.executed, context); }
    } else if step.def.onFailure.Some? {
      FailureOpsOne(Call(OnFailure, step.def.onFailure.value, context));
    }
  }

  lemma {:induction false} UnabortedCalls<C>(env: Env<C>, steps: seq<StepExec<C>>, context: C)
    requires (forall i :: 0 <= i < |steps| ==> Complete(steps[i])) && !RollbackList(env, steps, context).aborted
    ensures FailureOps(RollbackList(env, steps, context).trace) == Due(steps)
    decreases steps, 0
  {
    hide RollbackStep, Complete, DueStep, FailureOps;
    NothingToUndo(env, context);
    if steps != [] {
      var n := |steps| - 1;
      var last := RollbackStep(env, steps[n], context);
      UnraisedStepCalls(env, steps[n], context);
      UnabortedCalls(env, steps[..n], last.context);
      FailureOpsAppend(last.trace, RollbackList(env, steps[..n], last.context).trace);
    }
  }

  /** Where a rollback stops, it has called what is due after that step and what the nested rollback called. */
  lemma {:induction false} StopperStops<C>(env: Env<C>, steps: seq<StepExec<C>>, context: C, k: nat)
    requires forall i :: 0 <= i < |steps| ==> Complete(steps[i]) && (steps[i].inner.Some? ==> steps[i].def.Conditional?)
    requires k < |steps| && Stopper(env, steps, context, k)
    ensures StoppedAt(env, steps, context, k)
  {
    hide RollbackStep, RollbackExec, Complete, FailureOps, Due;
    var later := RollbackList(env, steps[k + 1..], context);
    assert steps == steps[..k + 1] + steps[k + 1..] && steps[..k + 1][..k] == steps[..k];
    RollbackSplits(env, steps[..k + 1], steps[k + 1..], context);
    RaisedInside(env, steps[k], later.context);
    UnabortedCalls(env, steps[k + 1..], context);
    FailureOpsAppend(later.trace, RollbackList(env, steps[..k + 1], later.context).trace);
  }

  /**
    A rollback stops half-way if and only if some nested rollback raises. It then leaves every step before that one
    as it is, and has called exactly what is due after it and what the nested rollback called. Otherwise it calls
    everything that is due, whatever else raises.
   */
  lemma {:induction false} RollbackStopsExactly<C>(env: Env<C>, steps: seq<StepExec<C>>, context: C)
    requires forall i :: 0 <= i < |steps| ==> Complete(steps[i]) && (steps[i].inner.Some? ==> steps[i].def.Conditional?)
    ensures RollbackList(env, steps, context).aborted <==> exists k :: 0 <= k < |steps| && Stopper(env, steps, context, k)
    ensures !RollbackList(env, steps, context).aborted ==> FailureOps(RollbackList(env, steps, context).trace) == Due(steps)
    ensures forall k :: 0 <= k < |steps| && Stopper(env, steps, context, k) ==> StoppedAt(env, steps, context, k)
  {
    hide Complete, Due, FailureOps, RollbackList, Stopper, StoppedAt, RollbackExec;
    if RollbackList(env, steps, context).aborted {
      var k := SomeStopper(env, steps, context);
    } else {
      UnabortedCalls(env, steps, context);
    }
    forall k | 0 <= k < |steps| && Stopper(env, steps, context, k)
      ensures StoppedAt(env, steps, context, k) && RollbackList(env, steps, context).aborted
    {
      StopperStops(env, steps, context, k);
      StoppedIsAborted(env, steps, context, k);
    }
  }

  lemma {:induction false} StoppedIsAborted<C>(env: Env<C>, steps: seq<StepExec<C>>, context: C, k: nat)
    requires k < |steps| && Stopper(env, steps, context, k) && StoppedAt(env, steps, context, k)
    ensures RollbackList(env, steps, context).aborted
  {
    hide RollbackList, FailureOps, Due;
  }

  lemma {:induction false} SomeStopper<C>(env: Env<C>, steps: seq<StepExec<C>>, context: C) returns (k: nat)
    requires forall i :: 0 <= i < |steps| ==> Complete(steps[i]) && (steps[i].inner.Some? ==> steps[i].def.Conditional?)
    requires RollbackList(env, steps, context).aborted
    ensures k < |steps| && Stopper(env, steps, context, k)
    decreases |steps|
  {
    hide RollbackStep, RollbackExec, Complete;
    NothingToUndo(env, context);
    var n := |steps| - 1;
    var last := RollbackStep(env, steps[n], context);
    RaisedInside(env, steps[n], context);
    if last.result == RollbackRaised {
      k := n;
      assert steps[n + 1..] == [];
    } else {
      k := SomeStopper(env, steps[..n], last.context);
      var between := steps[..n][k + 1..];
      assert steps[k + 1..] == between + [steps[n]];
      assert (between + [steps[n]])[..|between|] == between;
    }
  }
}
