/**
  Saga definitions and executions as values, and what `execute` and `rollback` do to them.
  Callbacks are unknown functions of the context; every call that is made is recorded in a trace.
 */
module SagaModel {
  import opened Wrappers

  type Op = nat
  type Uuid = nat

  // ---------------------------------------------------------------- definitions

  datatype Saga = Saga(steps: seq<StepDef>, committed: bool)

  datatype Alternative = Alternative(condition: Op, saga: Saga)

  datatype StepDef =
    | Local(onExecute: Option<Op>, onFailure: Option<Op>)
    | Remote(onExecute: Option<Op>, onFailure: Option<Op>, onSuccess: Option<Op>, onError: Option<Op>)
    | Conditional(ifThen: seq<Alternative>, elseThen: Option<Saga>)

  /** `Saga.validate`: what a definition needs for an execution of it to exist. */
  predicate ValidSaga(saga: Saga)
    decreases saga
  {
    |saga.steps| > 0 && saga.committed && forall i :: 0 <= i < |saga.steps| ==> ValidStep(saga.steps[i])
  }

  predicate ValidStep(def: StepDef)
    decreases def
  {
    match def
    case Local(onExecute, _) => onExecute.Some?
    case Remote(onExecute, _, _, _) => onExecute.Some?
    case Conditional(ifThen, elseThen) =>
      (|ifThen| > 0 || elseThen.Some?) &&
      (forall i :: 0 <= i < |ifThen| ==> ValidSaga(ifThen[i].saga)) &&
      (elseThen.Some? ==> ValidSaga(elseThen.value))
  }

  // ---------------------------------------------------------------- executions

  datatype ResponseStatus = Success | Error | SystemError

  datatype Response = Response(status: ResponseStatus, content: int, related: set<string>)

  /**
    The callbacks: a local one returns a context or raises; a request is published or raises; a
    response handler returns a context or raises; a condition holds or not. Compensations are apart.
   */
  datatype Env<!C> = Env(
    service: string,
    local: (Op, C) -> Option<C>,
    request: (Op, C) -> bool,
    handle: (Op, C, Response) -> Option<C>,
    holds: (Op, C) -> bool,
    undoLocal: (Op, C) -> Option<C>,
    undoRequest: (Op, C) -> bool)

  datatype Kind = OnExecute | OnSuccess | OnError | OnFailure

  datatype Call<C> = Call(kind: Kind, op: Op, context: C)

  datatype SagaStatus = Created | Running | Paused | Finished | Errored

  datatype StepStatus =
    | StepCreated | RunningOnExecute | FinishedOnExecute | ErroredOnExecute | PausedByOnExecute | ErroredByOnExecute
    | RunningOnFailure | PausedOnFailure | ErroredOnFailure | RunningOnSuccess | ErroredOnSuccess
    | RunningOnError | ErroredOnError | StepFinished

  datatype StepExec<C> = StepExec(def: StepDef, related: set<string>, status: StepStatus, alreadyRollback: bool, inner: Option<Exec<C>>)

  datatype Exec<C> = Exec(def: Saga, uuid: Uuid, context: C, status: SagaStatus, executed: seq<StepExec<C>>,
                          paused: Option<StepExec<C>>, alreadyRollback: bool, user: Option<Uuid>)

  // ---------------------------------------------------------------- rollback

  /** A compensation ran, or its step raised, or a nested rollback raised, which the outer loop does not catch. */
  datatype Undo = Undone | StepRaised | RollbackRaised

  datatype StepUndo<C> = StepUndo(step: StepExec<C>, context: C, result: Undo, trace: seq<Call<C>>)

  datatype ListUndo<C> = ListUndo(steps: seq<StepExec<C>>, context: C, raised: bool, aborted: bool, trace: seq<Call<C>>)

  datatype ExecUndo<C> = ExecUndo(exec: Exec<C>, ok: bool, trace: seq<Call<C>>)

  function RollbackStep<C>(env: Env<C>, step: StepExec<C>, context: C): StepUndo<C>
    decreases step, 0
  {
    if step.status == StepCreated || step.alreadyRollback then StepUndo(step, context, StepRaised, [])
    else
      match step.def
      case Local(_, onFailure) =>
        var counted := step.(related := step.related + {env.service});
        if onFailure.None? then StepUndo(counted.(alreadyRollback := true), context, Undone, [])
        else
          var trace := [Call(OnFailure, onFailure.value, context)];
          var undone := env.undoLocal(onFailure.value, context);
          if undone.None? then StepUndo(counted, context, StepRaised, trace)
          else StepUndo(counted.(alreadyRollback := true), undone.value, Undone, trace)
      case Remote(_, onFailure, _, _) =>
        if onFailure.None? then StepUndo(step.(alreadyRollback := true), context, Undone, [])
        else
          var trace := [Call(OnFailure, onFailure.value, context)];
          if env.undoRequest(onFailure.value, context) then StepUndo(step.(alreadyRollback := true), context, Undone, trace)
          else StepUndo(step, context, StepRaised, trace)
      case Conditional(_, _) =>
        if step.inner.None? then StepUndo(step.(alreadyRollback := true), context, Undone, [])
        else
          var r := RollbackExec(env, step.inner.value, context);
          if r.ok then StepUndo(step.(inner := Some(r.exec), alreadyRollback := true), r.exec.context, Undone, r.trace)
          else StepUndo(step.(inner := Some(r.exec)), context, RollbackRaised, r.trace)
  }

  /** The loop over the executed steps, last one first; a step that raises does not stop it. */
  function RollbackList<C>(env: Env<C>, steps: seq<StepExec<C>>, context: C): (r: ListUndo<C>)
    ensures |r.steps| == |steps|
    decreases steps, 0
  {
    if steps == [] then ListUndo([], context, false, false, [])
    else
      var n := |steps| - 1;
      var last := RollbackStep(env, steps[n], context);
      if last.result == RollbackRaised then ListUndo(steps[..n] + [last.step], last.context, true, true, last.trace)
      else
        var rest := RollbackList(env, steps[..n], last.context);
        ListUndo(rest.steps + [last.step], rest.context, rest.raised || last.result == StepRaised, rest.aborted, last.trace + rest.trace)
  }

  /** `SagaExecution.rollback` with the given context in place. */
  function RollbackExec<C>(env: Env<C>, x: Exec<C>, context: C): ExecUndo<C>
    decreases x, 0
  {
    if x.alreadyRollback then ExecUndo(x.(context := context), false, [])
    else
      var r := RollbackList(env, x.executed, context);
      var x' := x.(executed := r.steps, context := r.context);
      if r.aborted then ExecUndo(x', false, r.trace) else ExecUndo(x'.(alreadyRollback := true), !r.raised, r.trace)
  }

  // ---------------------------------------------------------------- execute

  datatype StepOutcome<C> = Done(context: C) | StepFailed | StepPaused | StepBroken

  /** `failing` is history: the step that failed, and, if it is a conditional, what failed within it. */
  datatype StepResult<C> = StepResult(step: StepExec<C>, outcome: StepOutcome<C>, trace: seq<Call<C>>, failing: seq<StepExec<C>>)

  /** How `execute` ends: a failed rollback leaves as another exception than a failed step. */
  datatype Outcome = Completed | Failed | PausedRun | RollbackFailed | AlreadyExecuted | Ignored

  datatype ExecResult<C> = ExecResult(exec: Exec<C>, outcome: Outcome, trace: seq<Call<C>>, failing: seq<StepExec<C>>)

  function NewStep<C>(def: StepDef): StepExec<C> { StepExec(def, {}, StepCreated, false, None) }

  function NewExec<C>(def: Saga, uuid: Uuid, user: Option<Uuid>, context: C): Exec<C> {
    Exec(def, uuid, context, Created, [], None, false, user)
  }

  /** The first alternative whose condition holds. */
  function FirstHolding<C>(env: Env<C>, ifThen: seq<Alternative>, context: C, from: nat): (r: Option<nat>)
    ensures r.Some? ==> from <= r.value < |ifThen| && env.holds(ifThen[r.value].condition, context)
    ensures r.Some? ==> forall j :: from <= j < r.value ==> !env.holds(ifThen[j].condition, context)
    ensures r.None? ==> forall j :: from <= j < |ifThen| ==> !env.holds(ifThen[j].condition, context)
    decreases |ifThen| - from
  {
    if from >= |ifThen| then None
    else if env.holds(ifThen[from].condition, context) then Some(from)
    else FirstHolding(env, ifThen, context, from + 1)
  }

  /** A step that stopped: compensate and give up, or remember it and wait. */
  function Settle<C>(env: Env<C>, x: Exec<C>, r: StepResult<C>): ExecResult<C>
    requires !r.outcome.Done?
  {
    match r.outcome
    case StepPaused => ExecResult(x.(paused := Some(r.step), status := Paused), PausedRun, r.trace, [])
    case StepBroken => ExecResult(x.(paused := None), RollbackFailed, r.trace, r.failing)
    case StepFailed =>
      var undo := RollbackExec(env, x, x.context);
      var x' := undo.exec.(paused := None);
      ExecResult(if undo.ok then x'.(status := Errored) else x', if undo.ok then Failed else RollbackFailed, r.trace + undo.trace,
                 r.failing)
  }

  function Advance<C>(x: Exec<C>, step: StepExec<C>, context: C): Exec<C> {
    x.(context := context, executed := x.executed + [step], paused := None)
  }

  /** The first execution of a step. */
  function Fresh<C>(env: Env<C>, def: StepDef, uuid: Uuid, user: Option<Uuid>, context: C): StepResult<C>
    decreases def, 0
  {
    var step: StepExec<C> := NewStep<C>(def).(related := {env.service});
    match def
    case Local(onExecute, _) =>
      if onExecute.None? then StepResult(step.(status := StepFinished), Done(context), [], [])
      else
        var result := env.local(onExecute.value, context);
        var trace := [Call(OnExecute, onExecute.value, context)];
        if result.None? then
          var failed := step.(status := ErroredOnExecute);
          StepResult(failed, StepFailed, trace, [failed])
        else StepResult(step.(status := StepFinished), Done(result.value), trace, [])
    case Remote(onExecute, _, _, _) =>
      var waiting := step.(status := PausedByOnExecute);
      if onExecute.None? then StepResult(waiting, StepPaused, [], [])
      else
        var trace := [Call(OnExecute, onExecute.value, context)];
        if env.request(onExecute.value, context) then StepResult(waiting, StepPaused, trace, [])
        else
          var failed := step.(status := ErroredOnExecute);
          StepResult(failed, StepFailed, trace, [failed])
    case Conditional(ifThen, elseThen) =>
      var i := FirstHolding(env, ifThen, context, 0);
      if i.None? && elseThen.None? then StepResult(step.(status := StepFinished), Done(context), [], [])
      else
        var saga := if i.Some? then ifThen[i.value].saga else elseThen.value;
        assert i.Some? ==> ifThen[i.value] in ifThen;
        Concluded(step, RunPending(env, NewExec(saga, uuid, user, context).(status := Running), saga.steps))
  }

  /** A conditional step after its inner execution ran. */
  function Concluded<C>(step: StepExec<C>, r: ExecResult<C>): StepResult<C> {
    var step' := step.(inner := Some(r.exec));
    match r.outcome
    case PausedRun => StepResult(step'.(status := PausedByOnExecute), StepPaused, r.trace, [])
    case Failed => var failed := step'.(status := ErroredByOnExecute); StepResult(failed, StepFailed, r.trace, [failed] + r.failing)
    case RollbackFailed => var broken := step'.(status := RunningOnExecute); StepResult(broken, StepBroken, r.trace, [broken] + r.failing)
    case _ => StepResult(step'.(status := StepFinished), Done(r.exec.context), r.trace, [])
  }

  /** The loop of `execute` over the steps not executed yet. */
  function RunPending<C>(env: Env<C>, x: Exec<C>, pending: seq<StepDef>): ExecResult<C>
    decreases pending, 0
  {
    if pending == [] then ExecResult(x.(status := Finished), Completed, [], [])
    else
      var r := Fresh(env, pending[0], x.uuid, x.user, x.context);
      if !r.outcome.Done? then Settle(env, x, r)
      else
        var rest := RunPending(env, Advance(x, r.step, r.outcome.context), pending[1..]);
        rest.(trace := r.trace + rest.trace)
  }

  /** A remote step whose request is out receives its answer. */
  function Answer<C>(env: Env<C>, step: StepExec<C>, context: C, response: Response): StepResult<C>
    requires step.def.Remote?
  {
    var heard := step.(related := step.related + response.related);
    if response.status == SystemError then
      var failed := heard.(status := ErroredByOnExecute);
      StepResult(failed, StepFailed, [], [failed])
    else
      var counted := heard.(related := heard.related + {env.service});
      var op := if response.status == Success then step.def.onSuccess else step.def.onError;
      if op.None? then StepResult(counted.(status := StepFinished), Done(context), [], [])
      else
        var trace := [Call(if response.status == Success then OnSuccess else OnError, op.value, context)];
        var result := env.handle(op.value, context, response);
        if result.Some? then StepResult(counted.(status := StepFinished), Done(result.value), trace, [])
        else
          var errored := counted.(status := if response.status == Success then ErroredOnSuccess else ErroredOnError);
          var undo := RollbackStep(env, errored, context);
          StepResult(undo.step, StepFailed, trace + undo.trace, [undo.step])
  }

  /** A step that has been executed before is executed again, with the answer it waits for. */
  function Resume<C>(env: Env<C>, step: StepExec<C>, context: C, response: Option<Response>): StepResult<C>
    decreases step, 1
  {
    match step.def
    case Local(_, _) => StepResult(step, Done(context), [], [])
    case Remote(_, _, _, _) =>
      if response.None? then StepResult(step.(status := PausedByOnExecute), StepPaused, [], [])
      else Answer(env, step, context, response.value)
    case Conditional(_, _) =>
      if step.inner.None? then StepResult(step.(status := StepFinished), Done(context), [], [])
      else Concluded(step, Execute(env, step.inner.value.(context := context), step.inner.value, response))
  }

  /**
    `SagaExecution.execute`. `bound` is `x` before its context was replaced, if it was: resuming a
    conditional puts the outer context into the inner execution first.
   */
  function Execute<C>(env: Env<C>, x: Exec<C>, bound: Exec<C>, response: Option<Response>): ExecResult<C>
    requires x.paused == bound.paused
    decreases bound, 1
  {
    if x.status == Finished || (x.status == Errored && response.None?) then ExecResult(x, AlreadyExecuted, [], [])
    else if x.status == Errored then ExecResult(x, Ignored, [], [])
    else
      var running := x.(status := Running);
      if x.paused.None? then RunPending(env, running, Remaining(x))
      else
        var r := Resume(env, bound.paused.value, x.context, response);
        if !r.outcome.Done? then Settle(env, running, r)
        else
          var next := Advance(running, r.step, r.outcome.context);
          var rest := RunPending(env, next, Remaining(next));
          rest.(trace := r.trace + rest.trace)
  }

  function Remaining<C>(x: Exec<C>): seq<StepDef> {
    if |x.executed| <= |x.def.steps| then x.def.steps[|x.executed|..] else []
  }

  function Run<C>(env: Env<C>, x: Exec<C>, response: Option<Response>): ExecResult<C> {
    Execute(env, x, x, response)
  }

  /** A committer that raises makes the execution compensate; whether that raises too is suppressed. */
  function Commit<C>(env: Env<C>, x: Exec<C>, committed: bool): ExecUndo<C> {
    if x.status != Finished then ExecUndo(x, false, [])
    else if committed then ExecUndo(x, true, [])
    else
      var undo := RollbackExec(env, x, x.context);
      ExecUndo(undo.exec.(status := Errored), false, undo.trace)
  }
}
