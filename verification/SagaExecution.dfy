/**
  The saga executions as the program has them: objects that change step by step, and the loop that
  drives them. Each method is shown to do to the object what the model does to its value.
 */
module SagaExecutions {
  import opened Wrappers
  import opened SagaModel
  import opened SagaCompensation
  import opened SagaManager

  class StepExecution<C> {
    const def: StepDef
    var related: set<string>
    var status: StepStatus
    var alreadyRollback: bool
    var inner: Option<Exec<C>>

    function Value(): StepExec<C>
      reads this
    {
      StepExec(def, related, status, alreadyRollback, inner)
    }

    /** New, or as some run has left it. */
    ghost predicate Valid()
      reads this
    {
      if status == StepCreated then ValidStep(def) && Value() == NewStep(def) else TracksStep(Value())
    }

    constructor (value: StepExec<C>)
      ensures Value() == value
    {
      def, related, status := value.def, value.related, value.status;
      alreadyRollback, inner := value.alreadyRollback, value.inner;
    }

    /** `LocalSagaStepExecution.execute`. */
    method ExecuteLocal(env: Env<C>, context: C) returns (outcome: StepOutcome<C>, trace: seq<Call<C>>, ghost failing: seq<StepExec<C>>)
      requires def.Local? && (status == StepCreated ==> Value() == NewStep(def))
      modifies this
      ensures StepResult(Value(), outcome, trace, failing) == Executed(env, old(Value()), 0, None, context, None)
    {
      trace, failing := [], [];
      if status != StepCreated {
        return Done(context), trace, failing;
      }
      status := RunningOnExecute;
      related := related + {env.service};
      assert related == {env.service};
      var context' := context;
      if def.onExecute.Some? {
        trace := [Call(OnExecute, def.onExecute.value, context)];
        var result := env.local(def.onExecute.value, context);
        if result.None? {
          status := ErroredOnExecute;
          return StepFailed, trace, [Value()];
        }
        context' := result.value;
      }
      status := StepFinished;
      return Done(context'), trace, failing;
    }

    /** `RemoteSagaStepExecution.execute`. */
    method ExecuteRemote(env: Env<C>, context: C, response: Option<Response>)
      returns (outcome: StepOutcome<C>, trace: seq<Call<C>>, ghost failing: seq<StepExec<C>>)
      requires def.Remote? && (status == StepCreated ==> Value() == NewStep(def))
      modifies this
      ensures StepResult(Value(), outcome, trace, failing) == Executed(env, old(Value()), 0, None, context, response)
    {
      hide Answer, RollbackStep;
      var ok;
      ok, trace := ExecuteOnExecute(env, context);
      assert old(status) == StepCreated ==> related == {env.service};
      if !ok {
        return StepFailed, trace, [Value()];
      }
      if response.None? {
        status := PausedByOnExecute;
        return StepPaused, trace, [];
      }
      AnswerIgnoresStatus(env, Value(), context, response.value, PausedByOnExecute);
      AnswerIgnoresStatus(env, Value(), context, response.value, old(status));
      var more;
      outcome, more, failing := HandleReply(env, context, response.value);
      trace := trace + more;
    }

    /** `_execute_on_execute`: the request is published the first time only. */
    method ExecuteOnExecute(env: Env<C>, context: C) returns (ok: bool, trace: seq<Call<C>>)
      requires def.Remote?
      modifies this
      ensures old(status) != StepCreated ==> ok && trace == [] && Value() == old(Value())
      ensures old(status) == StepCreated ==>
                trace == (if def.onExecute.Some? then [Call(OnExecute, def.onExecute.value, context)] else []) &&
                ok == (def.onExecute.Some? ==> env.request(def.onExecute.value, context)) &&
                Value() == old(Value()).(related := old(related) + {env.service},
                                         status := if ok then FinishedOnExecute else ErroredOnExecute)
    {
      trace := [];
      if status != StepCreated {
        return true, trace;
      }
      status := RunningOnExecute;
      related := related + {env.service};
      if def.onExecute.Some? {
        trace := [Call(OnExecute, def.onExecute.value, context)];
        if !env.request(def.onExecute.value, context) {
          status := ErroredOnExecute;
          return false, trace;
        }
      }
      status := FinishedOnExecute;
      ok := true;
    }

    /** The reply: a system error fails at once; otherwise `_execute_on_success` or `_execute_on_error`. */
    method HandleReply(env: Env<C>, context: C, response: Response)
      returns (outcome: StepOutcome<C>, trace: seq<Call<C>>, ghost failing: seq<StepExec<C>>)
      requires def.Remote?
      modifies this
      ensures StepResult(Value(), outcome, trace, failing) == Answer(env, old(Value()), context, response)
    {
      hide RollbackStep;
      trace, failing := [], [];
      related := related + response.related;
      if response.status == SystemError {
        status := ErroredByOnExecute;
        return StepFailed, trace, [Value()];
      }
      var success := response.status == Success;
      status := if success then RunningOnSuccess else RunningOnError;
      related := related + {env.service};
      var op := if success then def.onSuccess else def.onError;
      var context' := context;
      if op.Some? {
        trace := [Call(if success then OnSuccess else OnError, op.value, context)];
        var result := env.handle(op.value, context, response);
        if result.None? {
          status := if success then ErroredOnSuccess else ErroredOnError;
          var _, _, undone := Rollback(env, context);
          return StepFailed, trace + undone, [Value()];
        }
        context' := result.value;
      }
      status := StepFinished;
      return Done(context'), trace, failing;
    }

    /** `ConditionalSagaStepExecution.execute`: the alternative is chosen the first time only. */
    method ExecuteConditional(env: Env<C>, uuid: Uuid, user: Option<Uuid>, context: C, response: Option<Response>)
      returns (outcome: StepOutcome<C>, trace: seq<Call<C>>, ghost failing: seq<StepExec<C>>)
      requires def.Conditional? && Valid()
      modifies this
      ensures StepResult(Value(), outcome, trace, failing) == Executed(env, old(Value()), uuid, user, context, response)
      decreases def, 1
    {
      hide RunPending, SagaModel.Execute, Run, FirstHolding, Fresh, Resume, Executed, Concluded;
      if status == StepCreated {
        CreateInner(env, uuid, user, context);
        assert related == {env.service};
        NewConditional(env, Value(), uuid, user, context, response);
        if inner.Some? { NewInnerTracks(env, Value(), uuid, user, context); }
      } else {
        OldConditional(env, Value(), uuid, user, context, response);
      }
      status := RunningOnExecute;
      if inner.None? {
        status := StepFinished;
        return Done(context), [], [];
      }
      ConcludedOverwrites(old(Value()).(related := related, inner := inner), RunOf(env, inner.value, context, response), inner,
                          RunningOnExecute);
      outcome, trace, failing := ExecuteInner(env, context, response);
    }

    /** `_execute_inner`: the outer context goes into the inner execution, whatever that had. */
    method ExecuteInner(env: Env<C>, context: C, response: Option<Response>)
      returns (outcome: StepOutcome<C>, trace: seq<Call<C>>, ghost failing: seq<StepExec<C>>)
      requires def.Conditional? && inner.Some? && Tracks(inner.value) && Offers(def, inner.value.def) && status == RunningOnExecute
      modifies this
      ensures StepResult(Value(), outcome, trace, failing) == Concluded(old(Value()), RunOf(env, old(inner.value), context, response))
      decreases def, 0
    {
      hide Run;
      OfferedIsSmaller(def, inner.value.def);
      ContextTracks(inner.value, context);
      var execution := new SagaExecution(inner.value.(context := context));
      var result, calls, fail := execution.Execute(env, response);
      inner, trace, failing := Some(execution.Value()), calls, [];
      match result {
        case PausedRun =>
          status, outcome := PausedByOnExecute, StepPaused;
        case Failed =>
          status, outcome := ErroredByOnExecute, StepFailed;
          failing := [Value()] + fail;
        case RollbackFailed =>
          outcome, failing := StepBroken, [Value()] + fail;
        case _ =>
          status, outcome := StepFinished, Done(execution.context);
      }
    }

    /** `_create_inner`. */
    method CreateInner(env: Env<C>, uuid: Uuid, user: Option<Uuid>, context: C)
      requires def.Conditional? && inner.None?
      modifies this
      ensures var i := FirstHolding(env, def.ifThen, context, 0);
              var saga := if i.Some? then Some(def.ifThen[i.value].saga) else def.elseThen;
              Value() == old(Value()).(related := old(related) + {env.service},
                                       inner := if saga.Some? then Some(NewExec(saga.value, uuid, user, context)) else None)
    {
      related := related + {env.service};
      var saga := ChooseAlternative(env, context);
      if saga.Some? {
        inner := Some(NewExec(saga.value, uuid, user, context));
      }
    }

    /** The first alternative whose condition holds, or the one for when none does. */
    method ChooseAlternative(env: Env<C>, context: C) returns (saga: Option<Saga>)
      requires def.Conditional?
      ensures var i := FirstHolding(env, def.ifThen, context, 0);
              saga == if i.Some? then Some(def.ifThen[i.value].saga) else def.elseThen
    {
      for i := 0 to |def.ifThen|
        invariant FirstHolding(env, def.ifThen, context, 0) == FirstHolding(env, def.ifThen, context, i)
      {
        if env.holds(def.ifThen[i].condition, context) {
          return Some(def.ifThen[i].saga);
        }
      }
      saga := def.elseThen;
    }

    method Execute(env: Env<C>, uuid: Uuid, user: Option<Uuid>, context: C, response: Option<Response>)
      returns (outcome: StepOutcome<C>, trace: seq<Call<C>>, ghost failing: seq<StepExec<C>>)
      requires Valid()
      modifies this
      ensures StepResult(Value(), outcome, trace, failing) == Executed(env, old(Value()), uuid, user, context, response)
      decreases def, 2
    {
      hide RunPending, SagaModel.Execute, Answer;
      match def {
        case Local(_, _) => outcome, trace, failing := ExecuteLocal(env, context);
        case Remote(_, _, _, _) => outcome, trace, failing := ExecuteRemote(env, context, response);
        case Conditional(_, _) => outcome, trace, failing := ExecuteConditional(env, uuid, user, context, response);
      }
    }

    /** `rollback` of a step of any kind. */
    method Rollback(env: Env<C>, context: C) returns (result: Undo, context': C, trace: seq<Call<C>>)
      requires def.Conditional? ==> TracksStep(Value())
      modifies this
      ensures StepUndo(Value(), context', result, trace) == RollbackStep(env, old(Value()), context)
      decreases def
    {
      hide RollbackExec;
      context', trace := context, [];
      if status == StepCreated || alreadyRollback {
        return StepRaised, context, trace;
      }
      if def.Conditional? {
        if inner.Some? {
          OfferedIsSmaller(def, inner.value.def);
          ContextTracks(inner.value, context);
          RollbackForgets(env, inner.value, context);
          var execution := new SagaExecution(inner.value.(context := context));
          var ok, calls := execution.Rollback(env);
          inner, trace := Some(execution.Value()), calls;
          if !ok { return RollbackRaised, context, trace; }
          context' := execution.context;
        }
      } else {
        if def.Local? { related := related + {env.service}; }
        if def.onFailure.Some? {
          trace := [Call(OnFailure, def.onFailure.value, context)];
          if def.Local? {
            var undone := env.undoLocal(def.onFailure.value, context);
            if undone.None? { return StepRaised, context, trace; }
            context' := undone.value;
          } else if !env.undoRequest(def.onFailure.value, context) {
            return StepRaised, context, trace;
          }
        }
      }
      alreadyRollback := true;
      result := Undone;
    }
  }

  /** What `execute` does to a step: a new one starts, another goes on with the reply. */
  function Executed<C>(env: Env<C>, step: StepExec<C>, uuid: Uuid, user: Option<Uuid>, context: C,
                       response: Option<Response>): StepResult<C> {
    if step.status != StepCreated then Resume(env, step, context, response)
    else
      var r := Fresh(env, step.def, uuid, user, context);
      if r.outcome.StepPaused? && step.def.Remote? && response.Some? then
        var a := Answer(env, r.step, context, response.value);
        a.(trace := r.trace + a.trace)
      else r
  }

  /** The run of an inner execution once the outer context is in it. */
  function RunOf<C>(env: Env<C>, inner: Exec<C>, context: C, response: Option<Response>): ExecResult<C> {
    Run(env, inner.(context := context), response)
  }

  lemma {:induction false} OfferedIsSmaller(def: StepDef, saga: Saga)
    requires def.Conditional? && Offers(def, saga)
    ensures saga < def
  {
  }

  lemma {:induction false} ContextTracks<C>(x: Exec<C>, context: C)
    requires Tracks(x)
    ensures Tracks(x.(context := context))
  {
  }

  lemma {:induction false} RollbackForgets<C>(env: Env<C>, x: Exec<C>, context: C)
    ensures RollbackExec(env, x.(context := context), context) == RollbackExec(env, x, context)
  {
  }

  lemma {:induction false} NewInnerTracks<C>(env: Env<C>, step: StepExec<C>, uuid: Uuid, user: Option<Uuid>, context: C)
    requires step.def.Conditional? && ValidStep(step.def) && step.inner.Some?
    requires var i := FirstHolding(env, step.def.ifThen, context, 0);
             var saga := if i.Some? then Some(step.def.ifThen[i.value].saga) else step.def.elseThen;
             saga.Some? && step.inner.value == NewExec(saga.value, uuid, user, context)
    ensures Offers(step.def, step.inner.value.def) && Tracks(step.inner.value)
  {
  }

  /** A step whose execution is a valid next step leaves the execution valid. */
  lemma {:induction false} OneTracks<C>(env: Env<C>, x: Exec<C>, step: StepExec<C>, response: Option<Response>)
    requires Tracks(x) && x.status == Running && |x.executed| < |x.def.steps| && step.def == x.def.steps[|x.executed|]
    requires if step.status == StepCreated then ValidStep(step.def) && step == NewStep(step.def) else TracksStep(step)
    ensures var r := Executed(env, step, x.uuid, x.user, x.context, response);
            if r.outcome.Done? then Tracks(Advance(x, r.step, r.outcome.context)) else Tracks(Settle(env, x, r).exec)
  {
    hide Fresh, Resume, Answer, Settle, Tracks, TracksStep, Advance;
    var r := Executed(env, step, x.uuid, x.user, x.context, response);
    if step.status == StepCreated {
      FreshTracks(env, step.def, x.uuid, x.user, x.context);
      var first := Fresh(env, step.def, x.uuid, x.user, x.context);
      if step.def.Remote? && response.Some? { AnswerTracks(env, first.step, x.context, response.value); }
    } else {
      ResumeTracks(env, step, x.context, response);
    }
    if r.outcome.Done? { AdvanceTracks(x, r.step, r.outcome.context); } else { SettleTracks(env, x, r); }
  }

  lemma {:induction false} AnswerIgnoresStatus<C>(env: Env<C>, step: StepExec<C>, context: C, response: Response, status: StepStatus)
    requires step.def.Remote?
    ensures Answer(env, step.(status := status), context, response) == Answer(env, step, context, response)
  {
  }

  // ---------------------------------------------------------------- the execution of a saga

  class SagaExecution<C> {
    const def: Saga
    const uuid: Uuid
    const user: Option<Uuid>
    var context: C
    var status: SagaStatus
    var executedSteps: seq<StepExec<C>>
    var pausedStep: Option<StepExec<C>>
    var alreadyRollback: bool

    function Value(): Exec<C>
      reads this
    {
      Exec(def, uuid, context, status, executedSteps, pausedStep, alreadyRollback, user)
    }

    /** A valid definition, and steps that follow it. */
    ghost predicate Valid()
      reads this
    {
      Tracks(Value())
    }

    constructor (value: Exec<C>)
      ensures Value() == value
    {
      def, uuid, user, context, status := value.def, value.uuid, value.user, value.context, value.status;
      executedSteps, pausedStep, alreadyRollback := value.executed, value.paused, value.alreadyRollback;
    }

    /** `rollback`: a step that raises is passed over, a nested rollback that raises ends it. */
    method Rollback(env: Env<C>) returns (ok: bool, trace: seq<Call<C>>)
      requires Valid()
      modifies this
      ensures ExecUndo(Value(), ok, trace) == RollbackExec(env, old(Value()), old(context))
      ensures Valid() && status == old(status) && pausedStep == old(pausedStep)
      decreases def
    {
      hide RollbackStep, RollbackList, RollbackExec, Continued, TracksStep;
      RollbackUnfolds(env, Value());
      RollbackExecTracks(env, Value(), context);
      trace := [];
      if alreadyRollback {
        return false, trace;
      }
      var raised := false;
      var i := |executedSteps|;
      assert executedSteps[..i] == executedSteps && executedSteps[i..] == [];
      NothingContinued(RollbackList(env, executedSteps, context));
      ghost var all := RollbackList(env, executedSteps, context);
      while i > 0
        invariant 0 <= i <= |executedSteps|
        invariant Value() == old(Value()).(context := context, executed := executedSteps)
        invariant !alreadyRollback && |executedSteps| == |old(executedSteps)| && executedSteps[..i] == old(executedSteps)[..i]
        invariant all == Continued(executedSteps[i..], raised, trace, RollbackList(env, executedSteps[..i], context))
      {
        i := i - 1;
        ghost var before := executedSteps[..i];
        assert executedSteps[..i + 1][..i] == before && executedSteps[..i + 1][i] == executedSteps[i];
        OneContinued(env, executedSteps[..i + 1], context, executedSteps[i + 1..], raised, trace);
        assert executedSteps[i] == old(executedSteps)[i] && executedSteps[i].def == def.steps[i];
        var step := new StepExecution(executedSteps[i]);
        var result, context', calls := step.Rollback(env, context);
        ghost var later := executedSteps[i + 1..];
        executedSteps := executedSteps[i := step.Value()];
        assert executedSteps[..i] == before && executedSteps[i..] == [step.Value()] + later;
        context, trace := context', trace + calls;
        if result == RollbackRaised {
          assert executedSteps == before + [step.Value()] + later;
          return false, trace;
        }
        raised := raised || result == StepRaised;
      }
      assert executedSteps[0..] == executedSteps;
      NoneLeft(env, executedSteps, context, raised, trace);
      alreadyRollback := true;
      ok := !raised;
    }

    /** `_execute_one`. */
    method ExecuteOne(env: Env<C>, step: StepExecution<C>, response: Option<Response>)
      returns (done: bool, outcome: Outcome, trace: seq<Call<C>>, ghost failing: seq<StepExec<C>>)
      requires Valid() && step.Valid() && status == Running && |executedSteps| < |def.steps| && step.def == def.steps[|executedSteps|]
      modifies this, step
      ensures Tracks(if status == Paused then Value() else Value().(paused := None))
      ensures var r := Executed(env, old(step.Value()), uuid, user, old(context), response);
              done == r.outcome.Done? &&
              if done then trace == r.trace && Value() == Advance(old(Value()), r.step, r.outcome.context).(paused := old(pausedStep))
              else ExecResult(if status == Paused then Value() else Value().(paused := None), outcome, trace, failing) == Settle(env,
                  old(Value()), r)
      ensures !done && status != Paused ==> pausedStep == old(pausedStep)
      decreases step.def, 3
    {
      hide Executed, RollbackExec, Tracks, TracksStep;
      ghost var r := Executed(env, step.Value(), uuid, user, context, response);
      OneTracks(env, Value(), step.Value(), response);
      var result;
      result, trace, failing := step.Execute(env, uuid, user, context, response);
      done, outcome := result.Done?, Completed;
      match result {
        case Done(context') =>
          context, executedSteps := context', executedSteps + [step.Value()];
        case StepPaused =>
          pausedStep, status, outcome, failing := Some(step.Value()), Paused, PausedRun, [];
        case StepBroken =>
          outcome := RollbackFailed;
        case StepFailed =>
          var ok, undone := Rollback(env);
          trace := trace + undone;
          if ok { status := Errored; }
          outcome := if ok then Failed else RollbackFailed;
      }
    }

    /** `execute`, which leaves the commit to its caller. */
    method Execute(env: Env<C>, response: Option<Response>)
      returns (outcome: Outcome, trace: seq<Call<C>>, ghost failing: seq<StepExec<C>>)
      requires Valid()
      modifies this
      ensures Valid() && ExecResult(Value(), outcome, trace, failing) == Run(env, old(Value()), response)
      decreases def, 4
    {
      hide RunPending, Settle, Resume, Fresh, TracksStep;
      ExecuteTracks(env, Value(), Value(), response);
      trace, failing := [], [];
      if status == Finished || (status == Errored && response.None?) {
        return AlreadyExecuted, trace, failing;
      }
      if status == Errored {
        return Ignored, trace, failing;
      }
      status := Running;
      if pausedStep.Some? {
        TrackedIsStarted(pausedStep.value);
        var step := new StepExecution(pausedStep.value);
        var done, out, calls, fail := ExecuteOne(env, step, response);
        if status != Paused { pausedStep := None; }
        if !done {
          return out, calls, fail;
        }
        trace := calls;
      }
      var calls;
      outcome, calls, failing := ExecutePending(env);
      trace := trace + calls;
    }

    /** The loop of `execute` over the steps that are left. */
    method ExecutePending(env: Env<C>) returns (outcome: Outcome, trace: seq<Call<C>>, ghost failing: seq<StepExec<C>>)
      requires Valid() && status == Running && pausedStep.None?
      modifies this
      ensures ExecResult(Value(), outcome, trace, failing) == RunPending(env, old(Value()), Remaining(old(Value())))
      decreases def, 3
    {
      hide Settle, Fresh, TracksStep, Tracks, RunPending, Executed, Advance;
      trace, failing := [], [];
      TrackedHasRoom(Value());
      var start, pending := |executedSteps|, def.steps[|executedSteps|..];
      ghost var all := RunPending(env, Value(), pending);
      assert pending[0..] == pending;
      for i := 0 to |pending|
        invariant Valid() && status == Running && pausedStep.None? && |executedSteps| == start + i
        invariant all == LaterRun(trace, RunPending(env, Value(), pending[i..]))
      {
        PendingUnfolds(env, Value(), pending[i..], trace);
        assert pending[i..][1..] == pending[i + 1..] && pending[i] == def.steps[start + i];
        NextIsValid(Value());
        NewIsFresh(env, pending[i], uuid, user, context);
        AdvanceFacts(Value(), Fresh(env, pending[i], uuid, user, context));
        var step := new StepExecution(NewStep(pending[i]));
        var done, out, calls, fail := ExecuteOne(env, step, None);
        trace := trace + calls;
        if !done {
          return out, trace, fail;
        }
      }
      AllDone(env, Value(), pending[|pending|..], trace);
      status := Finished;
      outcome := Completed;
    }

    /** `commit`; `committed` is whether the committer comes back without an exception. */
    method Commit(env: Env<C>, committed: bool) returns (ok: bool, trace: seq<Call<C>>)
      requires Valid()
      modifies this
      ensures Valid() && ExecUndo(Value(), ok, trace) == SagaModel.Commit(env, old(Value()), committed)
    {
      hide RollbackExec, TracksStep;
      ok, trace := status == Finished && committed, [];
      if status == Finished && !committed {
        var _, undone := Rollback(env);
        trace := undone;
        status := Errored;
      }
    }
  }

  ghost function LaterRun<C>(trace: seq<Call<C>>, r: ExecResult<C>): ExecResult<C> { r.(trace := trace + r.trace) }

  lemma {:induction false} PendingUnfolds<C>(env: Env<C>, x: Exec<C>, pending: seq<StepDef>, trace: seq<Call<C>>)
    requires pending != []
    ensures var r := Fresh(env, pending[0], x.uuid, x.user, x.context);
            LaterRun(trace, RunPending(env, x, pending)) ==
            if r.outcome.Done? then LaterRun(trace + r.trace, RunPending(env, Advance(x, r.step, r.outcome.context), pending[1..]))
            else LaterRun(trace, Settle(env, x, r))
  {
    hide Fresh, Settle;
    var r := Fresh(env, pending[0], x.uuid, x.user, x.context);
    if r.outcome.Done? {
      var rest := RunPending(env, Advance(x, r.step, r.outcome.context), pending[1..]);
      assert trace + (r.trace + rest.trace) == trace + r.trace + rest.trace;
    }
  }

  lemma {:induction false} AllDone<C>(env: Env<C>, x: Exec<C>, pending: seq<StepDef>, trace: seq<Call<C>>)
    requires pending == []
    ensures LaterRun(trace, RunPending(env, x, pending)) == ExecResult(x.(status := Finished), Completed, trace, [])
  {
  }

  lemma {:induction false} NewIsFresh<C>(env: Env<C>, def: StepDef, uuid: Uuid, user: Option<Uuid>, context: C)
    ensures Executed(env, NewStep(def), uuid, user, context, None) == Fresh(env, def, uuid, user, context)
  {
    hide Fresh;
  }

  lemma {:induction false} TrackedHasRoom<C>(x: Exec<C>)
    requires Tracks(x)
    ensures |x.executed| <= |x.def.steps| && Remaining(x) == x.def.steps[|x.executed|..]
  {
  }

  lemma {:induction false} NextIsValid<C>(x: Exec<C>)
    requires Tracks(x) && |x.executed| < |x.def.steps|
    ensures ValidStep(x.def.steps[|x.executed|])
  {
  }

  lemma {:induction false} AdvanceFacts<C>(x: Exec<C>, r: StepResult<C>)
    requires x.status == Running && x.paused.None?
    ensures r.outcome.Done? ==>
              var y := Advance(x, r.step, r.outcome.context);
              y.status == Running && y.paused.None? && |y.executed| == |x.executed| + 1 && y.(paused := None) == y
  {
  }

  // ---------------------------------------------------------------- how executions end and resume

  lemma {:induction false} RunPendingEnds<C>(env: Env<C>, x: Exec<C>, pending: seq<StepDef>)
    requires x.paused.None?
    ensures Ends(RunPending(env, x, pending))
    decreases |pending|
  {
    if pending != [] {
      var r := Fresh(env, pending[0], x.uuid, x.user, x.context);
      if r.outcome.Done? { RunPendingEnds(env, Advance(x, r.step, r.outcome.context), pending[1..]); }
    }
  }

  predicate Ends<C>(r: ExecResult<C>) {
    (r.outcome == Completed ==> r.exec.status == Finished && r.exec.paused.None?) &&
    (r.outcome == PausedRun ==> r.exec.paused.Some? && r.exec.paused.value.status == PausedByOnExecute)
  }

  /** A completed run is Finished, and a paused one keeps a step that waits. */
  lemma {:induction false} RunEnds<C>(env: Env<C>, x: Exec<C>, response: Option<Response>)
    ensures Ends(Run(env, x, response))
  {
    hide RunPending, RollbackExec, RollbackStep;
    var running := x.(status := Running);
    if x.paused.None? {
      RunPendingEnds(env, running, Remaining(x));
    } else {
      var r := Resume(env, x.paused.value, x.context, response);
      if r.outcome.Done? {
        var next := Advance(running, r.step, r.outcome.context);
        RunPendingEnds(env, next, Remaining(next));
      }
    }
  }

  lemma {:induction false} ConcludedOverwrites<C>(step: StepExec<C>, r: ExecResult<C>, inner: Option<Exec<C>>, status: StepStatus)
    ensures Concluded(step.(inner := inner, status := status), r) == Concluded(step, r)
    ensures var s := Concluded(step, r).step; s == step.(inner := s.inner, status := s.status)
  {
  }

  lemma {:induction false} NewConditional<C>(env: Env<C>, step: StepExec<C>, uuid: Uuid, user: Option<Uuid>, context: C,
                                             response: Option<Response>)
    requires step.def.Conditional?
    requires var i := FirstHolding(env, step.def.ifThen, context, 0);
             var saga := if i.Some? then Some(step.def.ifThen[i.value].saga) else step.def.elseThen;
             step == NewStep<C>(step.def).(related := {env.service},
                                           inner := if saga.Some? then Some(NewExec(saga.value, uuid, user, context)) else None)
    ensures Executed(env, NewStep(step.def), uuid, user, context, response) ==
            if step.inner.None? then StepResult(step.(status := StepFinished), Done(context), [], [])
            else Concluded(step, RunOf(env, step.inner.value, context, response))
  {
    hide RunPending, Execute, FirstHolding, Concluded;
    if step.inner.Some? {
      NewExecRuns(env, step.inner.value, response);
      OnlyPausedIsBound(env, step.inner.value, context, response);
      ConcludedOverwrites(step.(inner := None), RunOf(env, step.inner.value, context, response), step.inner, StepCreated);
    }
  }

  lemma {:induction false} OldConditional<C>(env: Env<C>, step: StepExec<C>, uuid: Uuid, user: Option<Uuid>, context: C,
                                             response: Option<Response>)
    requires step.def.Conditional? && step.status != StepCreated
    ensures Executed(env, step, uuid, user, context, response) ==
            if step.inner.None? then StepResult(step.(status := StepFinished), Done(context), [], [])
            else Concluded(step, RunOf(env, step.inner.value, context, response))
  {
    hide Execute, Concluded, Run;
    if step.inner.Some? { OnlyPausedIsBound(env, step.inner.value, context, response); }
  }

  lemma {:induction false} OnlyPausedIsBound<C>(env: Env<C>, inner: Exec<C>, context: C, response: Option<Response>)
    ensures Execute(env, inner.(context := context), inner, response) == RunOf(env, inner, context, response)
  {
    hide RunPending, Resume, Settle;
  }

  lemma {:induction false} TrackedIsStarted<C>(step: StepExec<C>)
    requires TracksStep(step)
    ensures step.status != StepCreated
  {
  }

  lemma {:induction false} NewExecRuns<C>(env: Env<C>, x: Exec<C>, response: Option<Response>)
    requires x.status == Created && x.paused.None? && x.executed == []
    ensures Execute(env, x.(context := x.context), x, response) == RunPending(env, x.(status := Running), x.def.steps)
  {
  }

  /** What a rollback amounts to when `later` is done and `rest` is what is left. */
  ghost function Continued<C>(later: seq<StepExec<C>>, raised: bool, trace: seq<Call<C>>, rest: ListUndo<C>): ListUndo<C> {
    ListUndo(rest.steps + later, rest.context, rest.raised || raised, rest.aborted, trace + rest.trace)
  }

  lemma {:induction false} RollbackUnfolds<C>(env: Env<C>, x: Exec<C>)
    ensures RollbackExec(env, x, x.context) ==
            if x.alreadyRollback then ExecUndo(x, false, [])
            else
              var r := RollbackList(env, x.executed, x.context);
              ExecUndo(x.(executed := r.steps, context := r.context, alreadyRollback := !r.aborted), !r.aborted && !r.raised, r.trace)
  {
  }

  lemma {:induction false} NothingContinued<C>(rest: ListUndo<C>)
    ensures Continued([], false, [], rest) == rest
  {
  }

  lemma {:induction false} NoneLeft<C>(env: Env<C>, steps: seq<StepExec<C>>, context: C, raised: bool, trace: seq<Call<C>>)
    ensures Continued(steps, raised, trace, RollbackList(env, steps[..0], context)) == ListUndo(steps, context, raised, false, trace)
  {
  }

  lemma {:induction false} OneContinued<C>(env: Env<C>, steps: seq<StepExec<C>>, context: C, later: seq<StepExec<C>>, raised: bool,
                                           trace: seq<Call<C>>)
    requires steps != []
    ensures
      var n := |steps| - 1;
      var last := RollbackStep(env, steps[n], context);
      Continued(later, raised, trace, RollbackList(env, steps, context)) ==
      if last.result == RollbackRaised then ListUndo(steps[..n] + [last.step] + later, last.context, true, true, trace + last.trace)
      else Continued([last.step] + later, raised || last.result == StepRaised, trace + last.trace,
                     RollbackList(env, steps[..n], last.context))
  {
  }
}
