/**
  What a rollback does, with the contexts of its calls: one pass over the steps that were done, last one
  first, as if the saga had never had conditionals.
 */
module SagaUndo {
  import opened Wrappers
  import opened SagaModel
  import opened SagaCompensation
  import SM = SagaManager

  /** The definitions that were executed, in order; a conditional stands for those of the alternative it chose. */
  function Done<C>(steps: seq<StepExec<C>>): seq<StepDef>
    decreases steps
  {
    if steps == [] then [] else Done(steps[..|steps| - 1]) + DoneStep(steps[|steps| - 1])
  }

  function DoneStep<C>(step: StepExec<C>): seq<StepDef>
    decreases step
  {
    if !step.def.Conditional? then [step.def] else if step.inner.Some? then Done(step.inner.value.executed) else []
  }

  lemma {:induction false} DoneAppend<C>(steps: seq<StepExec<C>>, last: StepExec<C>)
    ensures Done(steps + [last]) == Done(steps) + DoneStep(last)
    ensures Done<C>([]) == []
  {
  }

  /** One pass after the other is one pass. */
  lemma {:induction false} CompensateSplits<C>(env: Env<C>, a: seq<StepDef>, b: seq<StepDef>, context: C)
    ensures var r := SM.Compensate(env, b, context);
            var q := SM.Compensate(env, a, r.context);
            SM.Compensate(env, a + b, context) == SM.Undoing(q.context, r.raised || q.raised, r.trace + q.trace)
    decreases |b|
  {
    if b == [] {
      assert a + b == a;
    } else {
      var n := |b| - 1;
      assert (a + b)[|a + b| - 1] == b[n] && (a + b)[..|a + b| - 1] == a + b[..n];
      if b[n].Conditional? || b[n].onFailure.None? {
        CompensateSplits(env, a, b[..n], context);
      } else {
        var op := b[n].onFailure.value;
        var context' := if b[n].Local? && env.undoLocal(op, context).Some? then env.undoLocal(op, context).value else context;
        CompensateSplits(env, a, b[..n], context');
        var r := SM.Compensate(env, b[..n], context');
        var q := SM.Compensate(env, a, r.context);
        assert [Call(OnFailure, op, context)] + (r.trace + q.trace) == ([Call(OnFailure, op, context)] + r.trace) + q.trace;
      }
    }
  }

  /** It has come to the end of the pass, or has stopped on the way where the pass met an exception. */
  predicate Follows<C(==)>(stopped: bool, context: C, raised: bool, trace: seq<Call<C>>, pass: SM.Undoing<C>) {
    if stopped then pass.raised && trace <= pass.trace else SM.Undoing(context, raised, trace) == pass
  }

  lemma {:induction false} StepFollows<C>(env: Env<C>, step: StepExec<C>, context: C)
    requires Complete(step)
    ensures var r := RollbackStep(env, step, context);
            Follows(r.result == RollbackRaised, r.context, r.result == StepRaised, r.trace, SM.Compensate(env, DoneStep(step), context))
    decreases step, 0
  {
    hide RollbackExec, Done;
    assert SM.Compensate(env, [], context) == SM.Undoing(context, false, []);
    if step.def.Conditional? {
      if step.inner.Some? { ExecFollows(env, step.inner.value, context); }
    } else {
      assert [step.def][..0] == [];
    }
  }

  lemma {:induction false} ExecFollows<C>(env: Env<C>, x: Exec<C>, context: C)
    requires !x.alreadyRollback && forall i :: 0 <= i < |x.executed| ==> Complete(x.executed[i])
    ensures var r := RollbackExec(env, x, context);
            var pass := SM.Compensate(env, Done(x.executed), context);
            r.ok == !pass.raised && r.trace <= pass.trace && (r.ok ==> r.exec.context == pass.context && r.trace == pass.trace) &&
            (!RollbackList(env, x.executed, context).aborted ==> r.exec.context == pass.context && r.trace == pass.trace)
    decreases x, 0
  {
    hide RollbackList, Complete, Done;
    ListFollows(env, x.executed, context);
  }

  lemma {:induction false} ListFollows<C>(env: Env<C>, steps: seq<StepExec<C>>, context: C)
    requires forall i :: 0 <= i < |steps| ==> Complete(steps[i])
    ensures var r := RollbackList(env, steps, context);
            Follows(r.aborted, r.context, r.raised, r.trace, SM.Compensate(env, Done(steps), context))
    decreases steps, 0
  {
    hide RollbackStep, Complete, DoneStep;
    if steps != [] {
      var n := |steps| - 1;
      var last := RollbackStep(env, steps[n], context);
      StepFollows(env, steps[n], context);
      ListFollows(env, steps[..n], last.context);
      CompensateSplits(env, Done(steps[..n]), DoneStep(steps[n]), context);
    }
  }

  predicate AllDone<C>(steps: seq<StepExec<C>>) {
    forall i :: 0 <= i < |steps| ==> Complete(steps[i]) && (steps[i].inner.Some? ==> steps[i].def.Conditional?)
  }

  /**
    The rollback of any execution, at any depth: unless a nested rollback raises it has the context, the exception and
    the calls, each with its context, of one right-to-left pass over what was done; it raises exactly if the pass meets
    an exception, and has then made the first calls of the pass.
   */
  lemma {:induction false} RollbackIsOnePass<C>(env: Env<C>, x: Exec<C>)
    requires !x.alreadyRollback && AllDone(x.executed)
    ensures var r := RollbackExec(env, x, x.context);
            var pass := SM.Compensate(env, Done(x.executed), x.context);
            (r.ok <==> !pass.raised) && r.trace <= pass.trace &&
            ((forall k :: 0 <= k < |x.executed| ==> !Stopper(env, x.executed, x.context, k)) ==>
               r.exec.context == pass.context && r.trace == pass.trace)
  {
    hide RollbackExec, RollbackList, Complete, Done;
    ExecFollows(env, x, x.context);
    if forall k :: 0 <= k < |x.executed| ==> !Stopper(env, x.executed, x.context, k) {
      if RollbackList(env, x.executed, x.context).aborted {
        var k := SomeStopper(env, x.executed, x.context);
      }
    }
  }

  /** So does an execution one of whose steps fails: the calls of the step, and then the pass. */
  lemma {:induction false} FailureIsOnePass<C>(env: Env<C>, x: Exec<C>, r: StepResult<C>)
    requires r.outcome.StepFailed? && !x.alreadyRollback && AllDone(x.executed)
    ensures var e := Settle(env, x, r);
            var pass := SM.Compensate(env, Done(x.executed), x.context);
            (e.outcome == Failed <==> !pass.raised) && (e.outcome == RollbackFailed <==> pass.raised) && e.trace <= r.trace + pass.trace &&
            ((forall k :: 0 <= k < |x.executed| ==> !Stopper(env, x.executed, x.context, k)) ==>
               e.exec.context == pass.context && e.trace == r.trace + pass.trace)
  {
    hide RollbackExec, AllDone, Done;
    RollbackIsOnePass(env, x);
  }

  /** And one whose commit fails. */
  lemma {:induction false} FailedCommitIsOnePass<C>(env: Env<C>, x: Exec<C>)
    requires x.status == Finished && !x.alreadyRollback && AllDone(x.executed)
    ensures var e := Commit(env, x, false);
            var pass := SM.Compensate(env, Done(x.executed), x.context);
            !e.ok && e.trace <= pass.trace &&
            ((forall k :: 0 <= k < |x.executed| ==> !Stopper(env, x.executed, x.context, k)) ==>
               e.exec.context == pass.context && e.trace == pass.trace)
  {
    hide RollbackExec, AllDone, Done;
    RollbackIsOnePass(env, x);
  }

  // ---------------------------------------------------------------- a second rollback

  /**
    A step that was rolled back is not rolled back again, a conditional whose nested rollback came to its end but raised
    raises again without a call, and only a local or remote step whose own compensation raised is tried once more.
   */
  lemma {:induction false} NothingIsUndoneTwice<C>(env: Env<C>, step: StepExec<C>, context: C, env': Env<C>, context': C)
    requires Complete(step) && (step.inner.Some? ==> step.def.Conditional?)
    ensures var r := RollbackStep(env, step, context);
            var again := RollbackStep(env', r.step, context');
            (r.result == Undone ==> again == StepUndo(r.step, context', StepRaised, [])) &&
            (r.result == StepRaised ==> !step.def.Conditional? && !r.step.alreadyRollback && r.step.status == step.status) &&
            (r.result == RollbackRaised && !RollbackList(env, step.inner.value.executed, context).aborted ==>
               again.result == RollbackRaised && again.trace == [] && again.context == context')
  {
    hide RollbackList, Live;
  }

  predicate Flagged<C>(steps: seq<StepExec<C>>) {
    forall i :: 0 <= i < |steps| ==> steps[i].alreadyRollback
  }

  lemma {:induction false} FlaggedList<C>(env: Env<C>, steps: seq<StepExec<C>>, context: C)
    requires Flagged(steps)
    ensures var r := RollbackList(env, steps, context); !r.aborted && r.trace == [] && r.context == context && r.steps == steps
    decreases |steps|
  {
    if steps != [] {
      var n := |steps| - 1;
      FlaggedList(env, steps[..n], context);
      assert steps[..n] + [steps[n]] == steps;
    }
  }

  /** If nothing raised, everything is marked. */
  lemma {:induction false} UndoneIsFlagged<C>(env: Env<C>, steps: seq<StepExec<C>>, context: C)
    requires !RollbackList(env, steps, context).aborted && !RollbackList(env, steps, context).raised
    ensures Flagged(RollbackList(env, steps, context).steps)
    decreases |steps|
  {
    hide RollbackExec;
    if steps != [] { UndoneIsFlagged(env, steps[..|steps| - 1], RollbackStep(env, steps[|steps| - 1], context).context); }
  }

  /**
    A rollback that a nested one stopped, tried again: if nothing else had raised it stops at the same step and calls
    nothing, whatever has changed since.
   */
  lemma {:induction false} StoppedAgain<C>(env: Env<C>, steps: seq<StepExec<C>>, context: C, k: nat, env': Env<C>, context': C)
    requires AllDone(steps) && k < |steps| && Stopper(env, steps, context, k)
    requires var later := RollbackList(env, steps[k + 1..], context);
             !later.raised && !RollbackList(env, steps[k].inner.value.executed, later.context).aborted
    ensures var r := RollbackList(env, steps, context);
            var again := RollbackList(env', r.steps, context');
            r.aborted && again.aborted && again.trace == [] && again.context == context'
  {
    hide RollbackStep, RollbackExec, RollbackList, Complete;
    var later := RollbackList(env, steps[k + 1..], context);
    var one := RollbackStep(env, steps[k], later.context);
    assert steps == steps[..k + 1] + steps[k + 1..] && steps[..k + 1] == steps[..k] + [steps[k]];
    RollbackSplits(env, steps[..k + 1], steps[k + 1..], context);
    RollbackSplits(env, steps[..k], [steps[k]], later.context);
    RaisedInside(env, steps[k], later.context);
    OneRaises(env, steps[k], later.context);
    UndoneIsFlagged(env, steps[k + 1..], context);
    NothingIsUndoneTwice(env, steps[k], later.context, env', context');
    var left := steps[..k] + [one.step];
    assert RollbackList(env, steps, context).steps == left + later.steps;
    RollbackSplits(env', left, later.steps, context');
    FlaggedList(env', later.steps, context');
    RollbackSplits(env', steps[..k], [one.step], context');
    OneRaises(env', one.step, context');
  }

  lemma {:induction false} OneRaises<C>(env: Env<C>, step: StepExec<C>, context: C)
    requires RollbackStep(env, step, context).result == RollbackRaised
    ensures var r := RollbackStep(env, step, context);
            RollbackList(env, [step], context) == ListUndo([r.step], r.context, true, true, r.trace)
  {
    assert [step][..0] == [];
  }

  // ---------------------------------------------------------------- late calls

  /** A finished execution refuses to be executed, a failed one too unless it gets a late reply, which is passed over: nothing is called. */
  lemma {:induction false} LateCallsDoNothing<C>(env: Env<C>, x: Exec<C>, response: Option<Response>)
    requires x.status == Finished || x.status == Errored
    ensures var r := Run(env, x, response);
            r.exec == x && r.trace == [] && (r.outcome == Ignored <==> x.status == Errored && response.Some?) &&
            (r.outcome == AlreadyExecuted <==> x.status == Finished || response.None?)
  {
    hide RunPending, Resume, Settle;
  }
}
